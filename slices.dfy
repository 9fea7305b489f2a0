/**
 * List primitives of util/slices.go (Dedupe, IndexOf, Contains, Filter) and the
 * chunking loop shared by steam/items.go (chunkSlice) and the TypeScript helpers
 * (chunk in src/util.ts and src/workshop.ts).
 *
 * Each loop is a method proved against a specification function; the functions
 * carry the properties the rest of the model relies on.
 */
module Slices {

  /** No element occurs twice. */
  predicate NoDuplicates<T(==)>(s: seq<T>) {
    forall i, j | 0 <= i < j < |s| :: s[i] != s[j]
  }

  /** Position of the first occurrence of `x` in `s`, or -1 when there is none. */
  function FirstIndexOf<T(==)>(s: seq<T>, x: T): (r: int)
    ensures -1 <= r < |s|
    ensures r == -1 <==> x !in s
    ensures 0 <= r ==> s[r] == x && x !in s[..r]
  {
    if s == [] then -1
    else if s[0] == x then 0
    else
      var k := FirstIndexOf(s[1..], x);
      if k < 0 then -1
      else
        assert s[..k + 1] == [s[0]] + s[1..][..k];
        k + 1
  }

  /** A position holding `x` with no earlier `x` is the first index of `x`. */
  lemma FirstIndexOfAt<T>(s: seq<T>, x: T, i: nat)
    requires i < |s| && s[i] == x && x !in s[..i]
    ensures FirstIndexOf(s, x) == i
  {
  }

  /** Stable dedupe: the distinct elements of `s` in order of first occurrence. */
  function Deduped<T(==)>(s: seq<T>): (r: seq<T>)
    ensures forall x | x in r :: x in s
    ensures forall x | x in s :: x in r
    ensures NoDuplicates(r)
    ensures |r| <= |s|
    decreases |s|
  {
    if s == [] then []
    else
      var init := s[..|s| - 1];
      assert s == init + [s[|s| - 1]];
      var r := Deduped(init);
      if s[|s| - 1] in r then r else r + [s[|s| - 1]]
  }

  /** Deduping a list that has no duplicates changes nothing. */
  lemma {:induction false} DedupedOfDistinct<T>(s: seq<T>)
    requires NoDuplicates(s)
    ensures Deduped(s) == s
    decreases |s|
  {
    if s != [] {
      var init := s[..|s| - 1];
      assert NoDuplicates(init);
      DedupedOfDistinct(init);
      assert s == init + [s[|s| - 1]];
      assert s[|s| - 1] !in init;
    }
  }

  /** Deduping is idempotent. */
  lemma DedupedIdempotent<T>(s: seq<T>)
    ensures Deduped(Deduped(s)) == Deduped(s)
  {
    DedupedOfDistinct(Deduped(s));
  }

  /** One step of the dedupe loop: an element is appended only when it is new. */
  lemma DedupedSnoc<T>(p: seq<T>, x: T)
    ensures Deduped(p + [x]) == if x in p then Deduped(p) else Deduped(p) + [x]
  {
    assert (p + [x])[..|p + [x]| - 1] == p;
  }

  /** Appending more elements never disturbs what dedupe kept of the front part. */
  lemma {:induction false} DedupedPrefix<T>(p: seq<T>, q: seq<T>)
    ensures |Deduped(p)| <= |Deduped(p + q)|
    ensures Deduped(p + q)[..|Deduped(p)|] == Deduped(p)
    decreases |q|
  {
    if q == [] {
      assert p + q == p;
    } else {
      var q' := q[..|q| - 1];
      DedupedPrefix(p, q');
      assert p + q == (p + q') + [q[|q| - 1]];
      DedupedSnoc(p + q', q[|q| - 1]);
    }
  }

  /** Appending to an already deduplicated list keeps that list, in its order, at the front. */
  lemma DedupedAppendKeepsList<T>(list: seq<T>, xs: seq<T>)
    requires NoDuplicates(list)
    ensures |list| <= |Deduped(list + xs)| && Deduped(list + xs)[..|list|] == list
  {
    DedupedOfDistinct(list);
    DedupedPrefix(list, xs);
  }

  /** First-occurrence order: the output lists the elements in the order they first appear. */
  lemma {:induction false} DedupedFirstOccurrenceOrder<T>(s: seq<T>)
    ensures forall i, j | 0 <= i < j < |Deduped(s)| ::
      FirstIndexOf(s, Deduped(s)[i]) < FirstIndexOf(s, Deduped(s)[j])
    decreases |s|
  {
    if s != [] {
      var init := s[..|s| - 1];
      var x := s[|s| - 1];
      DedupedFirstOccurrenceOrder(init);
      assert s == init + [x];
      DedupedSnoc(init, x);
      forall y | y in init ensures FirstIndexOf(s, y) == FirstIndexOf(init, y) {
        var k := FirstIndexOf(init, y);
        assert s[..k] == init[..k];
        FirstIndexOfAt(s, y, k);
      }
      if x !in init {
        assert s[..|s| - 1] == init;
        FirstIndexOfAt(s, x, |s| - 1);
      }
    }
  }

  /** The elements of `s` that satisfy `f`, in their original order. */
  function Filtered<T>(s: seq<T>, f: T -> bool): (r: seq<T>)
    ensures |r| <= |s|
    decreases |s|
  {
    if s == [] then []
    else
      var init := s[..|s| - 1];
      assert s == init + [s[|s| - 1]];
      Filtered(init, f) + (if f(s[|s| - 1]) then [s[|s| - 1]] else [])
  }

  /** The filter keeps exactly the elements that satisfy the predicate. */
  lemma {:induction false} FilteredMembers<T>(s: seq<T>, f: T -> bool, x: T)
    ensures x in Filtered(s, f) <==> x in s && f(x)
    decreases |s|
  {
    if s != [] {
      var init := s[..|s| - 1];
      assert s == init + [s[|s| - 1]];
      FilteredMembers(init, f, x);
    }
  }

  /** Filtering distributes over concatenation, so relative order is kept. */
  lemma {:induction false} FilteredConcat<T>(a: seq<T>, b: seq<T>, f: T -> bool)
    ensures Filtered(a + b, f) == Filtered(a, f) + Filtered(b, f)
    decreases |b|
  {
    if b == [] {
      assert a + b == a;
    } else {
      var b' := b[..|b| - 1];
      FilteredConcat(a, b', f);
      assert (a + b)[..|a + b| - 1] == a + b';
    }
  }

  /** A filter that every element passes returns the list unchanged. */
  lemma {:induction false} FilteredAllPass<T>(s: seq<T>, f: T -> bool)
    requires forall x | x in s :: f(x)
    ensures Filtered(s, f) == s
    decreases |s|
  {
    if s != [] {
      var init := s[..|s| - 1];
      FilteredAllPass(init, f);
      assert s == init + [s[|s| - 1]];
    }
  }

  /** Concatenation of a list of chunks. */
  function Flatten<T>(chunks: seq<seq<T>>): seq<T> {
    if chunks == [] then [] else chunks[0] + Flatten(chunks[1..])
  }

  /** `s` cut into consecutive pieces of `size` elements; only the last may be shorter. */
  function Chunked<T>(s: seq<T>, size: nat): (r: seq<seq<T>>)
    requires size > 0
    ensures Flatten(r) == s
    ensures s == [] <==> r == []
    decreases |s|
  {
    if s == [] then []
    else if |s| <= size then
      assert Flatten([s]) == s + Flatten([]);
      [s]
    else
      var rest := Chunked(s[size..], size);
      assert ([s[..size]] + rest)[1..] == rest;
      assert s == s[..size] + s[size..];
      [s[..size]] + rest
  }

  /** Every chunk is non-empty and at most `size` long, and all but the last are exactly `size` long. */
  lemma {:induction false} ChunkedSizes<T>(s: seq<T>, size: nat)
    requires size > 0
    ensures forall k | 0 <= k < |Chunked(s, size)| :: 0 < |Chunked(s, size)[k]| <= size
    ensures forall k | 0 <= k < |Chunked(s, size)| - 1 :: |Chunked(s, size)[k]| == size
    decreases |s|
  {
    if |s| > size {
      ChunkedSizes(s[size..], size);
      var rest := Chunked(s[size..], size);
      var r := Chunked(s, size);
      assert r == [s[..size]] + rest;
      assert rest != [];
      forall k | 0 <= k < |r|
        ensures 0 < |r[k]| <= size
        ensures k < |r| - 1 ==> |r[k]| == size
      {
        if k > 0 {
          assert r[k] == rest[k - 1];
        } else {
          assert r[0] == s[..size];
        }
      }
    }
  }

  function Clamp(i: nat, n: nat): (r: nat)
    ensures r <= n && (i < n ==> r == i)
  {
    if i < n then i else n
  }

  /** One iteration of the chunking loop: the next chunk, then the chunks of what follows it. */
  lemma ChunkedStep<T>(s: seq<T>, i: nat, size: nat)
    requires size > 0 && i < |s|
    ensures Chunked(s[i..], size) == [s[i..Clamp(i + size, |s|)]] + Chunked(s[Clamp(i + size, |s|)..], size)
  {
    var rest := s[i..];
    if i + size >= |s| {
      assert s[i..Clamp(i + size, |s|)] == rest;
      assert s[Clamp(i + size, |s|)..] == [];
    } else {
      assert s[i..i + size] == rest[..size];
      assert rest[size..] == s[i + size..];
    }
  }

  /** The chunking loop's invariant survives one iteration. */
  lemma ChunkLoopStep<T>(s: seq<T>, done: seq<seq<T>>, i: nat, size: nat)
    requires size > 0 && i < |s|
    requires done + Chunked(s[i..], size) == Chunked(s, size)
    ensures (done + [s[i..Clamp(i + size, |s|)]]) + Chunked(s[Clamp(i + size, |s|)..], size) == Chunked(s, size)
  {
    ChunkedStep(s, i, size);
    var end := Clamp(i + size, |s|);
    AppendAssoc(done, [s[i..end]], Chunked(s[end..], size));
  }

  /** util/slices.go Dedupe: a `seen` map and an output slice appended in a loop. */
  method Dedupe(list: seq<string>) returns (deduped: seq<string>)
    ensures deduped == Deduped(list)
    ensures NoDuplicates(deduped)
    ensures forall x :: x in deduped <==> x in list
  {
    var seen: map<string, bool> := map[];
    deduped := [];
    for i := 0 to |list|
      invariant deduped == Deduped(list[..i])
      invariant forall x :: x in seen <==> x in list[..i]
    {
      var item := list[i];
      assert list[..i + 1] == list[..i] + [item];
      DedupedSnoc(list[..i], item);
      if item !in seen {
        seen := seen[item := true];
        deduped := deduped + [item];
      }
    }
    assert list[..|list|] == list;
  }

  /** util/slices.go IndexOf: a scan that stops at the first match. */
  method IndexOf(list: seq<string>, item: string) returns (idx: int)
    ensures idx == FirstIndexOf(list, item)
    ensures -1 <= idx < |list|
    ensures idx == -1 <==> item !in list
    ensures 0 <= idx ==> list[idx] == item && item !in list[..idx]
  {
    for i := 0 to |list|
      invariant item !in list[..i]
    {
      if list[i] == item {
        FirstIndexOfAt(list, item, i);
        return i;
      }
      assert list[..i + 1] == list[..i] + [list[i]];
    }
    assert list[..|list|] == list;
    return -1;
  }

  /** util/slices.go Contains: IndexOf found something. */
  method Contains(list: seq<string>, item: string) returns (found: bool)
    ensures found <==> item in list
    ensures found <==> FirstIndexOf(list, item) >= 0
  {
    var idx := IndexOf(list, item);
    found := idx >= 0;
  }

  /** util/slices.go Filter: append every element the predicate accepts. */
  method Filter<T>(list: seq<T>, filter: T -> bool) returns (filtered: seq<T>)
    ensures filtered == Filtered(list, filter)
  {
    filtered := [];
    for i := 0 to |list|
      invariant filtered == Filtered(list[..i], filter)
    {
      assert list[..i + 1][..i] == list[..i];
      if filter(list[i]) {
        filtered := filtered + [list[i]];
      }
    }
    assert list[..|list|] == list;
  }

  /**
   * steam/items.go chunkSlice and the TypeScript chunk helpers: walk the input in
   * steps of `chunkSize`, cutting the last piece short at the end of the input.
   */
  method Chunk<T>(slice: seq<T>, chunkSize: nat) returns (chunks: seq<seq<T>>)
    requires chunkSize > 0
    ensures chunks == Chunked(slice, chunkSize)
    ensures Flatten(chunks) == slice
    ensures forall k | 0 <= k < |chunks| :: 0 < |chunks[k]| <= chunkSize
    ensures forall k | 0 <= k < |chunks| - 1 :: |chunks[k]| == chunkSize
    ensures slice == [] <==> chunks == []
  {
    chunks := [];
    var i := 0;
    assert slice[Clamp(i, |slice|)..] == slice;
    while i < |slice|
      invariant 0 <= i
      invariant chunks + Chunked(slice[Clamp(i, |slice|)..], chunkSize) == Chunked(slice, chunkSize)
      decreases |slice| - i
    {
      var end := i + chunkSize;
      if end > |slice| {
        end := |slice|;
      }
      ChunkLoopStep(slice, chunks, i, chunkSize);
      chunks := chunks + [slice[i..end]];
      i := i + chunkSize;
    }
    assert slice[|slice|..] == [];
    ChunkedSizes(slice, chunkSize);
  }

  /** Concatenation regroups freely (stated once so large proofs need not rediscover it). */
  lemma AppendAssoc<T>(a: seq<T>, b: seq<T>, c: seq<T>)
    ensures (a + b) + c == a + (b + c)
  {
  }
}
