/**
 * The legacy TypeScript Workshop client (src/workshop.ts): the regex parser of
 * mod IDs and the chunked, cached lookup of item details. The HTTP request and
 * the JSON decoding are one parameter, `fetch`, from the IDs of a chunk to the
 * rows of the answer or the error that was thrown.
 */
module LegacyWorkshop {
  import opened Wrappers
  import opened Slices
  import opened Text

  /** A Workshop item as the legacy tool keeps it. */
  datatype ModEntry = ModEntry(
    workshopId: string,
    modIds: seq<string>,
    children: seq<string>,
    creator: string,
    title: string,
    description: string,
    tags: seq<string>,
    banned: bool)

  /** One row of the details answer, with absent child and tag lists read as empty. */
  datatype DetailsRow = DetailsRow(
    publishedFileId: string,
    fileDescription: string,
    children: seq<string>,
    creator: string,
    title: string,
    tags: seq<string>,
    banned: bool)

  /** The text before a mod ID in the regular expression `/Mod ID: (.+)\n?$/gm`. */
  const ModIdMarker := "Mod ID: "

  /** The number of IDs sent in one request. */
  const LegacyChunkSize: nat := 10

  /** JavaScript's line terminators: `.` stops at them and `$` matches before them in multiline mode. */
  predicate IsLineTerminator(c: char) {
    c == '\n' || c == '\r' || c == '\U{2028}' || c == '\U{2029}'
  }

  /** The lines of a text, cut at every line terminator. */
  function Lines(s: string): (r: seq<string>)
    ensures |r| >= 1
    decreases |s|
  {
    if s == [] then [""]
    else
      var rest := Lines(s[1..]);
      if IsLineTerminator(s[0]) then [""] + rest else [[s[0]] + rest[0]] + rest[1..]
  }

  /** No line holds a line terminator. */
  lemma {:induction false} LinesFree(s: string)
    ensures forall i, k | 0 <= i < |Lines(s)| && 0 <= k < |Lines(s)[i]| :: !IsLineTerminator(Lines(s)[i][k])
    decreases |s|
  {
    if s != [] {
      LinesFree(s[1..]);
      var rest := Lines(s[1..]);
      if !IsLineTerminator(s[0]) {
        var r := Lines(s);
        forall i, k | 0 <= i < |r| && 0 <= k < |r[i]|
          ensures !IsLineTerminator(r[i][k])
        {
          if i == 0 {
            if k > 0 {
              assert r[0][k] == rest[0][k - 1];
            }
          } else {
            assert r[i] == rest[i];
          }
        }
      }
    }
  }

  /** A text without terminators followed by a terminator: its first line is that text. */
  lemma {:induction false} LinesAfter(a: string, c: char, b: string)
    requires IsLineTerminator(c)
    requires forall k | 0 <= k < |a| :: !IsLineTerminator(a[k])
    ensures Lines(a + [c] + b) == [a] + Lines(b)
    decreases |a|
  {
    if a != [] {
      assert (a + [c] + b)[1..] == a[1..] + [c] + b;
      LinesAfter(a[1..], c, b);
      assert [a[0]] + a[1..] == a;
    } else {
      assert (a + [c] + b)[1..] == b;
    }
  }

  /** A text without terminators is one line. */
  lemma {:induction false} LinesSingle(a: string)
    requires forall k | 0 <= k < |a| :: !IsLineTerminator(a[k])
    ensures Lines(a) == [a]
    decreases |a|
  {
    if a != [] {
      LinesSingle(a[1..]);
      assert [a[0]] + a[1..] == a;
    }
  }

  /** Whether `pat` occurs in `s` at position `k`. */
  predicate OccursAt(s: string, pat: string, k: nat) {
    k + |pat| <= |s| && s[k..k + |pat|] == pat
  }

  /** The first position at or after `from` where `pat` occurs in `s`, or -1. */
  function IndexOfText(s: string, pat: string, from: nat): (r: int)
    requires from <= |s|
    ensures r == -1 || (from <= r && OccursAt(s, pat, r))
    ensures forall k: nat | from <= k && (r == -1 || k < r) :: !OccursAt(s, pat, k)
    decreases |s| - from
  {
    if from + |pat| > |s| then -1
    else if s[from..from + |pat|] == pat then from
    else IndexOfText(s, pat, from + 1)
  }

  /** An occurrence with none before it is the one found. */
  lemma IndexOfTextAt(s: string, pat: string, k: nat)
    requires OccursAt(s, pat, k)
    requires forall j: nat | j < k :: !OccursAt(s, pat, j)
    ensures IndexOfText(s, pat, 0) == k
  {
  }

  /** Without any occurrence nothing is found. */
  lemma IndexOfTextNone(s: string, pat: string)
    requires forall j: nat :: !OccursAt(s, pat, j)
    ensures IndexOfText(s, pat, 0) == -1
  {
  }

  /** The capture of the regular expression in one line: the rest of the line after the first marker, when not empty. */
  function Capture(line: string): Option<string> {
    var k := IndexOfText(line, ModIdMarker, 0);
    if k < 0 || k + |ModIdMarker| == |line| then None
    else Some(line[k + |ModIdMarker|..])
  }

  /** The captures of the lines, in order. */
  function Captures(lines: seq<string>): seq<string>
    decreases |lines|
  {
    if lines == [] then []
    else (match Capture(lines[0]) case Some(v) => [v] case None => []) + Captures(lines[1..])
  }

  /** parseModIds: one capture per line that holds the marker with text after it. */
  function ParseModIds(description: string): seq<string> {
    Captures(Lines(description))
  }

  /** A capture is the non-empty rest of its line after the first marker, and holds no line terminator. */
  lemma CaptureSpec(line: string, v: string)
    requires Capture(line) == Some(v)
    ensures v != [] && |v| < |line|
    ensures exists k: nat ::
      (OccursAt(line, ModIdMarker, k) && v == line[k + |ModIdMarker|..] && forall j: nat | j < k :: !OccursAt(line, ModIdMarker, j))
  {
    var k := IndexOfText(line, ModIdMarker, 0);
    assert OccursAt(line, ModIdMarker, k);
  }

  /** Every line contributes at most one capture, in line order. */
  lemma {:induction false} CapturesMembers(lines: seq<string>, x: string)
    ensures |Captures(lines)| <= |lines|
    ensures x in Captures(lines) <==> exists i | 0 <= i < |lines| :: Capture(lines[i]) == Some(x)
    decreases |lines|
  {
    if lines != [] {
      CapturesMembers(lines[1..], x);
      assert forall i | 1 <= i < |lines| :: lines[i] == lines[1..][i - 1];
    }
  }

  /** parseModIds: each result is a capture of some line, and no line gives more than one. */
  lemma ParseModIdsMembers(description: string, x: string)
    ensures |ParseModIds(description)| <= |Lines(description)|
    ensures x in ParseModIds(description) <==> exists i | 0 <= i < |Lines(description)| :: Capture(Lines(description)[i]) == Some(x)
  {
    CapturesMembers(Lines(description), x);
  }

  /** A marker with text after it counts wherever it stands in the line: the match is not anchored at the line start. */
  lemma MarkerAnywhere(p: string, v: string)
    requires v != [] && 'M' !in p
    requires forall k | 0 <= k < |p| :: !IsLineTerminator(p[k])
    requires forall k | 0 <= k < |v| :: !IsLineTerminator(v[k])
    ensures ParseModIds(p + ModIdMarker + v) == [v]
  {
    var line := p + ModIdMarker + v;
    assert forall k | 0 <= k < |line| :: !IsLineTerminator(line[k]);
    LinesSingle(line);
    assert line[|p|..|p| + |ModIdMarker|] == ModIdMarker;
    forall k: nat | k < |p|
      ensures !OccursAt(line, ModIdMarker, k)
    {
      assert line[k..k + |ModIdMarker|][0] == p[k];
    }
    IndexOfTextAt(line, ModIdMarker, |p|);
    assert line[|p| + |ModIdMarker|..] == v;
    assert Capture(line) == Some(v);
    assert Captures([line]) == [v] + Captures([]);
  }

  /** The same declaration on two lines is returned twice: the result is not deduplicated. */
  lemma RepeatedKept(line: string, v: string)
    requires Capture(line) == Some(v)
    requires forall k | 0 <= k < |line| :: !IsLineTerminator(line[k])
    ensures ParseModIds(line + "\n" + line) == [v, v]
  {
    LinesAfter(line, '\n', line);
    LinesSingle(line);
    assert line + "\n" + line == line + ['\n'] + line;
    assert Captures([line, line]) == [v] + Captures([line]);
    assert Captures([line]) == [v] + Captures([]);
  }

  /** The spelling without a space is not recognised. */
  lemma JoinedSpellingIgnored(v: string)
    requires 'M' !in v
    requires forall k | 0 <= k < |v| :: !IsLineTerminator(v[k])
    ensures ParseModIds("ModID: " + v) == []
  {
    var line := "ModID: " + v;
    assert forall k | 0 <= k < |line| :: !IsLineTerminator(line[k]);
    LinesSingle(line);
    forall k: nat | k + |ModIdMarker| <= |line|
      ensures !OccursAt(line, ModIdMarker, k)
    {
      if k == 0 {
        assert line[k..k + |ModIdMarker|][3] == 'I';
      } else {
        assert line[k..k + |ModIdMarker|][0] == line[k];
        assert k >= 7 ==> line[k] == v[k - 7];
      }
    }
    IndexOfTextNone(line, ModIdMarker);
    assert Capture(line) == None;
    assert Captures([line]) == [] + Captures([]);
  }

  /** The entry the client builds from one answer row. */
  function EntryOf(row: DetailsRow): (e: ModEntry)
    ensures e.workshopId == row.publishedFileId && e.description == row.fileDescription
    ensures e.modIds == ParseModIds(row.fileDescription)
  {
    ModEntry(row.publishedFileId, ParseModIds(row.fileDescription), row.children, row.creator, row.title,
      row.fileDescription, row.tags, row.banned)
  }

  /** The request for the details of a chunk of IDs: the answer's rows, or the error thrown. */
  type DetailsFetch = seq<string> -> Result<seq<DetailsRow>, string>

  /** The entries built from the rows of an answer, in order. */
  function EntriesOf(rows: seq<DetailsRow>): (r: seq<ModEntry>)
    ensures |r| == |rows|
  {
    seq(|rows|, i requires 0 <= i < |rows| => EntryOf(rows[i]))
  }

  /** The filter of IDs missing from the cache. */
  function Uncached(entries: map<string, ModEntry>): string -> bool {
    id => id !in entries
  }

  /** The filter of IDs not in `ids`. */
  function NotIn(ids: seq<string>): string -> bool {
    id => id !in ids
  }

  /** The filter of IDs already in the cache. */
  function InCache(entries: map<string, ModEntry>): string -> bool {
    id => id in entries
  }

  /** The IDs of a chunk that are not in the cache, in request order. */
  function Pending(entries: map<string, ModEntry>, ids: seq<string>): seq<string> {
    Filtered(ids, Uncached(entries))
  }

  /** The cache after storing each fetched entry under its ID, in order: a later entry replaces an earlier one. */
  function Store(entries: map<string, ModEntry>, fetched: seq<ModEntry>): map<string, ModEntry>
    decreases |fetched|
  {
    if fetched == [] then entries
    else
      var last := fetched[|fetched| - 1];
      Store(entries, fetched[..|fetched| - 1])[last.workshopId := last]
  }

  /** The cached entries of `ids`, in request order. */
  function Cached(entries: map<string, ModEntry>, ids: seq<string>): (r: seq<ModEntry>)
    requires forall id | id in ids :: id in entries
    ensures |r| == |ids|
  {
    seq(|ids|, i requires 0 <= i < |ids| => entries[ids[i]])
  }

  /** The result of a lookup and the cache it leaves behind. */
  datatype Served = Served(result: Result<seq<ModEntry>, string>, entries: map<string, ModEntry>)

  /** The stored IDs are the earlier ones and the fetched ones. */
  lemma {:induction false} StoreKeys(entries: map<string, ModEntry>, fetched: seq<ModEntry>, id: string)
    ensures id in Store(entries, fetched) <==> id in entries || exists k | 0 <= k < |fetched| :: fetched[k].workshopId == id
    decreases |fetched|
  {
    if fetched != [] {
      var init := fetched[..|fetched| - 1];
      StoreKeys(entries, init, id);
      assert forall k | 0 <= k < |init| :: init[k] == fetched[k];
    }
  }

  /** Each fetched entry is stored under its ID unless a later one has the same ID; other entries are kept. */
  lemma {:induction false} StoreValues(entries: map<string, ModEntry>, fetched: seq<ModEntry>, id: string)
    ensures (forall k | 0 <= k < |fetched| :: fetched[k].workshopId != id) && id in entries ==>
      id in Store(entries, fetched) && Store(entries, fetched)[id] == entries[id]
    ensures forall k | 0 <= k < |fetched| && fetched[k].workshopId == id
      && (forall j | k < j < |fetched| :: fetched[j].workshopId != id) ::
      id in Store(entries, fetched) && Store(entries, fetched)[id] == fetched[k]
    decreases |fetched|
  {
    if fetched != [] {
      var init := fetched[..|fetched| - 1];
      StoreValues(entries, init, id);
      assert forall k | 0 <= k < |init| :: init[k] == fetched[k];
    }
  }

  /** With nothing pending, every ID of the chunk is cached. */
  lemma NothingPending(entries: map<string, ModEntry>, ids: seq<string>)
    ensures Pending(entries, ids) == [] <==> forall id | id in ids :: id in entries
  {
    forall id | id in ids
      ensures id in Pending(entries, ids) <==> id !in entries
    {
      FilteredMembers(ids, Uncached(entries), id);
    }
    if Pending(entries, ids) != [] {
      FilteredMembers(ids, Uncached(entries), Pending(entries, ids)[0]);
    }
  }

  /** The IDs that were not requested are still cached after the fetched entries are stored. */
  lemma UnfetchedStored(entries: map<string, ModEntry>, ids: seq<string>, fetched: seq<ModEntry>)
    ensures forall id | id in Filtered(ids, NotIn(Pending(entries, ids))) :: id in Store(entries, fetched)
  {
    forall id | id in Filtered(ids, NotIn(Pending(entries, ids)))
      ensures id in Store(entries, fetched)
    {
      FilteredMembers(ids, NotIn(Pending(entries, ids)), id);
      FilteredMembers(ids, Uncached(entries), id);
      StoreKeys(entries, fetched, id);
    }
  }

  /** getPublishedItemsDetailsChunk: cached IDs are served from the cache, the others fetched and stored. */
  function ChunkServed(entries: map<string, ModEntry>, ids: seq<string>, fetch: DetailsFetch): Served {
    var toFetch := Pending(entries, ids);
    if toFetch == [] then
      NothingPending(entries, ids);
      Served(Success(Cached(entries, ids)), entries)
    else
      match fetch(toFetch)
      case Failure(e) => Served(Failure(e), entries)
      case Success(rows) =>
        var after := Store(entries, EntriesOf(rows));
        UnfetchedStored(entries, ids, EntriesOf(rows));
        Served(Success(Cached(after, Filtered(ids, NotIn(toFetch))) + EntriesOf(rows)), after)
  }

  /** When every ID is cached the answer is the cached entries in request order, whatever the request would give. */
  lemma AllCachedServed(entries: map<string, ModEntry>, ids: seq<string>, fetch: DetailsFetch)
    requires forall id | id in ids :: id in entries
    ensures ChunkServed(entries, ids, fetch) == Served(Success(Cached(entries, ids)), entries)
  {
    NothingPending(entries, ids);
  }

  /** The IDs kept from the cache are exactly those that were cached, in request order. */
  lemma {:induction false} UnfetchedAreCached(entries: map<string, ModEntry>, ids: seq<string>, toFetch: seq<string>)
    requires toFetch == Filtered(ids, Uncached(entries))
    ensures Filtered(ids, NotIn(toFetch)) == Filtered(ids, InCache(entries))
    decreases |ids|
  {
    if ids != [] {
      var init := ids[..|ids| - 1];
      var last := ids[|ids| - 1];
      assert ids == init + [last];
      FilteredMembers(ids, Uncached(entries), last);
      var sub := Filtered(init, Uncached(entries));
      forall id | id in init
        ensures NotIn(toFetch)(id) == NotIn(sub)(id)
      {
        FilteredMembers(ids, Uncached(entries), id);
        FilteredMembers(init, Uncached(entries), id);
      }
      FilteredSame(init, NotIn(toFetch), NotIn(sub));
      UnfetchedAreCached(entries, init, sub);
    }
  }

  /** Two filters that agree on every element of the list keep the same elements. */
  lemma {:induction false} FilteredSame(s: seq<string>, f: string -> bool, g: string -> bool)
    requires forall x | x in s :: f(x) == g(x)
    ensures Filtered(s, f) == Filtered(s, g)
    decreases |s|
  {
    if s != [] {
      var init := s[..|s| - 1];
      assert forall x | x in init :: x in s;
      FilteredSame(init, f, g);
    }
  }

  /** A fetched chunk answers with the previously cached IDs' entries, in request order, then the fetched entries. */
  lemma ChunkServedFetched(entries: map<string, ModEntry>, ids: seq<string>, fetch: DetailsFetch, rows: seq<DetailsRow>)
    requires Pending(entries, ids) != [] && fetch(Pending(entries, ids)) == Success(rows)
    ensures forall id | id in Filtered(ids, InCache(entries)) :: id in Store(entries, EntriesOf(rows))
    ensures ChunkServed(entries, ids, fetch) ==
      Served(Success(Cached(Store(entries, EntriesOf(rows)), Filtered(ids, InCache(entries))) + EntriesOf(rows)),
        Store(entries, EntriesOf(rows)))
  {
    UnfetchedAreCached(entries, ids, Pending(entries, ids));
    UnfetchedStored(entries, ids, EntriesOf(rows));
  }

  /** The chunks looked up one after another; the first error ends the lookup. */
  function ChunksServed(entries: map<string, ModEntry>, chunks: seq<seq<string>>, fetch: DetailsFetch): Served
    decreases |chunks|
  {
    if chunks == [] then Served(Success([]), entries)
    else
      var first := ChunkServed(entries, chunks[0], fetch);
      match first.result
      case Failure(e) => first
      case Success(found) =>
        var rest := ChunksServed(first.entries, chunks[1..], fetch);
        match rest.result
        case Failure(e) => rest
        case Success(more) => Served(Success(found + more), rest.entries)
  }

  /** getPublishedItemsDetails: nothing for no IDs, else the chunks of ten, results concatenated in chunk order. */
  function DetailsServed(entries: map<string, ModEntry>, ids: seq<string>, fetch: DetailsFetch): Served {
    if ids == [] then Served(Success([]), entries)
    else ChunksServed(entries, Chunked(ids, LegacyChunkSize), fetch)
  }

  /** With every chunk cached, the chunks answer the cached entries of all their IDs and leave the cache as it is. */
  lemma {:induction false} ChunksAllCached(entries: map<string, ModEntry>, chunks: seq<seq<string>>, fetch: DetailsFetch)
    requires forall c, id | c in chunks && id in c :: id in entries
    ensures forall id | id in Flatten(chunks) :: id in entries
    ensures ChunksServed(entries, chunks, fetch) == Served(Success(Cached(entries, Flatten(chunks))), entries)
    decreases |chunks|
  {
    if chunks != [] {
      assert chunks[0] in chunks;
      AllCachedServed(entries, chunks[0], fetch);
      assert forall c | c in chunks[1..] :: c in chunks;
      ChunksAllCached(entries, chunks[1..], fetch);
      assert Flatten(chunks) == chunks[0] + Flatten(chunks[1..]);
      CachedConcat(entries, chunks[0], Flatten(chunks[1..]));
    }
  }

  /** Looking up two lists of cached IDs is looking up their concatenation. */
  lemma CachedConcat(entries: map<string, ModEntry>, a: seq<string>, b: seq<string>)
    requires forall id | id in a + b :: id in entries
    ensures Cached(entries, a + b) == Cached(entries, a) + Cached(entries, b)
  {
  }

  /** One step of the chunk loop: the first chunk's answer, then the others'. */
  lemma ChunksStep(entries: map<string, ModEntry>, chunks: seq<seq<string>>, fetch: DetailsFetch)
    requires chunks != []
    ensures var first := ChunkServed(entries, chunks[0], fetch);
      ChunksServed(entries, chunks, fetch) ==
      if first.result.Failure? then first else Prefixed(first.result.value, ChunksServed(first.entries, chunks[1..], fetch))
  {
  }

  /** No prefix is no change. */
  lemma PrefixedEmpty(s: Served)
    ensures Prefixed([], s) == s
  {
    if s.result.Success? {
      assert [] + s.result.value == s.result.value;
    }
  }

  /** Two prefixes in a row are their concatenation. */
  lemma PrefixedTwice(a: seq<ModEntry>, b: seq<ModEntry>, s: Served)
    ensures Prefixed(a, Prefixed(b, s)) == Prefixed(a + b, s)
  {
    if s.result.Success? {
      assert a + (b + s.result.value) == (a + b) + s.result.value;
    }
  }

  /** A lookup of cached IDs only answers their entries in request order and changes nothing. */
  lemma DetailsAllCached(entries: map<string, ModEntry>, ids: seq<string>, fetch: DetailsFetch)
    requires forall id | id in ids :: id in entries
    ensures DetailsServed(entries, ids, fetch) == Served(Success(Cached(entries, ids)), entries)
  {
    if ids != [] {
      var chunks := Chunked(ids, LegacyChunkSize);
      forall c, id | c in chunks && id in c
        ensures id in entries
      {
        FlattenHas(chunks, c, id);
      }
      ChunksAllCached(entries, chunks, fetch);
    }
  }

  /** An element of one of the chunks is an element of their concatenation. */
  lemma {:induction false} FlattenHas<T>(chunks: seq<seq<T>>, c: seq<T>, x: T)
    requires c in chunks && x in c
    ensures x in Flatten(chunks)
    decreases |chunks|
  {
    if chunks[0] != c {
      assert c in chunks[1..];
      FlattenHas(chunks[1..], c, x);
    }
  }

  /** The cache of the legacy client, kept across lookups. */
  class EntryCache {
    var entries: map<string, ModEntry>

    constructor()
      ensures entries == map[]
    {
      entries := map[];
    }

    /** getPublishedItemsDetailsChunk on this cache. */
    method DetailsChunk(ids: seq<string>, fetch: DetailsFetch) returns (r: Result<seq<ModEntry>, string>)
      modifies this
      ensures Served(r, entries) == ChunkServed(old(entries), ids, fetch)
    {
      var toFetch := Filter(ids, Uncached(entries));
      if |toFetch| == 0 {
        NothingPending(entries, ids);
        return Success(Cached(entries, ids));
      }
      var unfetched := Filter(ids, NotIn(toFetch));
      var answer := fetch(toFetch);
      if answer.Failure? {
        return Failure(answer.error);
      }
      var fetched := EntriesOf(answer.value);
      ghost var before := entries;
      StoreAll(fetched);
      UnfetchedStored(before, ids, fetched);
      r := Success(Cached(entries, unfetched) + fetched);
    }

    /** Every fetched entry is stored under its Workshop ID, a later one over an earlier one. */
    method StoreAll(fetched: seq<ModEntry>)
      modifies this
      ensures entries == Store(old(entries), fetched)
    {
      ghost var before := entries;
      for i := 0 to |fetched|
        invariant entries == Store(before, fetched[..i])
      {
        assert fetched[..i + 1][..i] == fetched[..i];
        entries := entries[fetched[i].workshopId := fetched[i]];
      }
      assert fetched[..|fetched|] == fetched;
    }

    /** getPublishedItemsDetails on this cache, the chunks looked up one after another. */
    method Details(ids: seq<string>, fetch: DetailsFetch) returns (r: Result<seq<ModEntry>, string>)
      modifies this
      ensures Served(r, entries) == DetailsServed(old(entries), ids, fetch)
    {
      if |ids| == 0 {
        return Success([]);
      }
      var chunks := Chunk(ids, LegacyChunkSize);
      var found: seq<ModEntry> := [];
      ghost var start := entries;
      assert chunks[0..] == chunks;
      PrefixedEmpty(ChunksServed(entries, chunks, fetch));
      for c := 0 to |chunks|
        invariant ChunksServed(start, chunks, fetch) == Prefixed(found, ChunksServed(entries, chunks[c..], fetch))
      {
        ChunksStep(entries, chunks[c..], fetch);
        assert chunks[c..][1..] == chunks[c + 1..];
        ghost var here := entries;
        var part := DetailsChunk(chunks[c], fetch);
        if part.Failure? {
          return Failure(part.error);
        }
        PrefixedTwice(found, part.value, ChunksServed(entries, chunks[c + 1..], fetch));
        found := found + part.value;
      }
      assert found + [] == found;
      return Success(found);
    }
  }

  /** A lookup whose result follows the entries already found. */
  function Prefixed(found: seq<ModEntry>, s: Served): Served {
    match s.result
    case Failure(e) => s
    case Success(more) => Served(Success(found + more), s.entries)
  }
}
