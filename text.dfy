/**
 * The string primitives the modelled code takes from Go's `strings` package and
 * from JavaScript's String methods: trimming, prefixes, splitting and joining.
 * Strings are sequences of characters; splitting is on a non-empty separator.
 */
module Text {
  import opened Slices

  /** Go's unicode.IsSpace: the Unicode White_Space characters. */
  const SpaceChars: set<char> := {
    ' ', '\t', '\n', '\U{B}', '\U{C}', '\r', '\U{85}', '\U{A0}', '\U{1680}',
    '\U{2000}', '\U{2001}', '\U{2002}', '\U{2003}', '\U{2004}', '\U{2005}',
    '\U{2006}', '\U{2007}', '\U{2008}', '\U{2009}', '\U{200A}',
    '\U{2028}', '\U{2029}', '\U{202F}', '\U{205F}', '\U{3000}'}

  predicate IsSpace(c: char) {
    c in SpaceChars
  }

  /** The cutset "\r\n" of eol.ConvertTo. */
  predicate IsLineBreak(c: char) {
    c == '\r' || c == '\n'
  }

  /** The first position at or after `i` holding a character `cut` rejects (|s| when none). */
  function SkipForward(s: string, i: nat, cut: char -> bool): (r: nat)
    requires i <= |s|
    ensures i <= r <= |s|
    ensures r < |s| ==> !cut(s[r])
    ensures forall k | i <= k < r :: cut(s[k])
    decreases |s| - i
  {
    if i < |s| && cut(s[i]) then SkipForward(s, i + 1, cut) else i
  }

  /** The position just past the last character before `j`, not before `lo`, that `cut` rejects (`lo` when none). */
  function SkipBackward(s: string, lo: nat, j: nat, cut: char -> bool): (r: nat)
    requires lo <= j <= |s|
    ensures lo <= r <= j
    ensures r > lo ==> !cut(s[r - 1])
    ensures forall k | r <= k < j :: cut(s[k])
    decreases j
  {
    if j > lo && cut(s[j - 1]) then SkipBackward(s, lo, j - 1, cut) else j
  }

  /** Drop characters that `cut` accepts from both ends (Go strings.Trim / TrimFunc). */
  function TrimBy(s: string, cut: char -> bool): (r: string)
    ensures r == [] || (!cut(r[0]) && !cut(r[|r| - 1]))
    ensures |r| <= |s|
  {
    var a := SkipForward(s, 0, cut);
    var b := SkipBackward(s, a, |s|, cut);
    s[a..b]
  }

  /** A string whose ends are not trimmed away is its own trim. */
  lemma TrimByUnchanged(s: string, cut: char -> bool)
    requires s == [] || (!cut(s[0]) && !cut(s[|s| - 1]))
    ensures TrimBy(s, cut) == s
  {
    assert SkipForward(s, 0, cut) == 0;
    assert SkipBackward(s, 0, |s|, cut) == |s|;
  }

  /** Trimming only removes characters from the ends: a string starting with a kept character keeps it first. */
  lemma TrimByKeepsFirst(s: string, cut: char -> bool)
    requires s != [] && !cut(s[0])
    ensures TrimBy(s, cut) != [] && TrimBy(s, cut)[0] == s[0]
  {
    assert SkipForward(s, 0, cut) == 0;
  }

  /** Go strings.TrimSpace. */
  function TrimSpace(s: string): (r: string)
    ensures Trimmed(r)
  {
    TrimBy(s, IsSpace)
  }

  /** Trimming adds no character: what is missing from `s` is missing from its trim. */
  lemma TrimSpaceFree(s: string, c: char)
    requires c !in s
    ensures c !in TrimSpace(s)
  {
  }

  /** A string equal to its own TrimSpace. */
  predicate Trimmed(s: string) {
    s == [] || (!IsSpace(s[0]) && !IsSpace(s[|s| - 1]))
  }

  lemma TrimmedUnchanged(s: string)
    requires Trimmed(s)
    ensures TrimSpace(s) == s
  {
    TrimByUnchanged(s, IsSpace);
  }

  /** Go strings.HasPrefix / JavaScript startsWith. */
  predicate HasPrefix(s: string, prefix: string) {
    |prefix| <= |s| && s[..|prefix|] == prefix
  }

  /** Go strings.TrimPrefix: remove `prefix` when it is there. */
  function TrimPrefix(s: string, prefix: string): (r: string)
    ensures HasPrefix(s, prefix) ==> prefix + r == s
    ensures !HasPrefix(s, prefix) ==> r == s
  {
    if HasPrefix(s, prefix) then
      assert s == s[..|prefix|] + s[|prefix|..];
      s[|prefix|..]
    else s
  }

  /** Number of occurrences of `c` in `s`. */
  function Count(s: string, c: char): nat {
    if s == [] then 0 else (if s[0] == c then 1 else 0) + Count(s[1..], c)
  }

  /**
   * Go strings.Split / JavaScript String.split with a non-empty separator: the
   * pieces between successive non-overlapping occurrences, scanning left to right.
   */
  function Split(s: string, sep: string): (r: seq<string>)
    requires |sep| > 0
    ensures |r| >= 1
    decreases |s|
  {
    if |s| < |sep| then [s]
    else if s[..|sep|] == sep then [""] + Split(s[|sep|..], sep)
    else
      var rest := Split(s[1..], sep);
      [[s[0]] + rest[0]] + rest[1..]
  }

  /** No piece of a split on one character holds that character. */
  lemma {:induction false} SplitPiecesFree(s: string, c: char)
    ensures forall i | 0 <= i < |Split(s, [c])| :: c !in Split(s, [c])[i]
    decreases |s|
  {
    if |s| >= 1 {
      SplitPiecesFree(s[1..], c);
      var rest := Split(s[1..], [c]);
      if s[..1] == [c] {
        assert s[1..] == s[|[c]|..];
        assert Split(s, [c]) == [""] + rest;
      } else {
        assert s[0] != c;
        assert Split(s, [c]) == [[s[0]] + rest[0]] + rest[1..];
        assert c !in rest[0];
      }
    }
  }

  /** A text shorter than the separator is a single piece. */
  lemma SplitShort(s: string, sep: string)
    requires |s| < |sep|
    ensures Split(s, sep) == [s]
  {
  }

  /** Go strings.Join / JavaScript Array.join. */
  function Join(parts: seq<string>, sep: string): string {
    if |parts| == 0 then ""
    else if |parts| == 1 then parts[0]
    else parts[0] + sep + Join(parts[1..], sep)
  }

  /** Joining the pieces of a split gives the original text back. */
  lemma {:induction false} JoinSplit(s: string, sep: string)
    requires |sep| > 0
    ensures Join(Split(s, sep), sep) == s
    decreases |s|
  {
    if |s| < |sep| {
    } else if s[..|sep|] == sep {
      JoinSplit(s[|sep|..], sep);
      JoinEmptyFirst(Split(s[|sep|..], sep), sep);
      assert s == sep + s[|sep|..];
    } else {
      JoinSplit(s[1..], sep);
      JoinFirstWidened(s[0], Split(s[1..], sep), sep);
      assert s == [s[0]] + s[1..];
    }
  }

  /** An empty first piece puts one separator in front of the join of the rest. */
  lemma JoinEmptyFirst(parts: seq<string>, sep: string)
    requires |parts| >= 1
    ensures Join([""] + parts, sep) == sep + Join(parts, sep)
  {
    assert ([""] + parts)[1..] == parts;
  }

  /** Putting a character in front of the first piece puts it in front of the join. */
  lemma JoinFirstWidened(c: char, parts: seq<string>, sep: string)
    requires |parts| >= 1
    ensures Join([[c] + parts[0]] + parts[1..], sep) == [c] + Join(parts, sep)
  {
    var r := [[c] + parts[0]] + parts[1..];
    assert r[1..] == parts[1..];
    if |parts| > 1 {
      assert Join(parts, sep) == parts[0] + sep + Join(parts[1..], sep);
      assert Join(r, sep) == [c] + parts[0] + sep + Join(parts[1..], sep);
    }
  }

  /** A piece that does not contain the separator's first character is not split. */
  lemma {:induction false} SplitPlain(p: string, sep: string)
    requires |sep| > 0 && sep[0] !in p
    ensures Split(p, sep) == [p]
    decreases |p|
  {
    if |p| >= |sep| {
      assert p[..|sep|][0] == p[0];
      SplitPlain(p[1..], sep);
      assert [p[0]] + p[1..] == p;
    }
  }

  /** Splitting `p + sep + t` cuts exactly after `p` when `p` cannot hold the separator. */
  lemma {:induction false} SplitAfterPlain(p: string, sep: string, t: string)
    requires |sep| > 0 && sep[0] !in p
    ensures Split(p + sep + t, sep) == [p] + Split(t, sep)
    decreases |p|
  {
    var s := p + sep + t;
    if p == [] {
      assert s == sep + t;
      assert s[..|sep|] == sep && s[|sep|..] == t;
    } else {
      assert s[..|sep|][0] == p[0];
      assert s[1..] == p[1..] + sep + t;
      SplitAfterPlain(p[1..], sep, t);
      assert [p[0]] + p[1..] == p;
    }
  }

  /** Split undoes Join when no piece contains the separator's first character. */
  lemma {:induction false} SplitJoin(parts: seq<string>, sep: string)
    requires |sep| > 0 && |parts| >= 1
    requires forall i | 0 <= i < |parts| :: sep[0] !in parts[i]
    ensures Split(Join(parts, sep), sep) == parts
    decreases |parts|
  {
    if |parts| == 1 {
      SplitPlain(parts[0], sep);
    } else {
      SplitJoin(parts[1..], sep);
      SplitAfterPlain(parts[0], sep, Join(parts[1..], sep));
    }
  }

  /** Joining two non-empty lists is joining their joins. */
  lemma {:induction false} JoinAppend(a: seq<string>, b: seq<string>, sep: string)
    requires |a| >= 1 && |b| >= 1
    ensures Join(a + b, sep) == Join(a, sep) + sep + Join(b, sep)
    decreases |a|
  {
    if |a| == 1 {
      assert (a + b)[1..] == b;
    } else {
      JoinAppend(a[1..], b, sep);
      assert (a + b)[1..] == a[1..] + b;
    }
  }

  /** A character found in neither the pieces nor the separator is not in the join. */
  lemma {:induction false} JoinFreeOf(parts: seq<string>, sep: string, c: char)
    requires c !in sep
    requires forall i | 0 <= i < |parts| :: c !in parts[i]
    ensures c !in Join(parts, sep)
    decreases |parts|
  {
    if |parts| > 1 {
      JoinFreeOf(parts[1..], sep, c);
    }
  }

  /** Splitting on one character gives one piece more than it has occurrences. */
  lemma {:induction false} SplitCount(s: string, c: char)
    ensures |Split(s, [c])| == Count(s, c) + 1
    decreases |s|
  {
    if s != [] {
      SplitCount(s[1..], c);
      assert s[..1] == [s[0]];
    }
  }

  /**
   * Go strings.SplitN(s, sep, 2) with a one-character separator: the text before
   * the first occurrence and the text after it, or the whole string alone.
   */
  function SplitOnce(s: string, sep: char): (r: seq<string>)
    ensures sep !in s ==> r == [s]
    ensures sep in s ==> |r| == 2 && r[0] + [sep] + r[1] == s && sep !in r[0]
  {
    var i := FirstIndexOf(s, sep);
    if i < 0 then [s]
    else
      assert s == s[..i] + [sep] + s[i + 1..];
      [s[..i], s[i + 1..]]
  }

  /** A join of two or more pieces contains the separator's first character. */
  lemma JoinHasSep(parts: seq<string>, sep: string)
    requires |parts| >= 2 && |sep| > 0
    ensures sep[0] in Join(parts, sep)
  {
    var s := Join(parts, sep);
    assert s == parts[0] + sep + Join(parts[1..], sep);
    assert s[|parts[0]|] == sep[0];
  }
}
