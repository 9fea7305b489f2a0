/**
 * Line endings (eol/eol.go): the three newline combinations, detection of the
 * one a text uses most, and conversion of a text from one to another.
 */
module Eol {
  import opened Wrappers
  import opened Text

  /** A line ending is an integer code; only 1, 2 and 3 are valid. */
  newtype LineEnding = int

  const LF: LineEnding := 1
  const CR: LineEnding := 2
  const CRLF: LineEnding := 3

  predicate IsValid(le: LineEnding) {
    1 <= le <= 3
  }

  /** The characters of a line ending; the empty text for an invalid code. */
  function EndingString(le: LineEnding): (r: string)
    ensures IsValid(le) <==> r != ""
    ensures le == LF ==> r == "\n"
    ensures le == CR ==> r == "\r"
    ensures le == CRLF ==> r == "\r\n"
  {
    if le == LF then "\n" else if le == CR then "\r" else if le == CRLF then "\r\n" else ""
  }

  /** The name shown to people; "Unknown" for an invalid code. */
  function Description(le: LineEnding): (r: string)
    ensures !IsValid(le) <==> r == "Unknown"
    ensures le == LF ==> r == "LF (Unix)"
    ensures le == CR ==> r == "CR (Mac)"
    ensures le == CRLF ==> r == "CRLF (Win)"
  {
    if le == LF then "LF (Unix)"
    else if le == CR then "CR (Mac)"
    else if le == CRLF then "CRLF (Win)"
    else "Unknown"
  }

  datatype EolError =
    | NoLineEndings
    | InvalidTarget(target: LineEnding)
    | InvalidSource(source: LineEnding)

  /** How often each combination was seen. */
  datatype Counts = Counts(lf: nat, cr: nat, crlf: nat) {
    function Total(): nat { lf + cr + crlf }
  }

  /** The character before position `j`; a space before the first character. */
  function PrevAt(s: string, j: nat): char
    requires j <= |s|
  {
    if j == 0 then ' ' else s[j - 1]
  }

  /**
   * One character of the scan: a carriage return not right after a line feed
   * counts as CR; a line feed counts as CRLF right after a carriage return and as
   * LF otherwise.
   */
  function Step(k: Counts, prev: char, c: char): Counts {
    if c == '\r' && prev != '\n' then k.(cr := k.cr + 1)
    else if c == '\n' then
      if prev == '\r' then k.(crlf := k.crlf + 1) else k.(lf := k.lf + 1)
    else k
  }

  /** The counts after scanning the first `n` characters of `s` from left to right. */
  function TallyUpTo(s: string, n: nat): Counts
    requires n <= |s|
  {
    if n == 0 then Counts(0, 0, 0)
    else Step(TallyUpTo(s, n - 1), PrevAt(s, n - 1), s[n - 1])
  }

  /** The counts after scanning all of `s`. */
  function Tally(s: string): Counts {
    TallyUpTo(s, |s|)
  }

  /**
   * The verdict on the counts: an error when nothing was counted; CRLF when it is
   * at least as frequent as both others; else CR when strictly more frequent than
   * LF; else LF.
   */
  function Pick(k: Counts): (r: Result<LineEnding, EolError>)
    ensures r.Failure? <==> k.Total() == 0
    ensures r.Failure? ==> r.error == NoLineEndings
    ensures r.Success? ==> IsValid(r.value)
    ensures r == Success(CRLF) <==> k.Total() > 0 && k.crlf >= k.cr && k.crlf >= k.lf
    ensures r == Success(CR) <==> k.Total() > 0 && !(k.crlf >= k.cr && k.crlf >= k.lf) && k.cr > k.lf
    ensures r == Success(LF) <==> k.Total() > 0 && !(k.crlf >= k.cr && k.crlf >= k.lf) && k.cr <= k.lf
  {
    if k.Total() == 0 then Failure(NoLineEndings)
    else if k.crlf >= k.cr && k.crlf >= k.lf then Success(CRLF)
    else if k.cr > k.lf then Success(CR)
    else Success(LF)
  }

  /** The line ending `content` uses most, or an error when it has none. */
  function Detected(content: string): Result<LineEnding, EolError> {
    Pick(Tally(content))
  }

  /** Go's Detect: one pass with a four-slot count array and the previous character. */
  method Detect(content: string) returns (r: Result<LineEnding, EolError>)
    ensures r == Detected(content)
  {
    var prev := ' ';
    var counts := new int[4](_ => 0);
    var i := 0;
    while i < |content|
      invariant 0 <= i <= |content|
      invariant prev == PrevAt(content, i)
      invariant counts[LF as int] == TallyUpTo(content, i).lf
      invariant counts[CR as int] == TallyUpTo(content, i).cr
      invariant counts[CRLF as int] == TallyUpTo(content, i).crlf
    {
      var c := content[i];
      if c == '\r' && prev != '\n' {
        counts[CR as int] := counts[CR as int] + 1;
      } else if c == '\n' {
        if prev == '\r' {
          counts[CRLF as int] := counts[CRLF as int] + 1;
        } else {
          counts[LF as int] := counts[LF as int] + 1;
        }
      }
      prev := c;
      i := i + 1;
    }
    if counts[CRLF as int] + counts[CR as int] + counts[LF as int] == 0 {
      return Failure(NoLineEndings);
    }
    if counts[CRLF as int] >= counts[CR as int] && counts[CRLF as int] >= counts[LF as int] {
      r := Success(CRLF);
    } else if counts[CR as int] > counts[LF as int] {
      r := Success(CR);
    } else {
      r := Success(LF);
    }
  }

  /** Nothing is counted exactly when the scanned part holds neither '\r' nor '\n'. */
  lemma {:induction false} TallyZero(s: string, n: nat)
    requires n <= |s|
    ensures TallyUpTo(s, n).Total() == 0 <==> forall j | 0 <= j < n :: !IsLineBreak(s[j])
  {
    if n > 0 {
      TallyZero(s, n - 1);
    }
  }

  /** Detection fails exactly when the text contains no line break character. */
  lemma DetectFailsIffNoBreaks(s: string)
    ensures Detected(s).Failure? <==> '\r' !in s && '\n' !in s
  {
    TallyZero(s, |s|);
  }

  /** Without '\r' only LF is ever counted. */
  lemma {:induction false} TallyWithoutCr(s: string, n: nat)
    requires n <= |s| && '\r' !in s
    ensures TallyUpTo(s, n).cr == 0 && TallyUpTo(s, n).crlf == 0
  {
    if n > 0 {
      TallyWithoutCr(s, n - 1);
    }
  }

  /** Without '\n' only CR is ever counted. */
  lemma {:induction false} TallyWithoutLf(s: string, n: nat)
    requires n <= |s| && '\n' !in s
    ensures TallyUpTo(s, n).lf == 0 && TallyUpTo(s, n).crlf == 0
  {
    if n > 0 {
      TallyWithoutLf(s, n - 1);
    }
  }

  /** Unix text (line feeds, no carriage returns) is detected as LF. */
  lemma DetectUnix(s: string)
    requires '\r' !in s && '\n' in s
    ensures Detected(s) == Success(LF)
  {
    TallyWithoutCr(s, |s|);
    DetectFailsIffNoBreaks(s);
  }

  /** Old Mac text (carriage returns, no line feeds) is detected as CR. */
  lemma DetectMac(s: string)
    requires '\n' !in s && '\r' in s
    ensures Detected(s) == Success(CR)
  {
    TallyWithoutLf(s, |s|);
    DetectFailsIffNoBreaks(s);
  }

  /** Windows text: its only line breaks are "\r\n" pairs. */
  predicate CrlfOnly(s: string) {
    && (forall i | 0 <= i < |s| && s[i] == '\n' :: 0 < i && s[i - 1] == '\r')
    && (forall i | 0 <= i < |s| && s[i] == '\r' :: i + 1 < |s| && s[i + 1] == '\n')
  }

  /** In Windows text each pair counts once as CR and once as CRLF, and LF never. */
  lemma {:induction false} TallyCrlf(s: string, n: nat)
    requires n <= |s| && CrlfOnly(s)
    ensures TallyUpTo(s, n).lf == 0
    ensures TallyUpTo(s, n).cr <= TallyUpTo(s, n).crlf + (if PrevAt(s, n) == '\r' then 1 else 0)
  {
    if n > 0 {
      TallyCrlf(s, n - 1);
    }
  }

  /** Windows text with at least one line break is detected as CRLF. */
  lemma DetectWindows(s: string)
    requires CrlfOnly(s) && '\n' in s
    ensures Detected(s) == Success(CRLF)
  {
    TallyCrlf(s, |s|);
    DetectFailsIffNoBreaks(s);
  }

  /** Each valid ending on its own is detected as itself. */
  lemma DetectEndingString(le: LineEnding)
    requires IsValid(le)
    ensures Detected(EndingString(le)) == Success(le)
  {
    var s := EndingString(le);
    if le == CRLF {
      DetectWindows(s);
    } else if le == LF {
      DetectUnix(s);
    } else {
      DetectMac(s);
    }
  }

  /** The detected ending, or `defaultEnding` when detection fails. */
  function DetectedOr(content: string, defaultEnding: LineEnding): (le: LineEnding)
    ensures Detected(content).Failure? ==> le == defaultEnding
    ensures Detected(content).Success? ==> le == Detected(content).value
    ensures '\r' !in content && '\n' !in content ==> le == defaultEnding
    ensures IsValid(defaultEnding) ==> IsValid(le)
  {
    DetectFailsIffNoBreaks(content);
    match Detected(content)
    case Success(le) => le
    case Failure(_) => defaultEnding
  }

  /** Go's DetectDefault. */
  method DetectDefault(content: string, defaultEnding: LineEnding) returns (le: LineEnding)
    ensures le == DetectedOr(content, defaultEnding)
  {
    var d := Detect(content);
    if d.Failure? {
      le := defaultEnding;
    } else {
      le := d.value;
    }
  }

  /** Every piece with '\r' and '\n' trimmed from both ends. */
  function TrimmedLines(lines: seq<string>): (r: seq<string>)
    ensures |r| == |lines|
    ensures forall i | 0 <= i < |r| :: r[i] == TrimBy(lines[i], IsLineBreak)
  {
    seq(|lines|, i requires 0 <= i < |lines| => TrimBy(lines[i], IsLineBreak))
  }

  /**
   * The conversion: the target is checked first, then the source; the text is
   * split on the source ending, every piece is trimmed of '\r' and '\n' at both
   * ends, and the pieces are joined with the target ending.
   */
  function Converted(text: string, from: LineEnding, to: LineEnding): (r: Result<string, EolError>)
    ensures !IsValid(to) ==> r == Failure(InvalidTarget(to))
    ensures IsValid(to) && !IsValid(from) ==> r == Failure(InvalidSource(from))
    ensures r.Success? <==> IsValid(to) && IsValid(from)
  {
    if !IsValid(to) then Failure(InvalidTarget(to))
    else if !IsValid(from) then Failure(InvalidSource(from))
    else Success(Join(TrimmedLines(Split(text, EndingString(from))), EndingString(to)))
  }

  /** Go's ConvertTo, rewriting the split pieces in place. */
  method ConvertTo(from: LineEnding, text: string, to: LineEnding) returns (r: Result<string, EolError>)
    ensures r == Converted(text, from, to)
  {
    if !IsValid(to) {
      return Failure(InvalidTarget(to));
    }
    if !IsValid(from) {
      return Failure(InvalidSource(from));
    }
    var pieces := Split(text, EndingString(from));
    var lines := new string[|pieces|](i requires 0 <= i < |pieces| => pieces[i]);
    for i := 0 to lines.Length
      invariant lines[..i] == TrimmedLines(pieces[..i])
      invariant lines[i..] == pieces[i..]
    {
      lines[i] := TrimBy(lines[i], IsLineBreak);
      assert lines[i + 1..] == pieces[i + 1..] by {
        assert lines[i + 1..] == lines[i..][1..];
      }
    }
    assert pieces[..lines.Length] == pieces;
    assert lines[..] == lines[..lines.Length];
    r := Success(Join(lines[..], EndingString(to)));
  }

  /** A line without break characters. */
  predicate BreakFree(line: string) {
    '\r' !in line && '\n' !in line
  }

  /** Converting lines joined with one valid ending gives the same lines joined with another. */
  lemma ConvertJoined(lines: seq<string>, from: LineEnding, to: LineEnding)
    requires |lines| >= 1 && IsValid(from) && IsValid(to)
    requires forall i | 0 <= i < |lines| :: BreakFree(lines[i])
    ensures Converted(Join(lines, EndingString(from)), from, to) == Success(Join(lines, EndingString(to)))
  {
    var sep := EndingString(from);
    assert sep[0] == '\r' || sep[0] == '\n';
    SplitJoin(lines, sep);
    forall i | 0 <= i < |lines|
      ensures TrimBy(lines[i], IsLineBreak) == lines[i]
    {
      TrimByUnchanged(lines[i], IsLineBreak);
    }
    assert TrimmedLines(lines) == lines;
  }

  /** Lines joined with "\r\n" form Windows text. */
  lemma {:induction false} JoinCrlfOnly(lines: seq<string>)
    requires |lines| >= 1
    requires forall i | 0 <= i < |lines| :: BreakFree(lines[i])
    ensures CrlfOnly(Join(lines, "\r\n"))
    ensures |lines| >= 2 ==> '\n' in Join(lines, "\r\n")
    decreases |lines|
  {
    if |lines| >= 2 {
      var a := lines[0];
      var b := Join(lines[1..], "\r\n");
      JoinCrlfOnly(lines[1..]);
      var s := a + "\r\n" + b;
      assert s == Join(lines, "\r\n");
      assert s[|a| + 1] == '\n';
      forall i | 0 <= i < |s| && s[i] == '\n'
        ensures 0 < i && s[i - 1] == '\r'
      {
        if i > |a| + 1 {
          assert s[i] == b[i - |a| - 2];
          if i - |a| - 2 > 0 {
            assert s[i - 1] == b[i - |a| - 3];
          }
        }
      }
      forall i | 0 <= i < |s| && s[i] == '\r'
        ensures i + 1 < |s| && s[i + 1] == '\n'
      {
        if i > |a| + 1 {
          assert s[i] == b[i - |a| - 2];
          assert s[i + 1] == b[i - |a| - 1];
        }
      }
    }
  }

  /** The conversion as the detected source ending followed by ConvertTo. */
  function Applied(text: string, to: LineEnding): (r: Result<string, EolError>)
    ensures '\r' !in text && '\n' !in text ==> r == Failure(NoLineEndings)
  {
    DetectFailsIffNoBreaks(text);
    match Detected(text)
    case Failure(e) => Failure(e)
    case Success(from) => Converted(text, from, to)
  }

  /** Go's Apply: detect the text's ending and convert from it, passing on a detection error. */
  method Apply(to: LineEnding, text: string) returns (r: Result<string, EolError>)
    ensures r == Applied(text, to)
  {
    var from := Detect(text);
    if from.Failure? {
      return Failure(from.error);
    }
    r := ConvertTo(from.value, text, to);
  }

  /** Windows lines become Unix lines (or any other valid ending) under Apply. */
  lemma ApplyToWindowsText(lines: seq<string>, to: LineEnding)
    requires |lines| >= 2 && IsValid(to)
    requires forall i | 0 <= i < |lines| :: BreakFree(lines[i])
    ensures Applied(Join(lines, "\r\n"), to) == Success(Join(lines, EndingString(to)))
  {
    JoinCrlfOnly(lines);
    DetectWindows(Join(lines, "\r\n"));
    ConvertJoined(lines, CRLF, to);
  }

  /** Lines joined with any valid ending become the same lines joined with the requested ending under Apply. */
  lemma ApplyToJoinedText(lines: seq<string>, from: LineEnding, to: LineEnding)
    requires |lines| >= 2 && IsValid(from) && IsValid(to)
    requires forall i | 0 <= i < |lines| :: BreakFree(lines[i])
    ensures Applied(Join(lines, EndingString(from)), to) == Success(Join(lines, EndingString(to)))
  {
    var text := Join(lines, EndingString(from));
    if from == CRLF {
      ApplyToWindowsText(lines, to);
    } else {
      JoinHasSep(lines, EndingString(from));
      if from == LF {
        JoinFreeOf(lines, "\n", '\r');
        DetectUnix(text);
      } else {
        JoinFreeOf(lines, "\r", '\n');
        DetectMac(text);
      }
      ConvertJoined(lines, from, to);
    }
  }
}
