/**
 * Saving a configuration and reading it back (ini/ini.go String and FromString):
 * for well-formed entries the entries and the line ending come back unchanged,
 * and a configuration read from a file is itself well-formed.
 */
module IniRoundTrip {
  import opened Wrappers
  import opened Slices
  import opened Text
  import opened Eol
  import opened Ini

  /** A comment line as the reader keeps it: starts with '#', trimmed, on one line. */
  predicate WellFormedComment(c: string) {
    HasPrefix(c, "#") && Trimmed(c) && BreakFree(c)
  }

  /**
   * An entry that survives a save and a load: the key has no '=' and does not
   * start with '#', the value has no '#', both are trimmed, nothing contains a
   * line break, and every comment is a well-formed comment line.
   */
  predicate WellFormedKey(k: ConfigKey) {
    && CleanEntry(k)
    && !HasPrefix(k.key, "#")
    && BreakFree(k.key) && BreakFree(k.value)
    && forall i | 0 <= i < |k.comments| :: WellFormedComment(k.comments[i])
  }

  predicate WellFormed(keys: seq<ConfigKey>) {
    forall i | 0 <= i < |keys| :: WellFormedKey(keys[i])
  }

  /** The lines of the saved file: per entry its comments, its key line and an empty line. */
  function ConfigLines(keys: seq<ConfigKey>): (r: seq<string>)
    ensures keys != [] ==> |r| >= 2
  {
    if keys == [] then [] else keys[0].comments + [KeyLine(keys[0]), ""] + ConfigLines(keys[1..])
  }

  /** The saved text is the file's lines joined with the line ending. */
  lemma {:induction false} RenderLines(keys: seq<ConfigKey>, eol: string)
    ensures Render(keys, eol) == Join(ConfigLines(keys), eol)
    decreases |keys|
  {
    if keys != [] {
      var f := FormatKeys(keys, eol);
      var first := keys[0].comments + [KeyLine(keys[0]), ""];
      assert f[0] == Join(first, eol);
      assert f[1..] == FormatKeys(keys[1..], eol);
      if |keys| == 1 {
        assert ConfigLines(keys) == first + [];
        assert first + [] == first;
      } else {
        RenderLines(keys[1..], eol);
        JoinAppend(first, ConfigLines(keys[1..]), eol);
      }
    }
  }

  /** Every line of a well-formed configuration is free of line breaks. */
  lemma {:induction false} ConfigLinesBreakFree(keys: seq<ConfigKey>)
    requires WellFormed(keys)
    ensures forall i | 0 <= i < |ConfigLines(keys)| :: BreakFree(ConfigLines(keys)[i])
    decreases |keys|
  {
    if keys != [] {
      ConfigLinesBreakFree(keys[1..]);
      var k := keys[0];
      assert WellFormedKey(k);
      var l := KeyLine(k);
      assert BreakFree(l) by {
        assert l == k.key + "=" + k.value;
      }
      var a := k.comments + [l, ""];
      assert forall i | 0 <= i < |a| :: BreakFree(a[i]) by {
        forall i | 0 <= i < |a|
          ensures BreakFree(a[i])
        {
          if i < |k.comments| {
            assert WellFormedComment(k.comments[i]);
          }
        }
      }
      var r := ConfigLines(keys[1..]);
      assert ConfigLines(keys) == a + r;
      forall i | 0 <= i < |a + r|
        ensures BreakFree((a + r)[i])
      {
        if i >= |a| {
          assert (a + r)[i] == r[i - |a|];
        }
      }
    }
  }

  /** A well-formed comment line is collected as it is. */
  lemma ParseCommentLine(lines: seq<string>, pending: seq<string>, marked: bool)
    requires lines != [] && WellFormedComment(lines[0])
    ensures ParseFrom(lines, pending, marked) == ParseFrom(lines[1..], pending + [lines[0]], marked)
  {
    TrimmedUnchanged(lines[0]);
  }

  /** Well-formed comment lines are collected as they are. */
  lemma {:induction false} ParseComments(cs: seq<string>, rest: seq<string>, pending: seq<string>, marked: bool)
    requires forall i | 0 <= i < |cs| :: WellFormedComment(cs[i])
    ensures ParseFrom(cs + rest, pending, marked) == ParseFrom(rest, pending + cs, marked)
    decreases |cs|
  {
    if cs == [] {
      assert cs + rest == rest;
      assert pending + cs == pending;
    } else {
      ParseFirstComment(cs, rest, pending, marked);
      ParseComments(cs[1..], rest, pending + [cs[0]], marked);
      AppendAssoc(pending, [cs[0]], cs[1..]);
      assert [cs[0]] + cs[1..] == cs;
    }
  }

  /** The first of several well-formed comment lines is collected. */
  lemma ParseFirstComment(cs: seq<string>, rest: seq<string>, pending: seq<string>, marked: bool)
    requires cs != [] && WellFormedComment(cs[0])
    ensures ParseFrom(cs + rest, pending, marked) == ParseFrom(cs[1..] + rest, pending + [cs[0]], marked)
  {
    assert (cs + rest)[0] == cs[0];
    assert (cs + rest)[1..] == cs[1..] + rest;
    ParseCommentLine(cs + rest, pending, marked);
  }

  /** The key line of a well-formed entry is trimmed, non-empty, not a comment, and holds '='. */
  lemma KeyLineShape(k: ConfigKey)
    requires WellFormedKey(k)
    ensures TrimSpace(KeyLine(k)) == KeyLine(k)
    ensures |KeyLine(k)| > 0 && !HasPrefix(KeyLine(k), "#") && '=' in KeyLine(k)
  {
    var l := KeyLine(k);
    assert l[|k.key|] == '=';
    if k.key != [] {
      assert l[0] == k.key[0];
    }
    if k.value != [] {
      assert l[|l| - 1] == k.value[|k.value| - 1];
    }
    TrimmedUnchanged(l);
  }

  /** Reading back the key line of a well-formed entry gives its key and value, in either reading. */
  lemma ParseKeyLine(k: ConfigKey, comments: seq<string>, marked: bool)
    requires WellFormedKey(k)
    ensures ParsedKey(KeyLine(k), comments, marked) == Some(ConfigKey(k.key, k.value, comments))
  {
    var l := KeyLine(k);
    assert l[..|k.key|] == k.key;
    FirstIndexOfAt(l, '=', |k.key|);
    assert l[|k.key| + 1..] == k.value;
    assert SplitOnce(l, '=') == [k.key, k.value];
    assert SplitOnce(k.value, '#') == [k.value];
    TrimmedUnchanged(k.key);
    TrimmedUnchanged(k.value);
  }

  /** A key line followed by an empty line is read as one entry, and the comments are cleared. */
  lemma ParseKeyThenBlank(lines: seq<string>, pending: seq<string>, k: ConfigKey, marked: bool)
    requires |lines| >= 2 && lines[1] == ""
    requires TrimSpace(lines[0]) == lines[0] && |lines[0]| > 0 && !HasPrefix(lines[0], "#") && '=' in lines[0]
    requires ParsedKey(lines[0], pending, marked) == Some(k)
    ensures ParseFrom(lines, pending, marked) == [k] + ParseFrom(lines[2..], [], marked)
  {
    var blank := lines[1..];
    assert ParseFrom(lines, pending, marked) == [k] + ParseFrom(blank, [], marked);
    assert TrimSpace(blank[0]) == [];
    assert blank[1..] == lines[2..];
  }

  /** The key line of a well-formed entry and the empty line after it are read as that entry. */
  lemma ParseKeyLines(k: ConfigKey, tail: seq<string>, marked: bool)
    requires WellFormedKey(k)
    ensures ParseFrom([KeyLine(k), ""] + tail, k.comments, marked) == [k] + ParseFrom(tail, [], marked)
  {
    var rest := [KeyLine(k), ""] + tail;
    KeyLineShape(k);
    ParseKeyLine(k, k.comments, marked);
    assert rest[0] == KeyLine(k) && rest[1] == "" && rest[2..] == tail;
    ParseKeyThenBlank(rest, k.comments, k, marked);
  }

  /** Reading the lines of a saved well-formed configuration gives its entries back, in either reading. */
  lemma {:induction false} ParseConfigLines(keys: seq<ConfigKey>, marked: bool)
    requires WellFormed(keys)
    ensures ParseFrom(ConfigLines(keys), [], marked) == keys
    decreases |keys|
  {
    if keys != [] {
      assert WellFormedKey(keys[0]);
      ParseEntryLines(keys[0], ConfigLines(keys[1..]), marked);
      ParseConfigLines(keys[1..], marked);
      assert [keys[0]] + keys[1..] == keys;
    }
  }

  /** The saved lines of one well-formed entry, its comments, key line and blank line, are read as that entry. */
  lemma ParseEntryLines(k: ConfigKey, tail: seq<string>, marked: bool)
    requires WellFormedKey(k)
    ensures ParseFrom(k.comments + [KeyLine(k), ""] + tail, [], marked) == [k] + ParseFrom(tail, [], marked)
  {
    var rest := [KeyLine(k), ""] + tail;
    AppendAssoc(k.comments, [KeyLine(k), ""], tail);
    ParseComments(k.comments, rest, [], marked);
    assert [] + k.comments == k.comments;
    ParseKeyLines(k, tail, marked);
  }

  /** A saved non-empty well-formed configuration is detected with the ending it was saved with. */
  lemma DetectRendered(keys: seq<ConfigKey>, le: LineEnding)
    requires WellFormed(keys) && keys != [] && IsValid(le)
    ensures Detected(Render(keys, EndingString(le))) == Success(le)
  {
    var lines := ConfigLines(keys);
    var eol := EndingString(le);
    RenderLines(keys, eol);
    ConfigLinesBreakFree(keys);
    if le == CRLF {
      JoinCrlfOnly(lines);
      DetectWindows(Join(lines, eol));
    } else if le == LF {
      JoinFreeOf(lines, eol, '\r');
      JoinHasSep(lines, eol);
      DetectUnix(Join(lines, eol));
    } else {
      JoinFreeOf(lines, eol, '\n');
      JoinHasSep(lines, eol);
      DetectMac(Join(lines, eol));
    }
  }

  /** A blank line is skipped. */
  lemma ParseBlankLine(lines: seq<string>, pending: seq<string>, marked: bool)
    requires lines != [] && TrimSpace(lines[0]) == []
    ensures ParseFrom(lines, pending, marked) == ParseFrom(lines[1..], pending, marked)
  {
  }

  /** An empty file has no entries. */
  lemma LoadEmpty(text: string, osDefault: LineEnding, marked: bool)
    requires IsValid(osDefault) && text == []
    ensures Loaded(text, osDefault, marked) == []
  {
    var empty := text;
    assert DetectedOr(empty, osDefault) == osDefault;
    var e := EndingString(osDefault);
    assert |e| > 0;
    SplitShort(empty, e);
    assert TrimSpace(empty) == empty;
    ParseBlankLine([empty], [], marked);
    assert [empty][1..] == [];
    assert Split(text, e) == [empty];
    assert Loaded(text, osDefault, marked) == ParseFrom([empty], [], marked);
  }

  /**
   * Save then load: a well-formed configuration saved with any valid ending is
   * read back into the same entries (by the source's reading and by the
   * corrected one), and a non-empty one with the same ending.
   */
  lemma SaveLoad(keys: seq<ConfigKey>, le: LineEnding, osDefault: LineEnding, marked: bool)
    requires WellFormed(keys) && IsValid(le) && IsValid(osDefault)
    ensures Loaded(Render(keys, EndingString(le)), osDefault, marked) == keys
    ensures keys != [] ==> DetectedOr(Render(keys, EndingString(le)), osDefault) == le
  {
    var eol := EndingString(le);
    var text := Render(keys, eol);
    RenderLines(keys, eol);
    if keys == [] {
      assert text == "";
      LoadEmpty(text, osDefault, marked);
    } else {
      DetectRendered(keys, le);
      ConfigLinesBreakFree(keys);
      SplitJoin(ConfigLines(keys), eol);
      ParseConfigLines(keys, marked);
    }
  }

  /**
   * The file text is stable under a load: saving what was read from a saved
   * well-formed configuration, with the ending the load picked, gives the same text.
   */
  lemma SaveLoadSave(keys: seq<ConfigKey>, le: LineEnding, osDefault: LineEnding, marked: bool)
    requires WellFormed(keys) && IsValid(le) && IsValid(osDefault)
    ensures
      var text := Render(keys, EndingString(le));
      Render(Loaded(text, osDefault, marked), EndingString(DetectedOr(text, osDefault))) == text
  {
    SaveLoad(keys, le, osDefault, marked);
  }

  /** A trimmed single-line text behind a '#' is a well-formed comment line. */
  lemma NoteWellFormed(t: string)
    requires Trimmed(t) && BreakFree(t)
    ensures WellFormedComment("#" + t)
  {
    var note := "#" + t;
    assert note[..1] == "#";
    if t != [] {
      assert note[|note| - 1] == t[|t| - 1];
    }
  }

  /** The key and value read from a trimmed, single-line key line survive a save. */
  lemma ParsedKeyHeadWellFormed(line: string, pending: seq<string>, marked: bool)
    requires Trimmed(line) && BreakFree(line) && '=' in line && !HasPrefix(line, "#")
    ensures var k := ParsedKey(line, pending, marked).value;
      && !HasPrefix(k.key, "#") && BreakFree(k.key) && BreakFree(k.value)
  {
    var parts := SplitOnce(line, '=');
    var before := parts[0];
    var after := parts[1];
    assert line == before + "=" + after;
    var key := TrimSpace(before);
    var valueParts := SplitOnce(after, '#');
    assert BreakFree(before) && BreakFree(after);
    assert after == valueParts[0] || after == valueParts[0] + "#" + valueParts[1];
    TrimSpaceFree(before, '\r');
    TrimSpaceFree(before, '\n');
    TrimSpaceFree(valueParts[0], '\r');
    TrimSpaceFree(valueParts[0], '\n');
    var k := ParsedKey(line, pending, marked).value;
    assert k.key == key && k.value == TrimSpace(valueParts[0]);
    KeyNotComment(line, before, after);
  }

  /** A key cut from the front of a trimmed line that is not a comment does not start with '#'. */
  lemma KeyNotComment(line: string, before: string, after: string)
    requires Trimmed(line) && !HasPrefix(line, "#") && line == before + "=" + after
    ensures !HasPrefix(TrimSpace(before), "#")
  {
    var key := TrimSpace(before);
    if key != [] {
      assert before != [];
      assert before[0] == line[0];
      TrimByKeepsFirst(before, IsSpace);
      assert line[..1] == [line[0]];
      assert key[..1] == [key[0]];
    }
  }

  /**
   * The comments of the entry the corrected reading builds from a single-line
   * key line are well-formed comment lines.
   */
  lemma ParsedKeyNotesWellFormed(line: string, pending: seq<string>)
    requires BreakFree(line) && '=' in line
    requires forall i | 0 <= i < |pending| :: WellFormedComment(pending[i])
    ensures var k := ParsedKey(line, pending, true).value;
      forall i | 0 <= i < |k.comments| :: WellFormedComment(k.comments[i])
  {
    var parts := SplitOnce(line, '=');
    var after := parts[1];
    assert line == parts[0] + "=" + after;
    var valueParts := SplitOnce(after, '#');
    assert BreakFree(after);
    var k := ParsedKey(line, pending, true).value;
    if |valueParts| > 1 {
      assert after == valueParts[0] + "#" + valueParts[1];
      var t := TrimSpace(valueParts[1]);
      TrimSpaceFree(valueParts[1], '\r');
      TrimSpaceFree(valueParts[1], '\n');
      assert k.comments == pending + ["#" + t];
      NoteWellFormed(t);
      forall i | 0 <= i < |k.comments|
        ensures WellFormedComment(k.comments[i])
      {
        if i < |pending| {
          assert k.comments[i] == pending[i];
        }
      }
    } else {
      assert k.comments == pending;
    }
  }

  /** The entry the corrected reading builds from a trimmed, single-line key line is well-formed. */
  lemma ParsedKeyWellFormed(line: string, pending: seq<string>)
    requires Trimmed(line) && BreakFree(line) && '=' in line && !HasPrefix(line, "#")
    requires forall i | 0 <= i < |pending| :: WellFormedComment(pending[i])
    ensures WellFormedKey(ParsedKey(line, pending, true).value)
  {
    ParsedKeyHeadWellFormed(line, pending, true);
    ParsedKeyNotesWellFormed(line, pending);
  }

  /** A well-formed entry in front of well-formed entries. */
  lemma WellFormedCons(k: ConfigKey, tail: seq<ConfigKey>)
    requires WellFormedKey(k) && WellFormed(tail)
    ensures WellFormed([k] + tail)
  {
    forall i | 0 <= i < |[k] + tail|
      ensures WellFormedKey(([k] + tail)[i])
    {
      if i > 0 {
        assert ([k] + tail)[i] == tail[i - 1];
      }
    }
  }

  /** A well-formed comment line after well-formed comment lines. */
  lemma CommentsSnoc(pending: seq<string>, c: string)
    requires forall i | 0 <= i < |pending| :: WellFormedComment(pending[i])
    requires WellFormedComment(c)
    ensures forall i | 0 <= i < |pending + [c]| :: WellFormedComment((pending + [c])[i])
  {
    forall i | 0 <= i < |pending + [c]|
      ensures WellFormedComment((pending + [c])[i])
    {
      if i < |pending| {
        assert (pending + [c])[i] == pending[i];
      }
    }
  }

  /** The lines after the first of single-line input are single-line input. */
  lemma BreakFreeTail(lines: seq<string>)
    requires lines != [] && forall i | 0 <= i < |lines| :: BreakFree(lines[i])
    ensures forall i | 0 <= i < |lines[1..]| :: BreakFree(lines[1..][i])
  {
    forall i | 0 <= i < |lines[1..]|
      ensures BreakFree(lines[1..][i])
    {
      assert lines[1..][i] == lines[i + 1];
    }
  }

  /** Whatever the corrected reading builds from single-line input is well-formed. */
  lemma {:induction false} ParseFromWellFormed(lines: seq<string>, pending: seq<string>)
    requires forall i | 0 <= i < |lines| :: BreakFree(lines[i])
    requires forall i | 0 <= i < |pending| :: WellFormedComment(pending[i])
    ensures WellFormed(ParseFrom(lines, pending, true))
    decreases |lines|
  {
    if lines != [] {
      var line := TrimSpace(lines[0]);
      var rest := lines[1..];
      BreakFreeTail(lines);
      assert BreakFree(lines[0]);
      TrimSpaceFree(lines[0], '\r');
      TrimSpaceFree(lines[0], '\n');
      if |line| == 0 {
        ParseFromWellFormed(rest, pending);
      } else if HasPrefix(line, "#") {
        CommentsSnoc(pending, line);
        ParseFromWellFormed(rest, pending + [line]);
      } else if '=' in line {
        ParsedKeyWellFormed(line, pending);
        ParseFromWellFormed(rest, []);
        WellFormedCons(ParsedKey(line, pending, true).value, ParseFrom(rest, [], true));
      } else {
        ParseFromWellFormed(rest, pending);
      }
    }
  }

  /**
   * Load, save, load with the corrected reading: reading single-line input,
   * saving it with any valid ending and reading it again gives the same entries.
   */
  lemma LoadSaveLoad(lines: seq<string>, le: LineEnding, osDefault: LineEnding)
    requires forall i | 0 <= i < |lines| :: BreakFree(lines[i])
    requires IsValid(le) && IsValid(osDefault)
    ensures
      var keys := ParseFrom(lines, [], true);
      Loaded(Render(keys, EndingString(le)), osDefault, true) == keys
  {
    ParseFromWellFormed(lines, []);
    SaveLoad(ParseFrom(lines, [], true), le, osDefault, true);
  }

  /** The two cuts of the line `a=1 #b=2`: at its first '=' and then at the next '#'. */
  lemma InlineCommentCuts(line: string)
    requires |line| == 8 && line[0] == 'a' && line[1] == '=' && line[2] == '1' && line[3] == ' '
    requires line[4] == '#' && line[5] == 'b' && line[6] == '=' && line[7] == '2'
    ensures SplitOnce(line, '=') == [line[..1], line[2..]]
    ensures SplitOnce(line[2..], '#') == [line[2..4], line[5..]]
  {
    FirstIndexOfAt(line, '=', 1);
    var after := line[2..];
    FirstIndexOfAt(after, '#', 2);
    assert after[..2] == line[2..4] && after[3..] == line[5..];
  }

  /** The trims of the pieces of the line `a=1 #b=2`. */
  lemma InlineCommentTrims(line: string)
    requires |line| == 8 && line[0] == 'a' && line[1] == '=' && line[2] == '1' && line[3] == ' '
    requires line[4] == '#' && line[5] == 'b' && line[6] == '=' && line[7] == '2'
    ensures TrimSpace(line[..1]) == line[..1]
    ensures TrimSpace(line[2..4]) == line[2..3]
    ensures TrimSpace(line[5..]) == line[5..]
  {
    var value := line[2..4];
    assert SkipForward(value, 0, IsSpace) == 0;
    assert SkipBackward(value, 0, 2, IsSpace) == 1;
    TrimmedUnchanged(line[..1]);
    TrimmedUnchanged(line[5..]);
  }

  /**
   * The source's reading of the line `a=1 #b=2` (written out character by
   * character): the inline comment is kept as the bare text `b=2`.
   */
  lemma InlineCommentAsWritten(line: string)
    requires |line| == 8 && line[0] == 'a' && line[1] == '=' && line[2] == '1' && line[3] == ' '
    requires line[4] == '#' && line[5] == 'b' && line[6] == '=' && line[7] == '2'
    ensures ParsedKey(line, [], false) == Some(ConfigKey(line[..1], line[2..3], [line[5..]]))
  {
    InlineCommentCuts(line);
    InlineCommentTrims(line);
    assert KeyValue(line[..1], line[2..]) == ConfigKey(line[..1], line[2..3], []);
  }

  /**
   * An entry whose one comment is a bare text containing '=' is not read back
   * from its saved lines: the comment line is read as an entry of its own.
   */
  lemma BareNoteNotRestored(k: ConfigKey, marked: bool)
    requires |k.comments| == 1 && k.comments[0] != [] && Trimmed(k.comments[0])
    requires !HasPrefix(k.comments[0], "#") && '=' in k.comments[0]
    ensures ParseFrom(ConfigLines([k]), [], marked) != [k]
  {
    var c := k.comments[0];
    var lines := ConfigLines([k]);
    var keys := [k];
    assert keys[1..] == [] && keys[0] == k;
    assert k.comments == [c];
    assert ConfigLines(keys[1..]) == [];
    assert lines == k.comments + [KeyLine(k), ""] + [];
    assert lines == [c, KeyLine(k), ""];
    TrimmedUnchanged(c);
    var r := ParseFrom(lines, [], marked);
    var first := ParsedKey(c, [], marked).value;
    assert r == [first] + ParseFrom(lines[1..], [], marked);
    assert first.comments != [c];
  }

  /** So the source's reading of `a=1 #b=2` does not survive a save and a load. */
  lemma InlineCommentNotRestored(line: string)
    requires |line| == 8 && line[0] == 'a' && line[1] == '=' && line[2] == '1' && line[3] == ' '
    requires line[4] == '#' && line[5] == 'b' && line[6] == '=' && line[7] == '2'
    ensures var k := ParsedKey(line, [], false).value; ParseFrom(ConfigLines([k]), [], false) != [k]
  {
    InlineCommentAsWritten(line);
    var note := line[5..];
    assert note[1] == '=';
    assert note[..1] != "#";
    BareNoteNotRestored(ParsedKey(line, [], false).value, false);
  }
}
