/**
 * The legacy TypeScript server-config store (src/ini.ts): the line loop that
 * reads the file into an object of `{comments, value}` entries, the text the
 * save writes, the validity test and the reading of a `;`-separated list.
 * The object is a sequence of properties in insertion order, each key once.
 * `Number(...)` and the printing of numbers are one parameter, `number`.
 */
module LegacyIni {
  import opened Wrappers
  import opened Slices
  import opened Text

  /** The characters String.prototype.trim removes: ECMAScript WhiteSpace and LineTerminator. */
  const JsSpaceChars: set<char> := {
    '\t', '\U{B}', '\U{C}', ' ', '\U{A0}', '\U{FEFF}', '\U{1680}',
    '\U{2000}', '\U{2001}', '\U{2002}', '\U{2003}', '\U{2004}', '\U{2005}',
    '\U{2006}', '\U{2007}', '\U{2008}', '\U{2009}', '\U{200A}',
    '\U{202F}', '\U{205F}', '\U{3000}',
    '\n', '\r', '\U{2028}', '\U{2029}'}

  predicate IsJsSpace(c: char) {
    c in JsSpaceChars
  }

  /** String.prototype.trim. */
  function JsTrim(s: string): string {
    TrimBy(s, IsJsSpace)
  }

  /**
   * String.prototype.toLowerCase as far as comparing with "true" and "false" goes:
   * only ASCII capitals lower-case to the letters of those two words.
   */
  function LowerAscii(s: string): (r: string)
    ensures |r| == |s|
  {
    seq(|s|, i requires 0 <= i < |s| => if 'A' <= s[i] <= 'Z' then (s[i] as int + 32) as char else s[i])
  }

  /** A value as parseValue leaves it; a number is kept as the text it prints as. */
  datatype Value = Str(text: string) | Bool(flag: bool) | Num(shown: string)

  /** `Number(text)` when that is not NaN, given as the text the number prints as. */
  type NumberParse = string -> Option<string>

  /** parseValue: booleans in any case, then blank text, then numbers, then the text itself. */
  function ParseValue(value: string, number: NumberParse): Value {
    var lower := LowerAscii(value);
    if lower == "true" then Bool(true)
    else if lower == "false" then Bool(false)
    else if JsTrim(value) == "" then Str("")
    else match number(value)
      case Some(shown) => Num(shown)
      case None => Str(value)
  }

  /** A text whose lower-cased form is "true" or "false" starts with a letter, so it is not blank. */
  lemma WordNotBlank(value: string)
    requires LowerAscii(value) == "true" || LowerAscii(value) == "false"
    ensures JsTrim(value) != ""
  {
    assert LowerAscii(value)[0] == 't' || LowerAscii(value)[0] == 'f';
    assert !IsJsSpace(value[0]);
    TrimByKeepsFirst(value, IsJsSpace);
  }

  /** A text ending in a character trim keeps is not blank. */
  lemma EndKeptNotBlank(s: string)
    requires s != [] && !IsJsSpace(s[|s| - 1])
    ensures JsTrim(s) != ""
  {
    var a := SkipForward(s, 0, IsJsSpace);
    assert a < |s|;
    assert SkipBackward(s, a, |s|, IsJsSpace) == |s|;
  }

  /**
   * "true" and "false" in any letter case become booleans and nothing else does;
   * blank text becomes the empty string; any other string value is the text
   * unchanged, which `number` does not accept.
   */
  lemma ParseValueCases(value: string, number: NumberParse)
    ensures ParseValue(value, number) == Bool(true) <==> LowerAscii(value) == "true"
    ensures ParseValue(value, number) == Bool(false) <==> LowerAscii(value) == "false"
    ensures JsTrim(value) == "" ==> ParseValue(value, number) == Str("")
    ensures ParseValue(value, number).Str? && JsTrim(value) != "" ==>
      ParseValue(value, number) == Str(value) && number(value).None?
  {
    if LowerAscii(value) == "true" || LowerAscii(value) == "false" {
      WordNotBlank(value);
    }
  }

  /** The text `${value}` prints for a value. */
  function Render(v: Value): string {
    match v
    case Str(text) => text
    case Bool(flag) => if flag then "true" else "false"
    case Num(shown) => shown
  }

  datatype Entry = Entry(comments: seq<string>, value: Value)

  datatype Property = Property(key: string, entry: Entry)

  /** The config object: its own properties in insertion order. */
  type ServerConfig = seq<Property>

  function Keys(c: ServerConfig): (keys: seq<string>)
    ensures |keys| == |c|
  {
    seq(|c|, i requires 0 <= i < |c| => c[i].key)
  }

  /** `config[key]`. */
  function Lookup(c: ServerConfig, key: string): Option<Entry> {
    var i := FirstIndexOf(Keys(c), key);
    if i < 0 then None else Some(c[i].entry)
  }

  /** `config[key] = entry`: an existing property keeps its place, a new one goes last. */
  function Put(c: ServerConfig, key: string, e: Entry): ServerConfig {
    var i := FirstIndexOf(Keys(c), key);
    if i < 0 then c + [Property(key, e)] else c[i := Property(key, e)]
  }

  /** After a put the key holds the new entry, every other key its old one, and only a new key grows the key list. */
  lemma PutLookup(c: ServerConfig, key: string, e: Entry, other: string)
    ensures Lookup(Put(c, key, e), key) == Some(e)
    ensures other != key ==> Lookup(Put(c, key, e), other) == Lookup(c, other)
    ensures Keys(Put(c, key, e)) == if key in Keys(c) then Keys(c) else Keys(c) + [key]
  {
    var i := FirstIndexOf(Keys(c), key);
    var r := Put(c, key, e);
    if i < 0 {
      assert Keys(r) == Keys(c) + [key];
      FirstIndexOfAt(Keys(r), key, |c|);
      if other != key {
        var j := FirstIndexOf(Keys(c), other);
        if j >= 0 {
          assert Keys(r)[..j] == Keys(c)[..j];
          FirstIndexOfAt(Keys(r), other, j);
        } else {
          assert other !in Keys(r);
        }
      }
    } else {
      assert Keys(r) == Keys(c);
    }
  }

  /** A put keeps the keys distinct. */
  lemma PutKeepsDistinct(c: ServerConfig, key: string, e: Entry)
    requires NoDuplicates(Keys(c))
    ensures NoDuplicates(Keys(Put(c, key, e)))
  {
    PutLookup(c, key, e, key);
  }

  /** `config.hasOwnProperty(key)`. */
  predicate Has(c: ServerConfig, key: string) {
    key in Keys(c)
  }

  lemma LookupHas(c: ServerConfig, key: string)
    ensures Lookup(c, key).Some? <==> Has(c, key)
  {
  }

  /** isValidServerConfig. */
  predicate IsValidServerConfig(c: ServerConfig) {
    Has(c, "PublicName") && Has(c, "Mods") && Has(c, "WorkshopItems")
  }

  /** The read loop's state: the object so far and the comments waiting for the next key line. */
  datatype ReadState = ReadState(config: ServerConfig, comments: seq<string>)

  /** The key of a trimmed key line: the text before its first `=`. */
  function KeyOf(trimmed: string): string {
    Split(trimmed, "=")[0]
  }

  /** The value text of a trimmed key line: the pieces after the first `=` joined again with `=`. */
  function ValueTextOf(trimmed: string): string {
    Join(Split(trimmed, "=")[1..], "=")
  }

  /** One pass of the loop body: skip a blank line, collect a comment line as it is, or store a key line. */
  function ReadLine(st: ReadState, line: string, number: NumberParse): ReadState {
    var trimmed := JsTrim(line);
    if trimmed == "" then st
    else if HasPrefix(trimmed, "#") then ReadState(st.config, st.comments + [line])
    else ReadState(Put(st.config, KeyOf(trimmed), Entry(st.comments, ParseValue(ValueTextOf(trimmed), number))), [])
  }

  /** The loop run over `lines` from state `st`. */
  function ReadFrom(st: ReadState, lines: seq<string>, number: NumberParse): ReadState
    decreases |lines|
  {
    if lines == [] then st
    else ReadLine(ReadFrom(st, lines[..|lines| - 1], number), lines[|lines| - 1], number)
  }

  /** readServerConfig after the file is read: an empty file and a config lacking a required key are errors. */
  function ReadConfig(file: string, eol: string, number: NumberParse): Result<ServerConfig, string>
    requires |eol| > 0
  {
    if file == [] then Failure("File is empty")
    else
      var config := ReadFrom(ReadState([], []), Split(file, eol), number).config;
      if !IsValidServerConfig(config) then Failure("Invalid server config") else Success(config)
  }

  /** A successful read is a valid config, and each error says why it was refused. */
  lemma ReadConfigOutcome(file: string, eol: string, number: NumberParse)
    requires |eol| > 0
    ensures ReadConfig(file, eol, number).Success? ==> IsValidServerConfig(ReadConfig(file, eol, number).value)
    ensures ReadConfig(file, eol, number) == Failure("File is empty") <==> file == []
    ensures ReadConfig(file, eol, number) == Failure("Invalid server config") <==>
      file != [] && !IsValidServerConfig(ReadFrom(ReadState([], []), Split(file, eol), number).config)
  {
  }

  /** The read loop of readServerConfig, with the file's text and os.EOL as inputs. */
  method ReadServerConfig(file: string, eol: string, number: NumberParse) returns (r: Result<ServerConfig, string>)
    requires |eol| > 0
    ensures r == ReadConfig(file, eol, number)
  {
    if |file| == 0 {
      return Failure("File is empty");
    }
    var lines := Split(file, eol);
    var config: ServerConfig := [];
    var comments: seq<string> := [];
    for i := 0 to |lines|
      invariant ReadState(config, comments) == ReadFrom(ReadState([], []), lines[..i], number)
    {
      assert lines[..i + 1][..i] == lines[..i];
      var line := lines[i];
      var trimmed := JsTrim(line);
      if |trimmed| == 0 {
      } else if HasPrefix(trimmed, "#") {
        comments := comments + [line];
      } else {
        var parts := Split(trimmed, "=");
        var key := parts[0];
        config := Put(config, key, Entry(comments, ParseValue(Join(parts[1..], "="), number)));
        comments := [];
      }
    }
    assert lines[..|lines|] == lines;
    if !IsValidServerConfig(config) {
      return Failure("Invalid server config");
    }
    return Success(config);
  }

  /** Running the loop over two runs of lines is running it over the first, then the second. */
  lemma {:induction false} ReadFromConcat(st: ReadState, a: seq<string>, b: seq<string>, number: NumberParse)
    ensures ReadFrom(st, a + b, number) == ReadFrom(ReadFrom(st, a, number), b, number)
    decreases |b|
  {
    if b == [] {
      assert a + b == a;
    } else {
      ReadFromConcat(st, a, b[..|b| - 1], number);
      assert (a + b)[..|a + b| - 1] == a + b[..|b| - 1];
    }
  }

  /** The key is the text before the first `=` and the value the text after it; a line without `=` is all key. */
  lemma KeyValueSplit(t: string)
    ensures '=' in t ==> KeyOf(t) + "=" + ValueTextOf(t) == t && '=' !in KeyOf(t)
    ensures '=' !in t ==> KeyOf(t) == t && ValueTextOf(t) == ""
  {
    if '=' in t {
      var i := FirstIndexOf(t, '=');
      assert t == t[..i] + "=" + t[i + 1..];
      KeyLine(t[..i], t[i + 1..]);
    } else {
      SplitPlain(t, "=");
    }
  }

  /** A line `key=rest` with no `=` in the key has that key and that value text. */
  lemma KeyLine(key: string, rest: string)
    requires '=' !in key
    ensures KeyOf(key + "=" + rest) == key && ValueTextOf(key + "=" + rest) == rest
  {
    SplitAfterPlain(key, "=", rest);
    assert Split(key + "=" + rest, "=")[1..] == Split(rest, "=");
    JoinSplit(rest, "=");
  }

  /** A line that is neither blank nor a comment. */
  predicate IsKeyLine(line: string) {
    JsTrim(line) != "" && !HasPrefix(JsTrim(line), "#")
  }

  /** A line the loop keeps as a comment. */
  predicate IsCommentLine(line: string) {
    JsTrim(line) != "" && HasPrefix(JsTrim(line), "#")
  }

  /**
   * A key line takes the comments collected since the last key line and clears
   * them; the key holds its new entry, a repeated key replaces the old entry in
   * its old place, and the other keys are untouched.
   */
  lemma KeyLineRead(st: ReadState, line: string, number: NumberParse, other: string)
    requires IsKeyLine(line)
    ensures var key := KeyOf(JsTrim(line));
      var after := ReadLine(st, line, number);
      after.comments == [] &&
      Lookup(after.config, key) == Some(Entry(st.comments, ParseValue(ValueTextOf(JsTrim(line)), number))) &&
      (other != key ==> Lookup(after.config, other) == Lookup(st.config, other)) &&
      Keys(after.config) == if key in Keys(st.config) then Keys(st.config) else Keys(st.config) + [key]
  {
    var trimmed := JsTrim(line);
    PutLookup(st.config, KeyOf(trimmed), Entry(st.comments, ParseValue(ValueTextOf(trimmed), number)), other);
  }

  /** Blank lines are skipped and comment lines are queued as written, in order, leaving the object alone. */
  lemma {:induction false} CommentsGathered(st: ReadState, lines: seq<string>, number: NumberParse)
    requires forall i | 0 <= i < |lines| :: !IsKeyLine(lines[i])
    ensures ReadFrom(st, lines, number) == ReadState(st.config, st.comments + Filtered(lines, IsCommentLine))
    decreases |lines|
  {
    if lines != [] {
      var init := lines[..|lines| - 1];
      CommentsGathered(st, init, number);
      assert lines == init + [lines[|lines| - 1]];
      FilteredConcat(init, [lines[|lines| - 1]], IsCommentLine);
    }
  }

  /** `comment.replace(new RegExp(EOL + '$'), '')`: one line ending at the very end is dropped. */
  function StripEol(comment: string, eol: string): string {
    if |eol| <= |comment| && comment[|comment| - |eol|..] == eol then comment[..|comment| - |eol|] else comment
  }

  /** The comments as the save writes them. */
  function Stripped(comments: seq<string>, eol: string): seq<string> {
    seq(|comments|, i requires 0 <= i < |comments| => StripEol(comments[i], eol))
  }

  /** The save lines of one property: its comments, `key=value`, then the line ending as a line of its own. */
  function SaveBlock(p: Property, eol: string): seq<string> {
    Stripped(p.entry.comments, eol) + [p.key + "=" + Render(p.entry.value), eol]
  }

  function SaveLines(c: ServerConfig, eol: string): seq<string> {
    if c == [] then [] else SaveBlock(c[0], eol) + SaveLines(c[1..], eol)
  }

  /** The text saveServerConfig writes. */
  function SaveText(c: ServerConfig, eol: string): string {
    Join(SaveLines(c, eol), eol)
  }

  /** os.EOL. */
  predicate IsOsEol(eol: string) {
    eol == "\n" || eol == "\r\n"
  }

  /** A key line `key=text` that trim leaves alone, that is not a comment, and whose key is all before the first `=`. */
  predicate KeyLineKept(key: string, text: string) {
    '=' !in key &&
    (key == [] || (!IsJsSpace(key[0]) && key[0] != '#')) &&
    (text == [] || !IsJsSpace(text[|text| - 1]))
  }

  /** Comment lines the read loop keeps as comments and that the split on the line ending leaves whole. */
  predicate CommentsKept(comments: seq<string>, eol: string)
    requires |eol| > 0
  {
    forall i | 0 <= i < |comments| :: IsCommentLine(comments[i]) && eol[0] !in comments[i]
  }

  /** A property the save writes so that the read loop gives it back. */
  predicate SavesCleanly(p: Property, eol: string, number: NumberParse)
    requires |eol| > 0
  {
    KeyLineKept(p.key, Render(p.entry.value)) &&
    eol[0] !in p.key + "=" + Render(p.entry.value) &&
    ParseValue(Render(p.entry.value), number) == p.entry.value &&
    CommentsKept(p.entry.comments, eol)
  }

  /** A config whose keys are distinct and whose every property saves cleanly. */
  predicate SavesAll(c: ServerConfig, eol: string, number: NumberParse)
    requires |eol| > 0
  {
    NoDuplicates(Keys(c)) && forall i | 0 <= i < |c| :: SavesCleanly(c[i], eol, number)
  }

  lemma SavesAllTail(c: ServerConfig, eol: string, number: NumberParse)
    requires |eol| > 0 && SavesAll(c, eol, number) && c != []
    ensures SavesCleanly(c[0], eol, number) && SavesAll(c[1..], eol, number)
  {
    forall i | 0 <= i < |c[1..]| ensures SavesCleanly(c[1..][i], eol, number) {
      assert c[1..][i] == c[i + 1];
    }
    assert Keys(c[1..]) == Keys(c)[1..];
  }

  /** The lines of one property as the read loop meets them after the split: the lone EOL becomes two empty lines. */
  function FileBlock(p: Property): seq<string> {
    p.entry.comments + [p.key + "=" + Render(p.entry.value), "", ""]
  }

  function FileLines(c: ServerConfig): seq<string> {
    if c == [] then [] else FileBlock(c[0]) + FileLines(c[1..])
  }

  /** No line holds the character `ch`. */
  predicate LinesFree(lines: seq<string>, ch: char) {
    forall i | 0 <= i < |lines| :: ch !in lines[i]
  }

  /** Joined with EOL, a lone EOL line reads as two empty lines. */
  lemma EolLineJoin(comments: seq<string>, line: string, eol: string)
    ensures Join(comments + [line, eol], eol) == Join(comments + [line, "", ""], eol)
  {
    var head := comments + [line];
    assert comments + [line, eol] == head + [eol];
    assert comments + [line, "", ""] == head + ["", ""];
    JoinAppend(head, [eol], eol);
    JoinAppend(head, ["", ""], eol);
    var e: string := [];
    assert ["", ""][1..] == [e];
    assert Join(["", ""], eol) == e + eol + e;
    assert e + eol + e == eol;
  }

  /** A comment without the line ending's first character is saved as it is. */
  lemma StrippedComments(comments: seq<string>, eol: string)
    requires |eol| > 0
    requires LinesFree(comments, eol[0])
    ensures Stripped(comments, eol) == comments
  {
    var stripped := Stripped(comments, eol);
    forall i | 0 <= i < |comments| ensures stripped[i] == comments[i] {
      var c := comments[i];
      if |eol| <= |c| {
        assert c[|c| - |eol|..][0] == c[|c| - |eol|];
      }
    }
  }

  /** The save lines and the file lines of one property join to the same text. */
  lemma SaveBlockJoin(p: Property, eol: string)
    requires |eol| > 0
    requires LinesFree(p.entry.comments, eol[0])
    ensures Join(SaveBlock(p, eol), eol) == Join(FileBlock(p), eol)
  {
    StrippedComments(p.entry.comments, eol);
    EolLineJoin(p.entry.comments, p.key + "=" + Render(p.entry.value), eol);
  }

  /** The save text is the join of the file lines. */
  lemma {:induction false} SaveTextLines(c: ServerConfig, eol: string)
    requires |eol| > 0
    requires forall i | 0 <= i < |c| :: LinesFree(c[i].entry.comments, eol[0])
    ensures SaveText(c, eol) == Join(FileLines(c), eol)
    decreases |c|
  {
    if c != [] {
      SaveBlockJoin(c[0], eol);
      assert forall i | 0 <= i < |c[1..]| :: c[1..][i] == c[i + 1];
      SaveTextLines(c[1..], eol);
      if c[1..] != [] {
        JoinAppend(SaveBlock(c[0], eol), SaveLines(c[1..], eol), eol);
        JoinAppend(FileBlock(c[0]), FileLines(c[1..]), eol);
      } else {
        assert SaveLines(c[1..], eol) == [] && FileLines(c[1..]) == [];
        assert SaveLines(c, eol) == SaveBlock(c[0], eol) + [] == SaveBlock(c[0], eol);
        assert FileLines(c) == FileBlock(c[0]) + [] == FileBlock(c[0]);
      }
    }
  }

  lemma LinesFreeConcat(a: seq<string>, b: seq<string>, ch: char)
    requires LinesFree(a, ch) && LinesFree(b, ch)
    ensures LinesFree(a + b, ch)
  {
    forall i | 0 <= i < |a + b| ensures ch !in (a + b)[i] {
      if i >= |a| {
        assert (a + b)[i] == b[i - |a|];
      }
    }
  }

  /** No file line of a cleanly saved config holds the first character of the line ending. */
  lemma {:induction false} FileLinesFree(c: ServerConfig, eol: string, number: NumberParse)
    requires |eol| > 0 && SavesAll(c, eol, number)
    ensures LinesFree(FileLines(c), eol[0])
    decreases |c|
  {
    if c != [] {
      SavesAllTail(c, eol, number);
      FileLinesFree(c[1..], eol, number);
      var comments := c[0].entry.comments;
      LinesFreeConcat(comments, [c[0].key + "=" + Render(c[0].entry.value), "", ""], eol[0]);
      LinesFreeConcat(FileBlock(c[0]), FileLines(c[1..]), eol[0]);
    }
  }

  /** A kept key line stores its value under its key with the pending comments, and clears them. */
  lemma KeyLineReads(st: ReadState, key: string, text: string, number: NumberParse)
    requires KeyLineKept(key, text)
    ensures ReadLine(st, key + "=" + text, number) ==
      ReadState(Put(st.config, key, Entry(st.comments, ParseValue(text, number))), [])
  {
    var line := key + "=" + text;
    assert line[|key|] == '=';
    TrimByUnchanged(line, IsJsSpace);
    KeyLine(key, text);
  }

  lemma OneLineRead(st: ReadState, line: string, number: NumberParse)
    ensures ReadFrom(st, [line], number) == ReadLine(st, line, number)
  {
    assert [line][..0] == [];
  }

  lemma BlankPairSkipped(st: ReadState, number: NumberParse)
    ensures ReadFrom(st, ["", ""], number) == st
  {
    assert ["", ""][..1] == [""];
    assert ["", ""][..1][..0] == [];
    assert JsTrim("") == "";
  }

  /** Comment lines are queued as written and the object is left alone. */
  lemma CommentsQueued(config: ServerConfig, comments: seq<string>, number: NumberParse)
    requires forall i | 0 <= i < |comments| :: IsCommentLine(comments[i])
    ensures ReadFrom(ReadState(config, []), comments, number) == ReadState(config, comments)
  {
    CommentsGathered(ReadState(config, []), comments, number);
    assert forall x | x in comments :: IsCommentLine(x);
    FilteredAllPass(comments, IsCommentLine);
    assert [] + comments == comments;
  }

  /** A kept key line whose value text parses to `v` stores `v` with the queued comments. */
  lemma KeyLineStored(queued: ReadState, key: string, text: string, v: Value, number: NumberParse)
    requires KeyLineKept(key, text) && ParseValue(text, number) == v
    ensures ReadFrom(queued, [key + "=" + text], number) == ReadState(Put(queued.config, key, Entry(queued.comments, v)), [])
  {
    OneLineRead(queued, key + "=" + text, number);
    KeyLineReads(queued, key, text, number);
  }

  /** Comments then a kept key line: the key is stored with those comments and nothing stays queued. */
  lemma CommentsThenKey(config: ServerConfig, comments: seq<string>, key: string, text: string, v: Value, number: NumberParse)
    requires forall i | 0 <= i < |comments| :: IsCommentLine(comments[i])
    requires KeyLineKept(key, text) && ParseValue(text, number) == v
    ensures ReadFrom(ReadState(config, []), comments + [key + "=" + text], number) ==
      ReadState(Put(config, key, Entry(comments, v)), [])
  {
    CommentsQueued(config, comments, number);
    KeyLineStored(ReadState(config, comments), key, text, v, number);
    ReadFromConcat(ReadState(config, []), comments, [key + "=" + text], number);
  }

  /** Two trailing blank lines change nothing. */
  lemma BlankPairAfter(st: ReadState, lines: seq<string>, number: NumberParse)
    ensures ReadFrom(st, lines + ["", ""], number) == ReadFrom(st, lines, number)
  {
    ReadFromConcat(st, lines, ["", ""], number);
    BlankPairSkipped(ReadFrom(st, lines, number), number);
  }

  /** The read loop turns the file lines of one cleanly saved property back into that property. */
  lemma ReadBlock(config: ServerConfig, p: Property, eol: string, number: NumberParse)
    requires |eol| > 0 && SavesCleanly(p, eol, number)
    ensures ReadFrom(ReadState(config, []), FileBlock(p), number) == ReadState(Put(config, p.key, p.entry), [])
  {
    var line := p.key + "=" + Render(p.entry.value);
    CommentsThenKey(config, p.entry.comments, p.key, Render(p.entry.value), p.entry.value, number);
    BlankPairAfter(ReadState(config, []), p.entry.comments + [line], number);
    assert FileBlock(p) == p.entry.comments + [line] + ["", ""];
    assert Entry(p.entry.comments, p.entry.value) == p.entry;
  }

  /** Appending a property under a new key is a put. */
  lemma PutNewKey(config: ServerConfig, key: string, e: Entry)
    requires key !in Keys(config)
    ensures Put(config, key, e) == config + [Property(key, e)]
  {
  }

  /** After the first property is read, the rest of a config with distinct keys is still new to the object. */
  lemma KeysStayNew(config: ServerConfig, c: ServerConfig)
    requires c != [] && NoDuplicates(Keys(c))
    requires forall k | k in Keys(c) :: k !in Keys(config)
    ensures forall k | k in Keys(c[1..]) :: k !in Keys(config + [c[0]])
  {
    var next := config + [c[0]];
    assert Keys(next) == Keys(config) + [c[0].key];
    forall k | k in Keys(c[1..]) ensures k !in Keys(next) {
      var j :| 0 <= j < |c[1..]| && Keys(c[1..])[j] == k;
      assert Keys(c)[j + 1] == k;
      assert Keys(c)[0] != Keys(c)[j + 1];
    }
  }

  lemma HeadMoved(a: ServerConfig, c: ServerConfig)
    requires c != []
    ensures (a + [c[0]]) + c[1..] == a + c
  {
    assert c == [c[0]] + c[1..];
  }

  /** The read loop over the file lines of a cleanly saved config appends its properties in order. */
  lemma {:induction false} ReadFileLines(config: ServerConfig, c: ServerConfig, eol: string, number: NumberParse)
    requires |eol| > 0 && SavesAll(c, eol, number)
    requires forall k | k in Keys(c) :: k !in Keys(config)
    ensures ReadFrom(ReadState(config, []), FileLines(c), number) == ReadState(config + c, [])
    decreases |c|
  {
    if c == [] {
      assert config + c == config;
    } else {
      SavesAllTail(c, eol, number);
      var next := config + [c[0]];
      ReadBlock(config, c[0], eol, number);
      assert Keys(c)[0] == c[0].key;
      PutNewKey(config, c[0].key, c[0].entry);
      assert Property(c[0].key, c[0].entry) == c[0];
      KeysStayNew(config, c);
      ReadFileLines(next, c[1..], eol, number);
      ReadFromConcat(ReadState(config, []), FileBlock(c[0]), FileLines(c[1..]), number);
      HeadMoved(config, c);
    }
  }

  /** Reading back what the save wrote gives the same config, for a valid config that saves cleanly. */
  lemma SaveReadRoundTrip(c: ServerConfig, eol: string, number: NumberParse)
    requires IsOsEol(eol) && IsValidServerConfig(c) && SavesAll(c, eol, number)
    ensures ReadConfig(SaveText(c, eol), eol, number) == Success(c)
  {
    SavedTextSplits(c, eol, number);
    ReadFileLines([], c, eol, number);
    assert [] + c == c;
  }

  /** The save text of a non-empty, cleanly saved config is not empty and splits into its file lines. */
  lemma SavedTextSplits(c: ServerConfig, eol: string, number: NumberParse)
    requires |eol| > 0 && c != [] && SavesAll(c, eol, number)
    ensures SaveText(c, eol) != [] && Split(SaveText(c, eol), eol) == FileLines(c)
  {
    forall i | 0 <= i < |c| ensures LinesFree(c[i].entry.comments, eol[0]) {
      assert SavesCleanly(c[i], eol, number);
    }
    SaveTextLines(c, eol);
    FileLinesFree(c, eol, number);
    assert FileLines(c) == FileBlock(c[0]) + FileLines(c[1..]);
    SplitJoin(FileLines(c), eol);
    JoinHasSep(FileLines(c), eol);
  }

  /** Accepts the non-empty pieces. */
  function NonEmpty(id: string): bool {
    |id| > 0
  }

  /** getFromServerConfig as written: the value is split as a string, so a number or a boolean throws. */
  function GetFromServerConfigAsWritten(c: ServerConfig, key: string): Result<seq<string>, string> {
    match Lookup(c, key)
    case None => Failure("TypeError: the key is not in the config")
    case Some(e) =>
      match e.value
      case Str(text) => Success(Filtered(Split(text, ";"), NonEmpty))
      case _ => Failure("TypeError: value.split is not a function")
  }

  /** getFromServerConfig splitting the value's text form, as `${value}` prints it. */
  function GetFromServerConfig(c: ServerConfig, key: string): Result<seq<string>, string> {
    match Lookup(c, key)
    case None => Failure("TypeError: the key is not in the config")
    case Some(e) => Success(Filtered(Split(Render(e.value), ";"), NonEmpty))
  }

  /** The key is present and its value was read as a text, not as a number or a boolean. */
  predicate TextValued(c: ServerConfig, key: string) {
    Lookup(c, key).Some? && Lookup(c, key).value.value.Str?
  }

  /**
   * The reader as written fails exactly when the key is absent or its value was
   * read as a number or a boolean; where it succeeds it gives what the corrected
   * reader gives.
   */
  lemma AsWrittenReadAgrees(c: ServerConfig, key: string)
    ensures GetFromServerConfigAsWritten(c, key).Success? <==> TextValued(c, key)
    ensures TextValued(c, key) ==> GetFromServerConfigAsWritten(c, key) == GetFromServerConfig(c, key)
  {
  }

  /**
   * A present key reads as the `;`-separated pieces of its value with the empty
   * ones dropped, untrimmed and with repeats kept; an absent key throws.
   */
  lemma GetFromServerConfigPieces(c: ServerConfig, key: string, x: string)
    ensures GetFromServerConfig(c, key).Failure? <==> !Has(c, key)
    ensures GetFromServerConfig(c, key).Success? ==>
      (x in GetFromServerConfig(c, key).value <==> x != "" && x in Split(Render(Lookup(c, key).value.value), ";"))
  {
    if Has(c, key) {
      FilteredMembers(Split(Render(Lookup(c, key).value.value), ";"), NonEmpty, x);
    }
  }

  /** A list of IDs that `;`-joining and splitting give back unchanged. */
  predicate CleanList(ids: seq<string>) {
    forall i | 0 <= i < |ids| :: ids[i] != "" && ';' !in ids[i]
  }

  /** A list read from the config is clean: no empty ID and no `;` inside one. */
  lemma ReadListClean(c: ServerConfig, key: string)
    requires Has(c, key)
    ensures GetFromServerConfig(c, key).Success? && CleanList(GetFromServerConfig(c, key).value)
  {
    var pieces := Split(Render(Lookup(c, key).value.value), ";");
    SplitPiecesFree(Render(Lookup(c, key).value.value), ';');
    var ids := GetFromServerConfig(c, key).value;
    forall i | 0 <= i < |ids| ensures ids[i] != "" && ';' !in ids[i] {
      FilteredMembers(pieces, NonEmpty, ids[i]);
    }
  }

  /** Writing a list joined with `;` and reading it back gives the list, when its IDs are non-empty and hold no `;`. */
  lemma SetThenGet(c: ServerConfig, key: string, comments: seq<string>, ids: seq<string>)
    requires CleanList(ids)
    ensures GetFromServerConfig(Put(c, key, Entry(comments, Str(Join(ids, ";")))), key) == Success(ids)
  {
    PutLookup(c, key, Entry(comments, Str(Join(ids, ";"))), key);
    if ids == [] {
      assert Split("", ";") == [""];
      assert Filtered([""], NonEmpty) == Filtered([], NonEmpty) + [];
    } else {
      SplitJoin(ids, ";");
      assert forall x | x in ids :: NonEmpty(x);
      FilteredAllPass(ids, NonEmpty);
    }
  }

  /** `config[key].value = text`: the entry keeps its comments and its place. */
  function SetValue(c: ServerConfig, key: string, text: string): (r: ServerConfig)
    requires Has(c, key)
  {
    Put(c, key, Entry(Lookup(c, key).value.comments, Str(text)))
  }

  /** Setting a value changes that key's value alone: keys, comments and other entries stay. */
  lemma SetValueOnly(c: ServerConfig, key: string, text: string, other: string)
    requires Has(c, key)
    ensures Keys(SetValue(c, key, text)) == Keys(c)
    ensures Lookup(SetValue(c, key, text), key) == Some(Entry(Lookup(c, key).value.comments, Str(text)))
    ensures other != key ==> Lookup(SetValue(c, key, text), other) == Lookup(c, other)
  {
    PutLookup(c, key, Entry(Lookup(c, key).value.comments, Str(text)), other);
  }

  /** A non-blank text that `number` accepts, other than a boolean word, is read as that number. */
  lemma NumericValue(id: string, number: NumberParse)
    requires JsTrim(id) != "" && number(id).Some?
    requires LowerAscii(id) != "true" && LowerAscii(id) != "false"
    ensures ParseValue(id, number) == Num(number(id).value)
  {
  }

  /**
   * The defect: a key line holding one numeric ID, such as `WorkshopItems=2392709985`
   * for a server with a single Workshop item, is read as a number, and the
   * list read of that key throws instead of giving the ID.
   */
  lemma NumericListThrows(st: ReadState, key: string, id: string, number: NumberParse)
    requires KeyLineKept(key, id) && id != [] && ';' !in id
    requires LowerAscii(id) != "true" && LowerAscii(id) != "false"
    requires number(id) == Some(id)
    ensures var c := ReadLine(st, key + "=" + id, number).config;
      GetFromServerConfigAsWritten(c, key).Failure? &&
      GetFromServerConfig(c, key) == Success([id])
  {
    KeyLineReads(st, key, id, number);
    EndKeptNotBlank(id);
    NumericValue(id, number);
    PutLookup(st.config, key, Entry(st.comments, Num(id)), key);
    NumberListRead(Put(st.config, key, Entry(st.comments, Num(id))), key, id);
  }

  /** A list key whose value was read as a number: the read as written throws, the corrected one gives the ID. */
  lemma NumberListRead(c: ServerConfig, key: string, id: string)
    requires Lookup(c, key).Some? && Lookup(c, key).value.value == Num(id) && id != [] && ';' !in id
    ensures GetFromServerConfigAsWritten(c, key).Failure? && GetFromServerConfig(c, key) == Success([id])
  {
    SingleIdRead(id);
  }

  /** The text of one non-empty ID without `;` reads as the one-element list. */
  lemma SingleIdRead(id: string)
    requires id != [] && ';' !in id
    ensures Filtered(Split(id, ";"), NonEmpty) == [id]
  {
    SplitPlain(id, ";");
    assert forall x | x in [id] :: NonEmpty(x);
    FilteredAllPass([id], NonEmpty);
  }
}
