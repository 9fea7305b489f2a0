/**
 * The server configuration file (ini/ini.go): an ordered list of `Key=Value`
 * entries, each with the comment lines written above it, plus the line ending
 * the file uses.
 */
module Ini {
  import opened Wrappers
  import opened Slices
  import opened Text
  import opened Eol

  datatype ConfigKey = ConfigKey(key: string, value: string, comments: seq<string>)

  /** Position of the first entry named `key`, or -1 when there is none. */
  function KeyIndex(keys: seq<ConfigKey>, key: string): (r: int)
    ensures -1 <= r < |keys|
    ensures r == -1 <==> forall j | 0 <= j < |keys| :: keys[j].key != key
    ensures 0 <= r ==> keys[r].key == key && forall j | 0 <= j < r :: keys[j].key != key
  {
    if keys == [] then -1
    else if keys[0].key == key then 0
    else
      var r := KeyIndex(keys[1..], key);
      if r < 0 then -1 else r + 1
  }

  /** The value of the first entry named `key`, if any. */
  function Lookup(keys: seq<ConfigKey>, key: string): (r: Option<string>)
    ensures r.None? <==> forall j | 0 <= j < |keys| :: keys[j].key != key
    ensures r.Some? ==> r.value == keys[KeyIndex(keys, key)].value
  {
    var i := KeyIndex(keys, key);
    if i < 0 then None else Some(keys[i].value)
  }

  /**
   * The entries after setting `key` to `value`: the first entry with that key
   * gets the new value and keeps its place and comments; without one, a new
   * entry without comments goes at the end.
   */
  function Assign(keys: seq<ConfigKey>, key: string, value: string): (r: seq<ConfigKey>)
    ensures KeyIndex(keys, key) >= 0 ==>
      var i := KeyIndex(keys, key);
      && |r| == |keys|
      && r[i] == ConfigKey(key, value, keys[i].comments)
      && (forall j | 0 <= j < |keys| && j != i :: r[j] == keys[j])
    ensures KeyIndex(keys, key) < 0 ==> r == keys + [ConfigKey(key, value, [])]
  {
    var i := KeyIndex(keys, key);
    if i < 0 then keys + [ConfigKey(key, value, [])]
    else keys[i := keys[i].(value := value)]
  }

  /** After a Set, reading the key gives the value written. */
  lemma LookupAssign(keys: seq<ConfigKey>, key: string, value: string)
    ensures Lookup(Assign(keys, key, value), key) == Some(value)
  {
    var r := Assign(keys, key, value);
    if KeyIndex(keys, key) < 0 {
      assert r[|keys|].key == key;
      assert forall j | 0 <= j < |keys| :: r[j].key != key;
      assert KeyIndex(r, key) == |keys|;
    } else {
      assert KeyIndex(r, key) == KeyIndex(keys, key);
    }
  }

  /** A Set leaves every other key's value as it was. */
  lemma LookupAssignOther(keys: seq<ConfigKey>, key: string, value: string, other: string)
    requires other != key
    ensures Lookup(Assign(keys, key, value), other) == Lookup(keys, other)
  {
    var r := Assign(keys, key, value);
    var j := KeyIndex(keys, other);
    if j >= 0 {
      assert r[j].key == other;
      assert KeyIndex(r, other) == j;
    } else {
      assert KeyIndex(r, other) == -1;
    }
  }

  /** Setting a key twice to the same value is the same as setting it once. */
  lemma AssignIdempotent(keys: seq<ConfigKey>, key: string, value: string)
    ensures Assign(Assign(keys, key, value), key, value) == Assign(keys, key, value)
  {
    var r := Assign(keys, key, value);
    var i := KeyIndex(keys, key);
    if i < 0 {
      assert r[|keys|].key == key;
      assert forall j | 0 <= j < |keys| :: r[j].key != key;
      assert KeyIndex(r, key) == |keys|;
    } else {
      assert KeyIndex(r, key) == i;
    }
  }

  /** The `Key=Value` line of an entry. */
  function KeyLine(k: ConfigKey): string {
    k.key + "=" + k.value
  }

  /** One entry as text: its comment lines, then its `Key=Value` line, each ended by `eol`. */
  function FormatKey(k: ConfigKey, eol: string): (r: string)
    ensures r == Join(k.comments + [KeyLine(k), ""], eol)
  {
    JoinAppend(k.comments + [KeyLine(k)], [""], eol);
    assert k.comments + [KeyLine(k)] + [""] == k.comments + [KeyLine(k), ""];
    Join(k.comments + [KeyLine(k)], eol) + eol
  }

  /** All entries formatted, in order. */
  function FormatKeys(keys: seq<ConfigKey>, eol: string): (r: seq<string>)
    ensures |r| == |keys|
    ensures forall i | 0 <= i < |keys| :: r[i] == FormatKey(keys[i], eol)
  {
    seq(|keys|, i requires 0 <= i < |keys| => FormatKey(keys[i], eol))
  }

  /** The whole file: the formatted entries joined with `eol`. */
  function Render(keys: seq<ConfigKey>, eol: string): string {
    Join(FormatKeys(keys, eol), eol)
  }

  /** The key and value of an entry carry no '=' in the key and no '#' in the value, and are trimmed. */
  predicate CleanEntry(k: ConfigKey) {
    '=' !in k.key && Trimmed(k.key) && '#' !in k.value && Trimmed(k.value)
  }

  /** The trimmed key and value read from the two sides of the first '=' of a key line. */
  function KeyValue(before: string, after: string): (r: ConfigKey)
    requires '=' !in before
    ensures CleanEntry(r) && r.comments == []
    ensures r.key == TrimSpace(before) && r.value == TrimSpace(SplitOnce(after, '#')[0])
  {
    var valueParts := SplitOnce(after, '#');
    TrimSpaceFree(before, '=');
    TrimSpaceFree(valueParts[0], '#');
    ConfigKey(TrimSpace(before), TrimSpace(valueParts[0]), [])
  }

  /** `after` is `before` with one more comment line (starting with '#') at the end. */
  predicate NoteAdded(before: seq<string>, after: seq<string>) {
    |after| == |before| + 1 && after[..|before|] == before && HasPrefix(after[|before|], "#")
  }

  /**
   * One key line read into an entry, given the comments collected above it: the
   * key is the trimmed text before the first '='; the value is the trimmed text
   * between that '=' and the next '#'; the trimmed text after that '#' becomes a
   * last comment. The source keeps that comment as the bare text (`marked`
   * false); the corrected reading keeps it as a comment line starting with '#'
   * (`marked` true). None when the line has no '='.
   */
  function ParsedKey(line: string, comments: seq<string>, marked: bool): (r: Option<ConfigKey>)
    ensures r.None? <==> '=' !in line
    ensures r.Some? ==> CleanEntry(r.value)
    ensures r.Some? ==> |comments| <= |r.value.comments| <= |comments| + 1
    ensures r.Some? ==> r.value.comments[..|comments|] == comments
    ensures r.Some? && marked ==> r.value.comments == comments || NoteAdded(comments, r.value.comments)
    ensures '=' in line ==> r.Some? && r.value == KeyValue(SplitOnce(line, '=')[0], SplitOnce(line, '=')[1]).(comments := r.value.comments)
    ensures r.Some? && '=' in line ==> (|r.value.comments| == |comments| + 1 <==> '#' in SplitOnce(line, '=')[1])
    ensures r.Some? && '=' in line && '#' in SplitOnce(line, '=')[1] ==>
      r.value.comments[|comments|] == (if marked then "#" else "") + TrimSpace(SplitOnce(SplitOnce(line, '=')[1], '#')[1])
  {
    var parts := SplitOnce(line, '=');
    if |parts| != 2 then None
    else
      var kv := KeyValue(parts[0], parts[1]);
      var valueParts := SplitOnce(parts[1], '#');
      if |valueParts| > 1 then
        var text := TrimSpace(valueParts[1]);
        var note := if marked then "#" + text else text;
        assert (comments + [note])[..|comments|] == comments;
        Some(kv.(comments := comments + [note]))
      else
        Some(kv.(comments := comments))
  }

  /**
   * The entries read from `lines`, with `pending` the comments collected so far:
   * blank lines are skipped, '#' lines are collected, a line with '=' becomes an
   * entry carrying the collected comments (which are then cleared), and any other
   * line is dropped while the collected comments stay pending. `marked` chooses
   * how an inline comment is kept, as in ParsedKey; the source reads with `marked` false.
   */
  function ParseFrom(lines: seq<string>, pending: seq<string>, marked: bool): (r: seq<ConfigKey>)
    ensures |r| <= |lines|
  {
    if lines == [] then []
    else
      var line := TrimSpace(lines[0]);
      if |line| == 0 then ParseFrom(lines[1..], pending, marked)
      else if HasPrefix(line, "#") then ParseFrom(lines[1..], pending + [line], marked)
      else if '=' in line then
        [ParsedKey(line, pending, marked).value] + ParseFrom(lines[1..], [], marked)
      else ParseFrom(lines[1..], pending, marked)
  }

  /** The entries a text is read into, split on the line ending it uses most. */
  function Loaded(data: string, osDefault: LineEnding, marked: bool): seq<ConfigKey>
    requires IsValid(osDefault)
  {
    ParseFrom(Split(data, EndingString(DetectedOr(data, osDefault))), [], marked)
  }

  /** A server configuration held in memory (the file path is not modelled). */
  class ServerConfig {
    var eol: string
    var keys: seq<ConfigKey>

    constructor (eol: string)
      ensures this.eol == eol && keys == []
    {
      this.eol := eol;
      keys := [];
    }

    /** The first entry's value for `key`, and whether there is one; ("", false) otherwise. */
    method Get(key: string) returns (value: string, ok: bool)
      ensures ok <==> Lookup(keys, key).Some?
      ensures value == Lookup(keys, key).GetOr("")
      ensures !ok ==> value == ""
    {
      for i := 0 to |keys|
        invariant forall j | 0 <= j < i :: keys[j].key != key
      {
        if keys[i].key == key {
          return keys[i].value, true;
        }
      }
      return "", false;
    }

    /** The value for `key`, or `defaultValue` when no entry has that key. */
    method GetOrDefault(key: string, defaultValue: string) returns (value: string)
      ensures value == Lookup(keys, key).GetOr(defaultValue)
      ensures (forall j | 0 <= j < |keys| :: keys[j].key != key) ==> value == defaultValue
    {
      var v, ok := Get(key);
      if !ok {
        return defaultValue;
      }
      return v;
    }

    /** Overwrite the first entry's value for `key`, or add a new entry at the end. */
    method Set(key: string, value: string)
      modifies this
      ensures keys == Assign(old(keys), key, value)
      ensures eol == old(eol)
    {
      for i := 0 to |keys|
        invariant keys == old(keys) && eol == old(eol)
        invariant forall j | 0 <= j < i :: keys[j].key != key
      {
        if keys[i].key == key {
          keys := keys[i := keys[i].(value := value)];
          return;
        }
      }
      AddKey(key, value, []);
    }

    method Reset()
      modifies this
      ensures keys == [] && eol == old(eol)
    {
      keys := [];
    }

    method AddKey(key: string, value: string, comments: seq<string>)
      modifies this
      ensures keys == old(keys) + [ConfigKey(key, value, comments)]
      ensures eol == old(eol)
    {
      keys := keys + [ConfigKey(key, value, comments)];
    }

    /** Read one key line; a line without '=' adds nothing. */
    method ParseLine(line: string, comments: seq<string>)
      modifies this
      ensures ParsedKey(line, comments, false).Some? ==> keys == old(keys) + [ParsedKey(line, comments, false).value]
      ensures ParsedKey(line, comments, false).None? ==> keys == old(keys)
      ensures eol == old(eol)
    {
      var parts := SplitOnce(line, '=');
      if |parts| != 2 {
        return;
      }
      var key := TrimSpace(parts[0]);
      var valueParts := SplitOnce(parts[1], '#');
      var value := TrimSpace(valueParts[0]);
      var all := comments;
      if |valueParts| > 1 {
        all := all + [TrimSpace(valueParts[1])];
      }
      assert ConfigKey(key, value, all) == ParsedKey(line, comments, false).value;
      AddKey(key, value, all);
    }

    /** Read the lines of a file, appending an entry per key line. */
    method ParseLines(lines: seq<string>)
      modifies this
      ensures keys == old(keys) + ParseFrom(lines, [], false)
      ensures eol == old(eol)
    {
      var comments: seq<string> := [];
      assert lines[0..] == lines;
      for i := 0 to |lines|
        invariant keys + ParseFrom(lines[i..], comments, false) == old(keys) + ParseFrom(lines, [], false)
        invariant eol == old(eol)
      {
        var line := TrimSpace(lines[i]);
        ghost var rest := lines[i + 1..];
        assert lines[i..][0] == lines[i] && lines[i..][1..] == rest;
        if |line| == 0 {
          assert ParseFrom(lines[i..], comments, false) == ParseFrom(rest, comments, false);
          continue;
        }
        if HasPrefix(line, "#") {
          assert ParseFrom(lines[i..], comments, false) == ParseFrom(rest, comments + [line], false);
          comments := comments + [line];
          continue;
        }
        if '=' in line {
          var k := ParsedKey(line, comments, false).value;
          assert ParseFrom(lines[i..], comments, false) == [k] + ParseFrom(rest, [], false);
          ghost var before := keys;
          ParseLine(line, comments);
          AppendAssoc(before, [k], ParseFrom(rest, [], false));
          comments := [];
        } else {
          assert ParseFrom(lines[i..], comments, false) == ParseFrom(rest, comments, false);
        }
      }
    }

    /**
     * Replace the entries by those read from `data`; the line ending becomes the
     * one `data` uses most, or `osDefault` when it has none.
     */
    method FromString(data: string, osDefault: LineEnding)
      requires IsValid(osDefault)
      modifies this
      ensures eol == EndingString(DetectedOr(data, osDefault))
      ensures keys == Loaded(data, osDefault, false)
    {
      var le := DetectDefault(data, osDefault);
      eol := EndingString(le);
      var lines := Split(data, eol);
      Reset();
      ParseLines(lines);
    }

    /** The file text of the configuration. */
    method String() returns (s: string)
      ensures s == Render(keys, eol)
    {
      var lines: seq<string> := [];
      for i := 0 to |keys|
        invariant lines == FormatKeys(keys[..i], eol)
      {
        lines := lines + [FormatKey(keys[i], eol)];
      }
      assert keys[..|keys|] == keys;
      s := Join(lines, eol);
    }
  }
}
