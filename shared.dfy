/**
 * Reading the `;`-separated lists of the server configuration
 * (interactive/shared.go): the mod and item lists are split on `;`, each
 * non-empty piece is further split on `,` and trimmed, and the result is
 * deduplicated.
 */
module Shared {
  import opened Wrappers
  import opened Slices
  import opened Text
  import opened Ini

  /** The configuration keys holding the three lists. */
  const KeyMods := "Mods"
  const KeyItems := "WorkshopItems"
  const KeyMap := "Map"

  /** The stored value of `key`, or "" when there is no such entry. */
  function ValueOf(keys: seq<ConfigKey>, key: string): string {
    Lookup(keys, key).GetOr("")
  }

  /** The comma-separated pieces of `id`, each trimmed of white space. */
  function FixedSeparator(id: string): (r: seq<string>)
    ensures |r| == |Split(id, ",")|
  {
    var pieces := Split(id, ",");
    seq(|pieces|, i requires 0 <= i < |pieces| => TrimSpace(pieces[i]))
  }

  /** fixSeparator: one trimmed element per comma-separated piece, in order; the pieces are overwritten in place. */
  method FixSeparator(id: string) returns (fixed: seq<string>)
    ensures fixed == FixedSeparator(id)
    ensures |fixed| == Count(id, ',') + 1
    ensures forall i | 0 <= i < |fixed| :: Trimmed(fixed[i])
  {
    var pieces := Split(id, ",");
    var ids := new string[|pieces|](i requires 0 <= i < |pieces| => pieces[i]);
    for i := 0 to ids.Length
      invariant forall k | 0 <= k < i :: ids[k] == TrimSpace(pieces[k])
      invariant forall k | i <= k < ids.Length :: ids[k] == pieces[k]
    {
      ids[i] := TrimSpace(ids[i]);
    }
    fixed := ids[..];
    SplitCount(id, ',');
  }

  /** A piece holding only white space and no comma survives as one empty element. */
  lemma BlankPieceKept(id: string)
    requires id != [] && ',' !in id
    requires forall k | 0 <= k < |id| :: IsSpace(id[k])
    ensures FixedSeparator(id) == [""]
  {
    SplitPlain(id, ",");
    assert SkipForward(id, 0, IsSpace) == |id|;
  }

  /** The pieces of every non-empty `;` segment, in order; empty segments contribute nothing. */
  function Segments(list: seq<string>): seq<string>
    decreases |list|
  {
    if list == [] then []
    else
      var last := list[|list| - 1];
      Segments(list[..|list| - 1]) + (if last == "" then [] else FixedSeparator(last))
  }

  /** The pieces of a stored list value, deduplicated in first-occurrence order. */
  function FixedList(value: string): seq<string> {
    Deduped(Segments(Split(value, ";")))
  }

  /** getFixedArray: the pieces of the value of `key`. */
  function FixedArray(keys: seq<ConfigKey>, key: string): seq<string> {
    FixedList(ValueOf(keys, key))
  }

  /** An element is in a segment list exactly when some non-empty segment yields it. */
  lemma {:induction false} SegmentsMembers(list: seq<string>, x: string)
    ensures x in Segments(list) <==> exists i | 0 <= i < |list| :: list[i] != "" && x in FixedSeparator(list[i])
    decreases |list|
  {
    if list != [] {
      var init := list[..|list| - 1];
      SegmentsMembers(init, x);
      if x in Segments(list) && x !in Segments(init) {
        assert list[|list| - 1] != "" && x in FixedSeparator(list[|list| - 1]);
      }
      if exists i | 0 <= i < |list| :: list[i] != "" && x in FixedSeparator(list[i]) {
        var i :| 0 <= i < |list| && list[i] != "" && x in FixedSeparator(list[i]);
        if i < |list| - 1 {
          assert init[i] == list[i];
        }
      }
    }
  }

  /** getFixedArray: the list holds exactly the pieces of the non-empty segments, each once. */
  lemma FixedListMembers(value: string, x: string)
    ensures NoDuplicates(FixedList(value))
    ensures x in FixedList(value) <==> x in Segments(Split(value, ";"))
    ensures x in FixedList(value) <==>
      exists i | 0 <= i < |Split(value, ";")| :: Split(value, ";")[i] != "" && x in FixedSeparator(Split(value, ";")[i])
  {
    SegmentsMembers(Split(value, ";"), x);
  }

  /** An absent key or an empty value gives the empty list. */
  lemma FixedListOfEmpty(value: string)
    requires value == ""
    ensures FixedList(value) == []
  {
    assert Split("", ";") == [""];
    assert Segments([""]) == Segments([]);
  }

  /** getFixedArray on a configuration object. */
  method GetFixedArray(config: ServerConfig, key: string) returns (fixed: seq<string>)
    ensures fixed == FixedArray(config.keys, key)
    ensures NoDuplicates(fixed)
  {
    var value := config.GetOrDefault(key, "");
    var list := Split(value, ";");
    var pieces: seq<string> := [];
    for i := 0 to |list|
      invariant pieces == Segments(list[..i])
    {
      assert list[..i + 1][..i] == list[..i];
      if list[i] == "" {
        continue;
      }
      var ids := FixSeparator(list[i]);
      pieces := pieces + ids;
    }
    assert list[..|list|] == list;
    fixed := Dedupe(pieces);
  }

  /** isEnabled: whether `id` is an element of `list`. */
  method IsEnabled(id: string, list: seq<string>) returns (enabled: bool)
    ensures enabled <==> id in list
  {
    for i := 0 to |list|
      invariant id !in list[..i]
    {
      if list[i] == id {
        return true;
      }
    }
    assert list[..|list|] == list;
    return false;
  }
}
