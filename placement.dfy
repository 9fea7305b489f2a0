/**
 * Where new entries go in an ordered list (the mod list or the map list): at the
 * start, at the end, or right after an existing entry chosen by the user.
 */
module Placement {
  import opened Wrappers
  import opened Slices

  /** The two fixed answers of the "add after" prompt (interactive/mods-add.go). */
  const AddStart := "Add to the start of the list"
  const AddEnd := "Add to the end of the list"

  datatype Position = Start | End | After(anchor: string)

  /**
   * The answer of the "add after" prompt as a position: the end answer is
   * compared first, then the start answer, and anything else names an anchor.
   */
  function PositionOf(answer: string): (r: Position)
    ensures r == End <==> answer == AddEnd
    ensures r == Start <==> answer == AddStart
    ensures r.After? ==> r.anchor == answer
  {
    if answer == AddEnd then End
    else if answer == AddStart then Start
    else After(answer)
  }

  /**
   * `xs` inserted after position `index` of `list`; index -1 inserts at the head
   * (Go's `append(list[:index+1], append(xs, list[index+1:]...)...)`).
   */
  function SpliceAfter<T>(list: seq<T>, index: int, xs: seq<T>): (r: seq<T>)
    requires -1 <= index < |list|
    ensures |r| == |list| + |xs|
    ensures r[..index + 1] == list[..index + 1]
    ensures r[index + 1..index + 1 + |xs|] == xs
    ensures r[index + 1 + |xs|..] == list[index + 1..]
    ensures multiset(r) == multiset(list) + multiset(xs)
  {
    var r := list[..index + 1] + xs + list[index + 1..];
    assert list == list[..index + 1] + list[index + 1..];
    r
  }

  /**
   * Insert `xs` at `pos`. An anchor that is not in the list is an error (None):
   * the callers report "could not find mod/map".
   */
  function Place(list: seq<string>, xs: seq<string>, pos: Position): (r: Option<seq<string>>)
    ensures pos.After? ==> (r.None? <==> pos.anchor !in list)
    ensures !pos.After? ==> r.Some?
    ensures pos == End ==> r == Some(list + xs)
    ensures pos == Start ==> r == Some(xs + list)
    ensures r.Some? ==> multiset(r.value) == multiset(list) + multiset(xs)
    ensures r.Some? && pos.After? ==>
      var i := FirstIndexOf(list, pos.anchor);
      0 <= i && r.value == list[..i + 1] + xs + list[i + 1..]
  {
    match pos
    case End => Some(list + xs)
    case Start => Some(xs + list)
    case After(anchor) =>
      var i := FirstIndexOf(list, anchor);
      if i == -1 then None else Some(SpliceAfter(list, i, xs))
  }

  /**
   * Insert `xs` at `pos` without checking the anchor: a missing anchor has index
   * -1, so the entries land at the head, as when the index is not checked.
   */
  function PlaceUnchecked(list: seq<string>, xs: seq<string>, pos: Position): (r: seq<string>)
    ensures multiset(r) == multiset(list) + multiset(xs)
  {
    match pos
    case End => list + xs
    case Start => xs + list
    case After(anchor) => SpliceAfter(list, FirstIndexOf(list, anchor), xs)
  }

  /** Without the anchor check the result is the checked one, or a head insert when the anchor is missing. */
  lemma PlaceUncheckedAgrees(list: seq<string>, xs: seq<string>, pos: Position)
    ensures Place(list, xs, pos).Some? ==> PlaceUnchecked(list, xs, pos) == Place(list, xs, pos).value
    ensures Place(list, xs, pos).None? ==> PlaceUnchecked(list, xs, pos) == xs + list
  {
    if pos.After? && pos.anchor !in list {
      assert list[..0] == [];
      assert list[0..] == list;
    }
  }

  /** After a successful insert the new entries follow the anchor immediately. */
  lemma PlaceAfterFollowsAnchor(list: seq<string>, xs: seq<string>, anchor: string)
    requires anchor in list && |xs| > 0
    ensures
      var r := Place(list, xs, After(anchor)).value;
      var i := FirstIndexOf(list, anchor);
      r[i] == anchor && r[i + 1..i + 1 + |xs|] == xs
  {
  }

  /** Adding "z" after "y" in ["x", "y"] gives ["x", "y", "z"]; after a missing "w" it fails. */
  lemma PlaceExample()
    ensures Place(["x", "y"], ["z"], After("y")) == Some(["x", "y", "z"])
    ensures Place(["x", "y"], ["z"], After("w")) == None
  {
    assert FirstIndexOf(["x", "y"], "y") == 1 by {
      FirstIndexOfAt(["x", "y"], "y", 1);
    }
    var l: seq<string> := ["x", "y"];
    assert l[..2] == l && l[2..] == [];
    assert SpliceAfter(l, 1, ["z"]) == ["x", "y", "z"];
    assert "w" !in ["x", "y"];
  }
}
