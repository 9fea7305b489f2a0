/**
 * Updating the mods of a listed Workshop item (interactive/mods-update.go):
 * the user picks an item, picks some of its mods and where they go, and
 * optionally some of its maps and where they go; the mod list and the map
 * list are then written back deduplicated. The fetched items and the prompt
 * answers are parameters.
 */
module ModsUpdate {
  import opened Wrappers
  import opened Slices
  import opened Text
  import opened Ini
  import opened Items
  import opened Fetch
  import opened Placement
  import opened Shared
  import opened ModsAdd
  import opened ModsUtil

  /** The exit option of the interactive menus (interactive/menu-main.go). */
  const ItCmdExit := "Exit"

  /** The answers of the update prompts; None is a prompt closed before it was answered. */
  datatype UpdateAnswers = UpdateAnswers(
    item: Option<string>,
    mods: Option<seq<string>>,
    after: Option<string>,
    maps: Option<seq<string>>,
    mapAfter: Option<string>,
    /** The answer of the closing "continue?" prompt. */
    again: bool)

  /** What one round of updating writes: the new mod list, the new map list, and whether to go on. */
  datatype UpdateStep = UpdateStep(mods: Option<seq<string>>, maps: Option<seq<string>>, again: bool)

  /** A round that writes nothing. */
  function Stop(again: bool): UpdateStep {
    UpdateStep(None, None, again)
  }

  /** The item, its parse, the chosen mods and the answer of the position prompt. */
  datatype Picked = Picked(id: string, parsed: ParsedWorkshopItem, chosen: seq<string>, after: string)

  /**
   * The prompts before anything is inserted. Failure(again) stops the round
   * without a write: a fetch error, no fetched item, an unknown item or an empty
   * mod selection go on (true); a closed prompt or the exit option stop (false).
   */
  function UpdateSelection(fetched: Result<Fetched, string>, answers: UpdateAnswers): Result<Picked, bool> {
    match fetched
    case Failure(_) => Failure(true)
    case Success(f) =>
      if f.items == [] then Failure(true)
      else match answers.item
        case None => Failure(false)
        case Some(id) =>
          if id == "" || id == ItCmdExit then Failure(false)
          else match FindById(f.items, id)
            case None => Failure(true)
            case Some(item) =>
              match answers.mods
              case None => Failure(false)
              case Some(chosen) =>
                if chosen == [] then Failure(true)
                else match answers.after
                  case None => Failure(false)
                  case Some(after) => Success(Picked(id, Parsed(item), chosen, after))
  }

  /** The filter that keeps the entries not in `list`. */
  function Absent(list: seq<string>): string -> bool {
    x => x !in list
  }

  /**
   * The map half of a round, given the new mod list: without declared maps or
   * without chosen maps only the mod list is written; the chosen maps go in
   * as one block, and an anchor that is not listed ends the round with no write.
   */
  function UpdateMaps(modList: seq<string>, mapList: seq<string>, parsed: ParsedWorkshopItem, answers: UpdateAnswers): UpdateStep {
    if parsed.maps == [] then UpdateStep(Some(modList), None, answers.again)
    else match answers.maps
      case None => Stop(false)
      case Some(maps) =>
        if maps == [] then UpdateStep(Some(modList), None, answers.again)
        else match answers.mapAfter
          case None => Stop(false)
          case Some(mapAfter) =>
            match Place(mapList, maps, PositionOf(mapAfter))
            case None => Stop(true)
            case Some(placed) => UpdateStep(Some(modList), Some(placed), answers.again)
  }

  /**
   * updateMod as written: the chosen mods are inserted as bare mod IDs, and
   * those pre-selected by getEnabledMods are left out, so the only mod of a
   * single-mod item is never inserted.
   */
  function UpdatePlanAsWritten(fetched: Result<Fetched, string>, current: Lists, answers: UpdateAnswers): UpdateStep {
    match UpdateSelection(fetched, answers)
    case Failure(again) => Stop(again)
    case Success(p) =>
      var added := Filtered(p.chosen, Absent(EnabledDefaults(p.parsed.mods, current.mods)));
      UpdateMaps(PlaceUnchecked(current.mods, added, PositionOf(p.after)), current.maps, p.parsed, answers)
  }

  /** The entries a round inserts: the entries of the chosen mods that are not listed yet. */
  function Inserted(p: Picked, modList: seq<string>): seq<string> {
    Filtered(ModKeys(p.id, p.chosen), Absent(modList))
  }

  /**
   * updateMod as intended: the chosen mods are inserted as entries of their
   * item, as addMod writes them, leaving out the entries already listed.
   */
  function UpdatePlan(fetched: Result<Fetched, string>, current: Lists, answers: UpdateAnswers): UpdateStep {
    match UpdateSelection(fetched, answers)
    case Failure(again) => Stop(again)
    case Success(p) =>
      UpdateMaps(PlaceUnchecked(current.mods, Inserted(p, current.mods), PositionOf(p.after)), current.maps, p.parsed, answers)
  }

  /** The entries after a round: the map list first, then the mod list, each deduplicated and joined with `;`. */
  function Updated(keys: seq<ConfigKey>, step: UpdateStep): seq<ConfigKey> {
    var withMap := if step.maps.Some? then Assign(keys, KeyMap, Join(Deduped(step.maps.value), ";")) else keys;
    if step.mods.Some? then Assign(withMap, KeyMods, Join(Deduped(step.mods.value), ";")) else withMap
  }

  /** The map half writes the mod list it is given, and never the map list alone. */
  lemma UpdateMapsWritesMods(modList: seq<string>, mapList: seq<string>, parsed: ParsedWorkshopItem, answers: UpdateAnswers)
    ensures var step := UpdateMaps(modList, mapList, parsed, answers);
      && (step.mods.Some? ==> step.mods.value == modList)
      && (step.maps.Some? ==> step.mods.Some?)
  {
  }

  /** What the map half decides does not depend on the mod list it is given. */
  lemma UpdateMapsIgnoresMods(a: seq<string>, b: seq<string>, mapList: seq<string>, parsed: ParsedWorkshopItem, answers: UpdateAnswers)
    ensures UpdateMaps(a, mapList, parsed, answers).maps == UpdateMaps(b, mapList, parsed, answers).maps
    ensures UpdateMaps(a, mapList, parsed, answers).mods.Some? == UpdateMaps(b, mapList, parsed, answers).mods.Some?
    ensures UpdateMaps(a, mapList, parsed, answers).again == UpdateMaps(b, mapList, parsed, answers).again
  {
  }

  /**
   * A round never writes the map list without the mod list, and the corrected
   * round writes the mod list, the map list and goes on exactly when the code as
   * written does; they differ only in the entries inserted.
   */
  lemma UpdateWritesModsLast(fetched: Result<Fetched, string>, current: Lists, answers: UpdateAnswers)
    ensures UpdatePlan(fetched, current, answers).maps.Some? ==> UpdatePlan(fetched, current, answers).mods.Some?
    ensures UpdatePlanAsWritten(fetched, current, answers).maps.Some? ==> UpdatePlanAsWritten(fetched, current, answers).mods.Some?
    ensures UpdatePlan(fetched, current, answers).mods.Some? <==> UpdatePlanAsWritten(fetched, current, answers).mods.Some?
    ensures UpdatePlan(fetched, current, answers).maps == UpdatePlanAsWritten(fetched, current, answers).maps
    ensures UpdatePlan(fetched, current, answers).again == UpdatePlanAsWritten(fetched, current, answers).again
  {
    var selection := UpdateSelection(fetched, answers);
    if selection.Success? {
      var p := selection.value;
      var asWritten := PlaceUnchecked(current.mods, Filtered(p.chosen, Absent(EnabledDefaults(p.parsed.mods, current.mods))), PositionOf(p.after));
      var corrected := PlaceUnchecked(current.mods, Inserted(p, current.mods), PositionOf(p.after));
      UpdateMapsWritesMods(asWritten, current.maps, p.parsed, answers);
      UpdateMapsWritesMods(corrected, current.maps, p.parsed, answers);
      UpdateMapsIgnoresMods(asWritten, corrected, current.maps, p.parsed, answers);
    }
  }

  /** The mod list a corrected round writes: the new entries placed at the chosen position. */
  lemma UpdatePlanMods(fetched: Result<Fetched, string>, current: Lists, answers: UpdateAnswers)
    requires UpdatePlan(fetched, current, answers).mods.Some?
    ensures UpdateSelection(fetched, answers).Success?
    ensures
      var p := UpdateSelection(fetched, answers).value;
      UpdatePlan(fetched, current, answers).mods.value == PlaceUnchecked(current.mods, Inserted(p, current.mods), PositionOf(p.after))
  {
    var p := UpdateSelection(fetched, answers).value;
    UpdateMapsWritesMods(PlaceUnchecked(current.mods, Inserted(p, current.mods), PositionOf(p.after)), current.maps, p.parsed, answers);
  }

  /** A round writes nothing unless an item was picked and at least one mod chosen. */
  lemma UpdateNeedsSelection(fetched: Result<Fetched, string>, current: Lists, answers: UpdateAnswers)
    requires UpdatePlan(fetched, current, answers).mods.Some?
    ensures fetched.Success? && answers.item.Some? && answers.item.value != "" && answers.item.value != ItCmdExit
    ensures FindById(fetched.value.items, answers.item.value).Some?
    ensures answers.mods.Some? && answers.mods.value != [] && answers.after.Some?
  {
  }

  /**
   * The mod list a round writes holds the old entries plus the entry of every
   * chosen mod, each entry once more than before at most, and nothing else.
   */
  lemma UpdateInsertsChosen(fetched: Result<Fetched, string>, current: Lists, answers: UpdateAnswers, x: string)
    requires UpdatePlan(fetched, current, answers).mods.Some?
    ensures
      var id := answers.item.value;
      var written := UpdatePlan(fetched, current, answers).mods.value;
      && (x in written <==> x in current.mods || exists k | 0 <= k < |answers.mods.value| :: x == ModKey(id, answers.mods.value[k]))
      && (x in current.mods ==> multiset(written)[x] == multiset(current.mods)[x])
  {
    UpdatePlanMods(fetched, current, answers);
    var p := UpdateSelection(fetched, answers).value;
    var keys := ModKeys(p.id, p.chosen);
    var added := Inserted(p, current.mods);
    FilteredMembers(keys, Absent(current.mods), x);
    assert multiset(PlaceUnchecked(current.mods, added, PositionOf(p.after))) == multiset(current.mods) + multiset(added);
    ModKeysMembers(p.id, p.chosen, x);
    if x in current.mods {
      assert x !in added;
    }
  }

  /** The entries of a selection are exactly the keys of its mods. */
  lemma ModKeysMembers(id: string, mods: seq<string>, x: string)
    ensures x in ModKeys(id, mods) <==> exists k | 0 <= k < |mods| :: x == ModKey(id, mods[k])
  {
    var keys := ModKeys(id, mods);
    if x in keys {
      var k :| 0 <= k < |keys| && keys[k] == x;
      assert x == ModKey(id, mods[k]);
    }
    if exists k | 0 <= k < |mods| :: x == ModKey(id, mods[k]) {
      var k :| 0 <= k < |mods| && x == ModKey(id, mods[k]);
      assert keys[k] == x;
    }
  }

  /** An anchor missing from the mod list is not reported: the mods go to the head of the list. */
  lemma UpdateMissingAnchorPrepends(fetched: Result<Fetched, string>, current: Lists, answers: UpdateAnswers)
    requires UpdateSelection(fetched, answers).Success?
    requires
      var p := UpdateSelection(fetched, answers).value;
      p.after != AddEnd && p.after != AddStart && p.after !in current.mods
    ensures
      var p := UpdateSelection(fetched, answers).value;
      UpdatePlan(fetched, current, answers).mods.Some? ==>
        UpdatePlan(fetched, current, answers).mods.value == Inserted(p, current.mods) + current.mods
  {
    var p := UpdateSelection(fetched, answers).value;
    UpdateMapsWritesMods(PlaceUnchecked(current.mods, Inserted(p, current.mods), PositionOf(p.after)), current.maps, p.parsed, answers);
    PlaceUncheckedAgrees(current.mods, Inserted(p, current.mods), PositionOf(p.after));
  }

  /** A map anchor missing from the map list ends the round and writes neither list. */
  lemma UpdateMissingMapAnchor(fetched: Result<Fetched, string>, current: Lists, answers: UpdateAnswers)
    requires UpdateSelection(fetched, answers).Success?
    requires UpdateSelection(fetched, answers).value.parsed.maps != []
    requires answers.maps.Some? && answers.maps.value != [] && answers.mapAfter.Some?
    requires answers.mapAfter.value != AddEnd && answers.mapAfter.value != AddStart && answers.mapAfter.value !in current.maps
    ensures UpdatePlan(fetched, current, answers) == Stop(true)
    ensures UpdatePlanAsWritten(fetched, current, answers) == Stop(true)
  {
  }

  /** The chosen maps go in as one block at the chosen place; the map list gains exactly them. */
  lemma UpdateInsertsMaps(fetched: Result<Fetched, string>, current: Lists, answers: UpdateAnswers)
    requires UpdatePlan(fetched, current, answers).maps.Some?
    ensures answers.maps.Some? && answers.mapAfter.Some?
    ensures
      var maps := answers.maps.value;
      var written := UpdatePlan(fetched, current, answers).maps.value;
      && maps != []
      && multiset(written) == multiset(current.maps) + multiset(maps)
      && (answers.mapAfter.value == AddEnd ==> written == current.maps + maps)
      && (answers.mapAfter.value == AddStart ==> written == maps + current.maps)
  {
  }

  /** The item whose mods are picked, as a fetched item with ID `id` and no maps. */
  predicate SingleModItem(item: WorkshopItem, id: string, m: string) {
    item.publishedFileId == id && id != "" && id != ItCmdExit && Parsed(item).mods == [m] && Parsed(item).maps == []
  }

  /**
   * The only mod of a single-mod item is never inserted by the code as written,
   * even when it is not listed; the corrected round inserts its entry.
   */
  lemma SingleModNeverInserted(item: WorkshopItem, id: string, m: string, current: Lists, again: bool)
    requires SingleModItem(item, id, m)
    requires ModKey(id, m) !in current.mods
    ensures
      var answers := UpdateAnswers(Some(id), Some([m]), Some(AddEnd), None, None, again);
      && UpdatePlanAsWritten(Success(Fetched([item], [])), current, answers).mods == Some(current.mods)
      && UpdatePlan(Success(Fetched([item], [])), current, answers).mods == Some(current.mods + [ModKey(id, m)])
  {
    var answers := UpdateAnswers(Some(id), Some([m]), Some(AddEnd), None, None, again);
    assert FindById([item], id) == Some(item) by {
      assert ItemIds([item])[0] == id;
      FirstIndexOfAt(ItemIds([item]), id, 0);
    }
    var p := Picked(id, Parsed(item), [m], AddEnd);
    assert UpdateSelection(Success(Fetched([item], [])), answers) == Success(p);
    assert Filtered([m], Absent([m])) == [] by {
      assert [m] == [] + [m];
      assert Filtered([m], Absent([m])) == Filtered([], Absent([m])) + [];
    }
    assert current.mods + [] == current.mods;
    assert ModKeys(id, [m]) == [ModKey(id, m)];
    assert Filtered([ModKey(id, m)], Absent(current.mods)) == [ModKey(id, m)] by {
      FilteredAllPass([ModKey(id, m)], Absent(current.mods));
    }
  }

  /**
   * The code as written inserts a chosen mod as its bare mod ID, an entry no
   * other operation recognises as belonging to the item; the corrected round
   * inserts the entry of the item.
   */
  lemma BareModIdInserted(item: WorkshopItem, id: string, m: string, current: Lists, again: bool)
    requires item.publishedFileId == id && id != "" && id != ItCmdExit && Parsed(item).maps == []
    requires |Parsed(item).mods| >= 2
    requires m !in current.mods && ModKey(id, m) !in current.mods
    ensures
      var answers := UpdateAnswers(Some(id), Some([m]), Some(AddEnd), None, None, again);
      && UpdatePlanAsWritten(Success(Fetched([item], [])), current, answers).mods == Some(current.mods + [m])
      && UpdatePlan(Success(Fetched([item], [])), current, answers).mods == Some(current.mods + [ModKey(id, m)])
  {
    var answers := UpdateAnswers(Some(id), Some([m]), Some(AddEnd), None, None, again);
    assert FindById([item], id) == Some(item) by {
      assert ItemIds([item])[0] == id;
      FirstIndexOfAt(ItemIds([item]), id, 0);
    }
    var p := Picked(id, Parsed(item), [m], AddEnd);
    assert UpdateSelection(Success(Fetched([item], [])), answers) == Success(p);
    var enabled := EnabledDefaults(Parsed(item).mods, current.mods);
    assert m !in enabled by {
      EnabledMembers(Parsed(item).mods, current.mods, m);
    }
    FilteredAllPass([m], Absent(enabled));
    assert ModKeys(id, [m]) == [ModKey(id, m)];
    FilteredAllPass([ModKey(id, m)], Absent(current.mods));
  }

  /** A round changes only the mod and map entries. */
  lemma UpdatedOnlyLists(keys: seq<ConfigKey>, step: UpdateStep, other: string)
    requires other != KeyMods && other != KeyMap
    ensures Lookup(Updated(keys, step), other) == Lookup(keys, other)
    ensures step.mods.Some? ==> Lookup(Updated(keys, step), KeyMods) == Some(Join(Deduped(step.mods.value), ";"))
    ensures step.maps.Some? ==> Lookup(Updated(keys, step), KeyMap) == Some(Join(Deduped(step.maps.value), ";"))
    ensures step.mods.None? && step.maps.None? ==> Updated(keys, step) == keys
  {
    var withMap := if step.maps.Some? then Assign(keys, KeyMap, Join(Deduped(step.maps.value), ";")) else keys;
    if step.maps.Some? {
      LookupAssignOther(keys, KeyMap, Join(Deduped(step.maps.value), ";"), other);
      LookupAssign(keys, KeyMap, Join(Deduped(step.maps.value), ";"));
    }
    if step.mods.Some? {
      LookupAssignOther(withMap, KeyMods, Join(Deduped(step.mods.value), ";"), other);
      LookupAssignOther(withMap, KeyMods, Join(Deduped(step.mods.value), ";"), KeyMap);
      LookupAssign(withMap, KeyMods, Join(Deduped(step.mods.value), ";"));
    }
  }

  /** The prompts of a round up to the position of the mods. */
  method SelectForUpdate(fetched: Result<Fetched, string>, answers: UpdateAnswers) returns (r: Result<Picked, bool>)
    ensures r == UpdateSelection(fetched, answers)
  {
    if fetched.Failure? {
      return Failure(true);
    }
    var items := fetched.value.items;
    if |items| == 0 {
      return Failure(true);
    }
    if answers.item.None? || answers.item.value == "" || answers.item.value == ItCmdExit {
      return Failure(false);
    }
    var id := answers.item.value;
    var item := FindItemById(items, id);
    if item.None? {
      return Failure(true);
    }
    var parsed := Parse(item.value);
    if answers.mods.None? {
      return Failure(false);
    }
    var chosen := answers.mods.value;
    if |chosen| == 0 {
      return Failure(true);
    }
    if answers.after.None? {
      return Failure(false);
    }
    return Success(Picked(id, parsed, chosen, answers.after.value));
  }

  /** The insert of the mods: start, end, or after the first occurrence of the anchor, whose index is not checked. */
  method InsertBlock(list: seq<string>, xs: seq<string>, answer: string) returns (r: seq<string>)
    ensures r == PlaceUnchecked(list, xs, PositionOf(answer))
  {
    if answer == AddStart {
      r := xs + list;
    } else if answer == AddEnd {
      r := list + xs;
    } else {
      var index := IndexOf(list, answer);
      r := list[..index + 1] + xs + list[index + 1..];
    }
  }

  /** The insert of the maps: like the mods, but a missing anchor is reported (None). */
  method InsertMapBlock(list: seq<string>, xs: seq<string>, answer: string) returns (r: Option<seq<string>>)
    ensures r == Place(list, xs, PositionOf(answer))
  {
    if answer == AddEnd {
      r := Some(list + xs);
    } else if answer == AddStart {
      r := Some(xs + list);
    } else {
      var index := IndexOf(list, answer);
      if index == -1 {
        return None;
      }
      r := Some(list[..index + 1] + xs + list[index + 1..]);
    }
  }

  /** updateMod, with the corrected entries of the inserted mods. */
  method UpdateMod(config: ServerConfig, fetched: Result<Fetched, string>, answers: UpdateAnswers) returns (again: bool)
    modifies config
    ensures config.eol == old(config.eol)
    ensures again == UpdatePlan(fetched, ConfigLists(old(config.keys)), answers).again
    ensures config.keys == Updated(old(config.keys), UpdatePlan(fetched, ConfigLists(old(config.keys)), answers))
  {
    var modList := GetFixedArray(config, KeyMods);
    var selection := SelectForUpdate(fetched, answers);
    if selection.Failure? {
      return selection.error;
    }
    var p := selection.value;
    var keys := QualifyMods(p.id, p.chosen);
    var added := Filter(keys, Absent(modList));
    assert added == Inserted(p, modList);
    var placed := InsertBlock(modList, added, p.after);

    if |p.parsed.maps| > 0 {
      var mapList := GetMapList(config);
      if answers.maps.None? {
        return false;
      }
      var maps := answers.maps.value;
      if |maps| > 0 {
        if answers.mapAfter.None? {
          return false;
        }
        var mapsPlaced := InsertMapBlock(mapList, maps, answers.mapAfter.value);
        if mapsPlaced.None? {
          return true;
        }
        var dedupedMaps := Dedupe(mapsPlaced.value);
        config.Set(KeyMap, Join(dedupedMaps, ";"));
      }
    }

    var deduped := Dedupe(placed);
    config.Set(KeyMods, Join(deduped, ";"));
    return answers.again;
  }

  /** mapTitlesToIDs: each fetched item's ID mapped to its title, a later item winning over an earlier one. */
  function Titles(items: seq<WorkshopItem>): map<string, string>
    decreases |items|
  {
    if items == [] then map[]
    else
      var last := items[|items| - 1];
      Titles(items[..|items| - 1])[last.publishedFileId := last.title]
  }

  /** The titled IDs are exactly the fetched IDs. */
  lemma {:induction false} TitlesKeys(items: seq<WorkshopItem>, id: string)
    ensures id in Titles(items) <==> exists k | 0 <= k < |items| :: items[k].publishedFileId == id
    decreases |items|
  {
    if items != [] {
      var init := items[..|items| - 1];
      TitlesKeys(init, id);
      if exists k | 0 <= k < |init| :: init[k].publishedFileId == id {
        var k :| 0 <= k < |init| && init[k].publishedFileId == id;
        assert items[k].publishedFileId == id;
      }
      if exists k | 0 <= k < |items| :: items[k].publishedFileId == id {
        var k :| 0 <= k < |items| && items[k].publishedFileId == id;
        if k < |init| {
          assert init[k].publishedFileId == id;
        }
      }
    }
  }

  /** The title of an ID is that of the last item with the ID. */
  lemma {:induction false} TitlesLastWins(items: seq<WorkshopItem>, k: nat)
    requires k < |items|
    requires forall j | k < j < |items| :: items[j].publishedFileId != items[k].publishedFileId
    ensures items[k].publishedFileId in Titles(items)
    ensures Titles(items)[items[k].publishedFileId] == items[k].title
    decreases |items|
  {
    if k < |items| - 1 {
      var init := items[..|items| - 1];
      TitlesLastWins(init, k);
    }
  }

  /** mapTitlesToIDs, filling the map in a loop. */
  method MapTitles(items: seq<WorkshopItem>) returns (titles: map<string, string>)
    ensures titles == Titles(items)
  {
    titles := map[];
    for i := 0 to |items|
      invariant titles == Titles(items[..i])
    {
      assert items[..i + 1][..i] == items[..i];
      titles := titles[items[i].publishedFileId := items[i].title];
    }
    assert items[..|items|] == items;
  }
}
