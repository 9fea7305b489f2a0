/**
 * Adding a Workshop mod to the server configuration
 * (interactive/mods_util.go): the list arithmetic of the interactive `addMod`
 * and of `AddModWithoutPrompt`. The fetch results and the prompt answers are
 * parameters; the three lists are read from the configuration, changed, and
 * written back deduplicated and `;`-joined only when every step succeeded.
 */
module ModsUtil {
  import opened Wrappers
  import opened Slices
  import opened Text
  import opened Ini
  import opened Items
  import opened Fetch
  import opened Placement
  import opened Shared
  import opened ModsAdd

  /** The Workshop file type of a mod (steam/util.go). */
  const FileTypeMod := 0

  const NoItemsFound := "no items found"
  const NotAMod := "workshop item is not a mod"
  const NoParsedMods := "parsed item has no mods"
  const NeedOneModId := "need at least one Mod ID to continue"
  const NoModsSelected := "no mods selected"
  const CouldNotFindMod := "could not find mod "
  const CouldNotFindMap := "could not find map "
  /** The error of a prompt that was closed before it was answered. */
  const PromptClosed := "prompt closed"

  /** The item list, the mod list and the map list of a configuration. */
  datatype Lists = Lists(items: seq<string>, mods: seq<string>, maps: seq<string>)

  /** The three lists as read from the configuration entries. */
  function ConfigLists(keys: seq<ConfigKey>): Lists {
    Lists(FixedArray(keys, KeyItems), FixedArray(keys, KeyMods), MapList(keys))
  }

  /** The entries after writing the three lists, each deduplicated and joined with `;`, items first. */
  function Written(keys: seq<ConfigKey>, lists: Lists): seq<ConfigKey> {
    var withItems := Assign(keys, KeyItems, Join(Deduped(lists.items), ";"));
    var withMods := Assign(withItems, KeyMods, Join(Deduped(lists.mods), ";"));
    Assign(withMods, KeyMap, Join(Deduped(lists.maps), ";"))
  }

  /** After the write each list key reads its deduplicated list, and every other key reads as before. */
  lemma WrittenLookup(keys: seq<ConfigKey>, lists: Lists, other: string)
    ensures Lookup(Written(keys, lists), KeyItems) == Some(Join(Deduped(lists.items), ";"))
    ensures Lookup(Written(keys, lists), KeyMods) == Some(Join(Deduped(lists.mods), ";"))
    ensures Lookup(Written(keys, lists), KeyMap) == Some(Join(Deduped(lists.maps), ";"))
    ensures other != KeyItems && other != KeyMods && other != KeyMap ==>
      Lookup(Written(keys, lists), other) == Lookup(keys, other)
  {
    var withItems := Assign(keys, KeyItems, Join(Deduped(lists.items), ";"));
    var withMods := Assign(withItems, KeyMods, Join(Deduped(lists.mods), ";"));
    LookupAssign(keys, KeyItems, Join(Deduped(lists.items), ";"));
    LookupAssignOther(withItems, KeyMods, Join(Deduped(lists.mods), ";"), KeyItems);
    LookupAssignOther(withMods, KeyMap, Join(Deduped(lists.maps), ";"), KeyItems);
    LookupAssign(withItems, KeyMods, Join(Deduped(lists.mods), ";"));
    LookupAssignOther(withMods, KeyMap, Join(Deduped(lists.maps), ";"), KeyMods);
    LookupAssign(withMods, KeyMap, Join(Deduped(lists.maps), ";"));
    if other != KeyItems && other != KeyMods && other != KeyMap {
      LookupAssignOther(keys, KeyItems, Join(Deduped(lists.items), ";"), other);
      LookupAssignOther(withItems, KeyMods, Join(Deduped(lists.mods), ";"), other);
      LookupAssignOther(withMods, KeyMap, Join(Deduped(lists.maps), ";"), other);
    }
  }

  /** The three `config.Set` calls that end a successful add. */
  method WriteLists(config: ServerConfig, lists: Lists)
    modifies config
    ensures config.keys == Written(old(config.keys), lists)
    ensures config.eol == old(config.eol)
  {
    var items := Dedupe(lists.items);
    config.Set(KeyItems, Join(items, ";"));
    var mods := Dedupe(lists.mods);
    config.Set(KeyMods, Join(mods, ";"));
    var maps := Dedupe(lists.maps);
    config.Set(KeyMap, Join(maps, ";"));
  }

  /** The mod list entry of mod `mod` of Workshop item `id`: the item ID, a backslash, the mod ID. */
  function ModKey(id: string, mod: string): string {
    id + "\\" + mod
  }

  /** The entry names its item: it starts with the item ID and a backslash, and the rest is the mod ID. */
  lemma ModKeyOwner(id: string, mod: string)
    ensures HasPrefix(ModKey(id, mod), id + "\\")
    ensures TrimPrefix(ModKey(id, mod), id + "\\") == mod
  {
    assert ModKey(id, mod)[..|id + "\\"|] == id + "\\";
  }

  /** The entries of the selected mods of item `id`. */
  function ModKeys(id: string, mods: seq<string>): (r: seq<string>)
    ensures |r| == |mods|
  {
    seq(|mods|, i requires 0 <= i < |mods| => ModKey(id, mods[i]))
  }

  /** Each selected mod is rewritten in place into its entry. */
  method QualifyMods(id: string, mods: seq<string>) returns (keys: seq<string>)
    ensures keys == ModKeys(id, mods)
    ensures forall i | 0 <= i < |keys| :: HasPrefix(keys[i], id + "\\") && TrimPrefix(keys[i], id + "\\") == mods[i]
  {
    var a := new string[|mods|](i requires 0 <= i < |mods| => mods[i]);
    for i := 0 to a.Length
      invariant forall k | 0 <= k < i :: a[k] == ModKey(id, mods[k])
      invariant forall k | i <= k < a.Length :: a[k] == mods[k]
    {
      a[i] := id + "\\" + a[i];
    }
    keys := a[..];
    forall i | 0 <= i < |keys|
      ensures HasPrefix(keys[i], id + "\\") && TrimPrefix(keys[i], id + "\\") == mods[i]
    {
      ModKeyOwner(id, mods[i]);
    }
  }

  /** The answers of the add-mod prompts. */
  datatype AddAnswers = AddAnswers(
    /** None: the user declined to enter mod IDs by hand; Some: the IDs entered before stopping. */
    manual: Option<seq<string>>,
    /** The mods chosen when more than one is offered. */
    selected: seq<string>,
    /** Where the mods go: the start answer, the end answer, or an entry of the mod list. */
    after: string,
    /** The maps chosen. */
    maps: seq<string>,
    /** Where each chosen map goes, one answer per map, in order. */
    mapAfter: seq<string>)

  /** The mod IDs to add: the parsed ones or those entered by hand, then the user's choice when there are several. */
  function ChosenMods(parsedMods: seq<string>, answers: AddAnswers): Result<seq<string>, string> {
    var offered :=
      if parsedMods != [] then Success(parsedMods)
      else match answers.manual
        case None => Failure(NoParsedMods)
        case Some(entered) => if entered == [] then Failure(NeedOneModId) else Success(entered);
    match offered
    case Failure(e) => Failure(e)
    case Success(mods) =>
      var chosen := if |mods| == 1 then mods else answers.selected;
      if chosen == [] then Failure(NoModsSelected) else Success(chosen)
  }

  /** The chosen maps inserted one at a time, each at its own answer's position; a missing anchor stops everything. */
  function InsertMaps(list: seq<string>, maps: seq<string>, answers: seq<string>): Result<seq<string>, string>
    decreases |maps|
  {
    if maps == [] then Success(list)
    else if answers == [] then Failure(PromptClosed)
    else
      match Place(list, [maps[0]], PositionOf(answers[0]))
      case None => Failure(CouldNotFindMap + answers[0])
      case Some(next) => InsertMaps(next, maps[1..], answers[1..])
  }

  /** Inserting maps adds exactly the chosen maps to the list. */
  lemma {:induction false} InsertMapsAdds(list: seq<string>, maps: seq<string>, answers: seq<string>)
    requires InsertMaps(list, maps, answers).Success?
    ensures multiset(InsertMaps(list, maps, answers).value) == multiset(list) + multiset(maps)
    decreases |maps|
  {
    if maps != [] {
      var next := Place(list, [maps[0]], PositionOf(answers[0])).value;
      InsertMapsAdds(next, maps[1..], answers[1..]);
      assert maps == [maps[0]] + maps[1..];
    }
  }

  /** A map whose answer names no listed map fails with that answer, before anything is written. */
  lemma InsertMapsMissingAnchor(list: seq<string>, m: string, answer: string, maps: seq<string>, answers: seq<string>)
    requires answer != AddEnd && answer != AddStart && answer !in list
    ensures InsertMaps(list, [m] + maps, [answer] + answers) == Failure(CouldNotFindMap + answer)
  {
    assert ([m] + maps)[0] == m && ([answer] + answers)[0] == answer;
  }

  /** addMod's checks of the fetched item and its choice of mods: the item's parse and the chosen mod IDs. */
  function Selection(fetched: seq<WorkshopItem>, answers: AddAnswers): Result<(ParsedWorkshopItem, seq<string>), string> {
    if fetched == [] then Failure(NoItemsFound)
    else if fetched[0].fileType != FileTypeMod then Failure(NotAMod)
    else
      var parsed := Parsed(fetched[0]);
      match ChosenMods(parsed.mods, answers)
      case Failure(e) => Failure(e)
      case Success(mods) => Success((parsed, mods))
  }

  /**
   * addMod after the fetch: the first fetched item must exist and be a mod, its
   * chosen mods go where the user said, its chosen maps likewise, and its ID is
   * appended to the item list.
   */
  function AddPlan(id: string, fetched: seq<WorkshopItem>, current: Lists, answers: AddAnswers): Result<Lists, string> {
    match Selection(fetched, answers)
    case Failure(e) => Failure(e)
    case Success(selection) =>
      var (parsed, mods) := selection;
      match Place(current.mods, ModKeys(id, mods), PositionOf(answers.after))
      case None => Failure(CouldNotFindMod + answers.after)
      case Some(modList) =>
        var maps :=
          if parsed.maps == [] || answers.maps == [] then Success(current.maps)
          else InsertMaps(current.maps, answers.maps, answers.mapAfter);
        match maps
        case Failure(e) => Failure(e)
        case Success(mapList) => Success(Lists(current.items + [id], modList, mapList))
  }

  /** addMod: a fetch error is returned as is; otherwise the plan for the configuration's current lists. */
  function AddOutcome(id: string, fetched: Result<Fetched, string>, keys: seq<ConfigKey>, answers: AddAnswers): Result<Lists, string> {
    match fetched
    case Failure(e) => Failure(e)
    case Success(f) => AddPlan(id, f.items, ConfigLists(keys), answers)
  }

  /** A successful plan is made of the selection, the placed mod entries, the inserted maps and the item ID. */
  lemma AddPlanSteps(id: string, fetched: seq<WorkshopItem>, current: Lists, answers: AddAnswers)
    requires AddPlan(id, fetched, current, answers).Success?
    ensures Selection(fetched, answers).Success?
    ensures fetched != [] && fetched[0].fileType == FileTypeMod
    ensures
      var (parsed, mods) := Selection(fetched, answers).value;
      var r := AddPlan(id, fetched, current, answers).value;
      && parsed == Parsed(fetched[0])
      && mods == ChosenMods(Parsed(fetched[0]).mods, answers).value
      && r.items == current.items + [id]
      && Place(current.mods, ModKeys(id, mods), PositionOf(answers.after)) == Some(r.mods)
      && (parsed.maps == [] || answers.maps == [] ==> r.maps == current.maps)
      && (parsed.maps != [] && answers.maps != [] ==> InsertMaps(current.maps, answers.maps, answers.mapAfter) == Success(r.maps))
  {
  }

  /**
   * Where the mods go: appended for the end answer, prepended for the start
   * answer, right after the anchor's first occurrence otherwise; the item ID is
   * appended to the item list.
   */
  lemma AddPlanPlacesMods(id: string, fetched: seq<WorkshopItem>, current: Lists, answers: AddAnswers)
    requires AddPlan(id, fetched, current, answers).Success?
    ensures fetched != [] && ChosenMods(Parsed(fetched[0]).mods, answers).Success?
    ensures
      var keys := ModKeys(id, ChosenMods(Parsed(fetched[0]).mods, answers).value);
      var r := AddPlan(id, fetched, current, answers).value;
      && r.items == current.items + [id]
      && (answers.after == AddEnd ==> r.mods == current.mods + keys)
      && (answers.after != AddEnd && answers.after == AddStart ==> r.mods == keys + current.mods)
      && (answers.after != AddEnd && answers.after != AddStart ==>
            var i := FirstIndexOf(current.mods, answers.after);
            0 <= i && r.mods == current.mods[..i + 1] + keys + current.mods[i + 1..])
  {
    AddPlanSteps(id, fetched, current, answers);
  }

  /** The map list gains exactly the chosen maps, and only when the item declares maps. */
  lemma AddPlanAddsMaps(id: string, fetched: seq<WorkshopItem>, current: Lists, answers: AddAnswers)
    requires AddPlan(id, fetched, current, answers).Success?
    ensures fetched != []
    ensures multiset(AddPlan(id, fetched, current, answers).value.maps) == multiset(current.maps)
      + (if Parsed(fetched[0]).maps == [] then multiset{} else multiset(answers.maps))
  {
    AddPlanSteps(id, fetched, current, answers);
    var parsed := Parsed(fetched[0]);
    if parsed.maps != [] && answers.maps != [] {
      InsertMapsAdds(current.maps, answers.maps, answers.mapAfter);
    } else if answers.maps == [] {
      assert multiset(answers.maps) == multiset{};
    }
  }

  /** The error cases: nothing fetched, not a mod, no mod chosen, or an anchor that is not in the mod list. */
  lemma AddPlanErrors(id: string, fetched: seq<WorkshopItem>, current: Lists, answers: AddAnswers)
    ensures fetched == [] ==> AddPlan(id, fetched, current, answers) == Failure(NoItemsFound)
    ensures fetched != [] && fetched[0].fileType != FileTypeMod ==> AddPlan(id, fetched, current, answers) == Failure(NotAMod)
    ensures fetched != [] && fetched[0].fileType == FileTypeMod && ChosenMods(Parsed(fetched[0]).mods, answers).Failure? ==>
      AddPlan(id, fetched, current, answers) == Failure(ChosenMods(Parsed(fetched[0]).mods, answers).error)
    ensures (fetched != [] && fetched[0].fileType == FileTypeMod && ChosenMods(Parsed(fetched[0]).mods, answers).Success?
             && answers.after != AddEnd && answers.after != AddStart && answers.after !in current.mods) ==>
      AddPlan(id, fetched, current, answers) == Failure(CouldNotFindMod + answers.after)
  {
  }

  /** addMod's insertion of the chosen mods' entries at the answered position. */
  method PlaceModKeys(modList: seq<string>, id: string, mods: seq<string>, after: string) returns (r: Option<seq<string>>)
    ensures r == Place(modList, ModKeys(id, mods), PositionOf(after))
  {
    if after == AddEnd {
      var keys := QualifyMods(id, mods);
      return Some(modList + keys);
    } else if after == AddStart {
      var keys := QualifyMods(id, mods);
      return Some(keys + modList);
    }
    var index := IndexOf(modList, after);
    if index == -1 {
      return None;
    }
    var keys := QualifyMods(id, mods);
    return Some(modList[..index + 1] + keys + modList[index + 1..]);
  }

  /** addMod's loop over the chosen maps, asking where each one goes. */
  method InsertEachMap(mapList: seq<string>, maps: seq<string>, mapAfter: seq<string>) returns (r: Result<seq<string>, string>)
    ensures r == InsertMaps(mapList, maps, mapAfter)
  {
    var list := mapList;
    for i := 0 to |maps|
      invariant i <= |mapAfter|
      invariant InsertMaps(list, maps[i..], mapAfter[i..]) == InsertMaps(mapList, maps, mapAfter)
    {
      if i >= |mapAfter| {
        return Failure(PromptClosed);
      }
      var after := mapAfter[i];
      var m := maps[i];
      if after == AddEnd {
        list := list + [m];
      } else if after == AddStart {
        list := [m] + list;
      } else {
        var index := IndexOf(list, after);
        if index == -1 {
          return Failure(CouldNotFindMap + after);
        }
        list := list[..index + 1] + [m] + list[index + 1..];
      }
      assert maps[i..][1..] == maps[i + 1..];
      assert mapAfter[i..][1..] == mapAfter[i + 1..];
    }
    assert maps[|maps|..] == [];
    return Success(list);
  }

  /** addMod's checks of the fetched item, its parse, and the manual entry and choice of mods. */
  method SelectMods(fetched: seq<WorkshopItem>, answers: AddAnswers) returns (r: Result<(ParsedWorkshopItem, seq<string>), string>)
    ensures r == Selection(fetched, answers)
  {
    if |fetched| == 0 {
      return Failure(NoItemsFound);
    }
    var item := fetched[0];
    if item.fileType != FileTypeMod {
      return Failure(NotAMod);
    }
    var parsed := Parse(item);
    var offered := parsed.mods;
    if |offered| == 0 {
      if answers.manual.None? {
        return Failure(NoParsedMods);
      }
      if |answers.manual.value| == 0 {
        return Failure(NeedOneModId);
      }
      offered := answers.manual.value;
    }
    var mods := if |offered| == 1 then offered else answers.selected;
    if |mods| == 0 {
      return Failure(NoModsSelected);
    }
    return Success((parsed, mods));
  }

  /** addMod: every change is computed first and the configuration is written only when all of it succeeded. */
  method AddMod(id: string, config: ServerConfig, fetched: Result<Fetched, string>, answers: AddAnswers) returns (r: Result<bool, string>)
    modifies config
    ensures config.eol == old(config.eol)
    ensures AddOutcome(id, fetched, old(config.keys), answers).Failure? ==>
      r == Failure(AddOutcome(id, fetched, old(config.keys), answers).error) && config.keys == old(config.keys)
    ensures AddOutcome(id, fetched, old(config.keys), answers).Success? ==>
      r == Success(true) && config.keys == Written(old(config.keys), AddOutcome(id, fetched, old(config.keys), answers).value)
  {
    if fetched.Failure? {
      return Failure(fetched.error);
    }
    var selection := SelectMods(fetched.value.items, answers);
    if selection.Failure? {
      return Failure(selection.error);
    }
    var (parsed, mods) := selection.value;

    var modList := GetFixedArray(config, KeyMods);
    var itemList := GetFixedArray(config, KeyItems);
    var mapList := GetMapList(config);
    ghost var current := Lists(itemList, modList, mapList);

    var placed := PlaceModKeys(modList, id, mods, answers.after);
    if placed.None? {
      return Failure(CouldNotFindMod + answers.after);
    }
    modList := placed.value;

    if |parsed.maps| > 0 && |answers.maps| > 0 {
      var inserted := InsertEachMap(mapList, answers.maps, answers.mapAfter);
      if inserted.Failure? {
        return Failure(inserted.error);
      }
      mapList := inserted.value;
    }

    itemList := itemList + [id];
    WriteLists(config, Lists(itemList, modList, mapList));
    return Success(true);
  }

  /** The declared children, in order, that were fetched and are not listed yet, each appended once. */
  function WithChildren(list: seq<string>, children: seq<WorkshopItemChild>, fetched: seq<WorkshopItem>): seq<string>
    decreases |children|
  {
    if children == [] then list
    else
      var child := children[0].publishedFileId;
      var next := if FindById(fetched, child).Some? && child !in list then list + [child] else list;
      WithChildren(next, children[1..], fetched)
  }

  /** Adding the children keeps the list as its prefix and adds no entry twice. */
  lemma {:induction false} WithChildrenPrefix(list: seq<string>, children: seq<WorkshopItemChild>, fetched: seq<WorkshopItem>)
    ensures |list| <= |WithChildren(list, children, fetched)|
    ensures WithChildren(list, children, fetched)[..|list|] == list
    ensures NoDuplicates(list) ==> NoDuplicates(WithChildren(list, children, fetched))
    decreases |children|
  {
    if children != [] {
      var child := children[0].publishedFileId;
      var next := if FindById(fetched, child).Some? && child !in list then list + [child] else list;
      WithChildrenPrefix(next, children[1..], fetched);
      assert next[..|list|] == list;
      if NoDuplicates(list) && next != list {
        assert NoDuplicates(next) by {
          forall i, j | 0 <= i < j < |next| ensures next[i] != next[j] {
            if j == |list| {
              assert next[i] == list[i];
            }
          }
        }
      }
    }
  }

  /** Adding the children adds exactly the declared children that were fetched. */
  lemma {:induction false} WithChildrenMembers(list: seq<string>, children: seq<WorkshopItemChild>, fetched: seq<WorkshopItem>, x: string)
    ensures x in WithChildren(list, children, fetched) <==>
      x in list || exists k | 0 <= k < |children| :: children[k].publishedFileId == x && FindById(fetched, x).Some?
    decreases |children|
  {
    if children != [] {
      var child := children[0].publishedFileId;
      var next := if FindById(fetched, child).Some? && child !in list then list + [child] else list;
      WithChildrenMembers(next, children[1..], fetched, x);
      if x in WithChildren(list, children, fetched) && x !in list && x !in next {
        var k :| 0 <= k < |children[1..]| && children[1..][k].publishedFileId == x && FindById(fetched, x).Some?;
        assert children[k + 1].publishedFileId == x;
      }
      if exists k | 0 <= k < |children| :: children[k].publishedFileId == x && FindById(fetched, x).Some? {
        var k :| 0 <= k < |children| && children[k].publishedFileId == x && FindById(fetched, x).Some?;
        if k > 0 {
          assert children[1..][k - 1].publishedFileId == x;
        }
      }
    }
  }

  /** The child loop of AddModWithoutPrompt. */
  method AddChildren(list: seq<string>, children: seq<WorkshopItemChild>, childItems: seq<WorkshopItem>) returns (r: seq<string>)
    ensures r == WithChildren(list, children, childItems)
  {
    r := list;
    for i := 0 to |children|
      invariant WithChildren(r, children[i..], childItems) == WithChildren(list, children, childItems)
    {
      var child := children[i].publishedFileId;
      var found := FindItemById(childItems, child);
      var listed := Contains(r, child);
      if found.Some? && !listed {
        r := r + [child];
      }
      assert children[i..][1..] == children[i + 1..];
    }
    assert children[|children|..] == [];
  }

  /** The lists AddModWithoutPrompt writes before adding children: every parsed mod and map, then the item ID. */
  function UnattendedLists(id: string, item: WorkshopItem, current: Lists): Lists {
    Lists(current.items + [id], current.mods + ModKeys(id, Parsed(item).mods), current.maps + Parsed(item).maps)
  }

  /** The outcomes of AddModWithoutPrompt as written: lists to write, false, or a run-time panic. */
  datatype Unattended = Adds(lists: Lists) | Refuses | Panics

  /**
   * AddModWithoutPrompt as written: an answer without items and without
   * missing IDs is indexed anyway, and the error of the child fetch is dropped
   * while its absent result is still searched.
   */
  function UnattendedAsWritten(id: string, fetched: Result<Fetched, string>, current: Lists, childFetched: Result<Fetched, string>): Unattended {
    match fetched
    case Failure(_) => Refuses
    case Success(f) =>
      if f.missing != [] then Refuses
      else if f.items == [] then Panics
      else if f.items[0].fileType != FileTypeMod then Refuses
      else if Parsed(f.items[0]).mods == [] then Refuses
      else
        var item := f.items[0];
        var base := UnattendedLists(id, item, current);
        match childFetched
        case Failure(_) => if item.children == [] then Adds(base) else Panics
        case Success(c) => Adds(base.(items := WithChildren(base.items, item.children, c.items)))
  }

  /**
   * AddModWithoutPrompt as intended: false when nothing was found, and a failed
   * child fetch adds no child instead of dereferencing its missing result.
   */
  function UnattendedPlan(id: string, fetched: Result<Fetched, string>, current: Lists, childFetched: Result<Fetched, string>): Option<Lists> {
    match fetched
    case Failure(_) => None
    case Success(f) =>
      if f.missing != [] || f.items == [] then None
      else if f.items[0].fileType != FileTypeMod then None
      else if Parsed(f.items[0]).mods == [] then None
      else
        var item := f.items[0];
        var base := UnattendedLists(id, item, current);
        var childItems := match childFetched case Success(c) => c.items case Failure(_) => [];
        Some(base.(items := WithChildren(base.items, item.children, childItems)))
  }

  /** Wherever the code as written does not panic, the corrected plan does the same. */
  lemma UnattendedAgrees(id: string, fetched: Result<Fetched, string>, current: Lists, childFetched: Result<Fetched, string>)
    ensures UnattendedAsWritten(id, fetched, current, childFetched) == Refuses ==> UnattendedPlan(id, fetched, current, childFetched) == None
    ensures UnattendedAsWritten(id, fetched, current, childFetched).Adds? ==>
      UnattendedPlan(id, fetched, current, childFetched) == Some(UnattendedAsWritten(id, fetched, current, childFetched).lists)
  {
    if fetched.Success? && childFetched.Failure? && fetched.value.items != [] {
      var item := fetched.value.items[0];
      if item.children == [] {
        assert WithChildren(current.items + [id], item.children, []) == current.items + [id];
      }
    }
  }

  /** A mod with a declared child whose fetch fails makes the code as written panic; the corrected plan adds the mod without children. */
  lemma ChildFetchErrorPanics(id: string, item: WorkshopItem, current: Lists, e: string)
    requires item.fileType == FileTypeMod && Parsed(item).mods != [] && item.children != []
    ensures UnattendedAsWritten(id, Success(Fetched([item], [])), current, Failure(e)) == Panics
    ensures UnattendedPlan(id, Success(Fetched([item], [])), current, Failure(e)) == Some(UnattendedLists(id, item, current))
  {
    WithChildrenNoneFetched(current.items + [id], item.children);
  }

  /** With nothing fetched no child is added. */
  lemma {:induction false} WithChildrenNoneFetched(list: seq<string>, children: seq<WorkshopItemChild>)
    ensures WithChildren(list, children, []) == list
    decreases |children|
  {
    if children != [] {
      WithChildrenNoneFetched(list, children[1..]);
    }
  }

  /** An answer with neither items nor missing IDs makes the code as written panic; the corrected plan returns false. */
  lemma EmptyAnswerPanics(id: string, current: Lists, childFetched: Result<Fetched, string>)
    ensures UnattendedAsWritten(id, Success(Fetched([], [])), current, childFetched) == Panics
    ensures UnattendedPlan(id, Success(Fetched([], [])), current, childFetched) == None
  {
  }

  /**
   * What the corrected AddModWithoutPrompt writes: all parsed mods as entries
   * of the item, all parsed maps, the item ID, then the fetched children not
   * already listed.
   */
  lemma UnattendedAppends(id: string, fetched: Result<Fetched, string>, current: Lists, childFetched: Result<Fetched, string>, x: string)
    requires UnattendedPlan(id, fetched, current, childFetched).Some?
    ensures fetched.Success? && fetched.value.missing == [] && fetched.value.items != []
    ensures
      var item := fetched.value.items[0];
      var r := UnattendedPlan(id, fetched, current, childFetched).value;
      var childItems := if childFetched.Success? then childFetched.value.items else [];
      && item.fileType == FileTypeMod && Parsed(item).mods != []
      && r.mods == current.mods + ModKeys(id, Parsed(item).mods)
      && r.maps == current.maps + Parsed(item).maps
      && |current.items| + 1 <= |r.items| && r.items[..|current.items| + 1] == current.items + [id]
      && (x in r.items <==>
            (x in current.items || x == id
             || exists k | 0 <= k < |item.children| :: item.children[k].publishedFileId == x && FindById(childItems, x).Some?))
  {
    var item := fetched.value.items[0];
    var childItems := if childFetched.Success? then childFetched.value.items else [];
    WithChildrenPrefix(current.items + [id], item.children, childItems);
    WithChildrenMembers(current.items + [id], item.children, childItems, x);
  }

  /** AddModWithoutPrompt, with the corrected handling of an empty answer and of a failed child fetch. */
  method AddModWithoutPrompt(id: string, config: ServerConfig, fetched: Result<Fetched, string>, childFetched: Result<Fetched, string>) returns (added: bool)
    modifies config
    ensures config.eol == old(config.eol)
    ensures added <==> UnattendedPlan(id, fetched, ConfigLists(old(config.keys)), childFetched).Some?
    ensures !added ==> config.keys == old(config.keys)
    ensures added ==> config.keys == Written(old(config.keys), UnattendedPlan(id, fetched, ConfigLists(old(config.keys)), childFetched).value)
  {
    if fetched.Failure? {
      return false;
    }
    if |fetched.value.missing| > 0 || |fetched.value.items| == 0 {
      return false;
    }
    var item := fetched.value.items[0];
    if item.fileType != FileTypeMod {
      return false;
    }

    var modList := GetFixedArray(config, KeyMods);
    var itemList := GetFixedArray(config, KeyItems);
    var mapList := GetMapList(config);
    var current := Lists(itemList, modList, mapList);

    var parsed := Parse(item);
    if |parsed.mods| == 0 {
      return false;
    }

    var childItems := if childFetched.Success? then childFetched.value.items else [];
    var lists := ExtendLists(id, current, parsed, item.children, childItems);
    assert UnattendedPlan(id, fetched, current, childFetched) == Some(lists);
    WriteLists(config, lists);
    return true;
  }

  /** The appends of AddModWithoutPrompt: mods, maps, the item ID, then its children. */
  method ExtendLists(id: string, current: Lists, parsed: ParsedWorkshopItem, children: seq<WorkshopItemChild>, childItems: seq<WorkshopItem>)
    returns (lists: Lists)
    ensures lists == Lists(WithChildren(current.items + [id], children, childItems), current.mods + ModKeys(id, parsed.mods), current.maps + parsed.maps)
  {
    var keys := QualifyMods(id, parsed.mods);
    var modList := current.mods + keys;
    var mapList := current.maps;
    if |parsed.maps| > 0 {
      mapList := mapList + parsed.maps;
    }
    var itemList := AddChildren(current.items + [id], children, childItems);
    return Lists(itemList, modList, mapList);
  }
}
