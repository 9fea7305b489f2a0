/**
 * Removing mods and maps (interactive/mods-remove.go): one listed Workshop
 * item with its entries and maps, every mod, every mod not needed by a listed
 * map, or every map with the items that declare them. The fetched items and
 * the prompt answers are parameters; the lists are written back joined with
 * `;` and not deduplicated.
 */
module ModsRemove {
  import opened Wrappers
  import opened Slices
  import opened Text
  import opened Ini
  import opened Items
  import opened Fetch
  import opened Shared
  import opened ModsAdd
  import opened ModsUtil
  import opened ModsUpdate

  /** The bulk options of the remove prompt. */
  const RemoveAllOption := "Remove all mods"
  const RemoveAllKeepMapsOption := "Remove all mods (keep maps)"
  const RemoveAllMapsOption := "Remove all maps"

  /** The fixed options of the remove prompt; the listed item IDs follow them. */
  function RemoveOptions(itemList: seq<string>, mapList: seq<string>): (r: seq<string>)
    ensures |r| >= 1 && r[0] == ItCmdExit
    ensures RemoveAllOption in r <==> itemList != []
    ensures RemoveAllKeepMapsOption in r <==> itemList != []
    ensures RemoveAllMapsOption in r <==> mapList != []
    ensures NoDuplicates(r)
  {
    [ItCmdExit]
    + (if itemList != [] then [RemoveAllOption, RemoveAllKeepMapsOption] else [])
    + (if mapList != [] then [RemoveAllMapsOption] else [])
  }

  /** The filter keeping the mod entries that do not belong to item `id`. */
  function NotOwnedBy(id: string): string -> bool {
    mod => !HasPrefix(mod, id + "\\")
  }

  /** The filter keeping the entries other than `id`. */
  function Other(id: string): string -> bool {
    x => x != id
  }

  /** The filter keeping the entries in `ids`. */
  function InSet(ids: set<string>): string -> bool {
    x => x in ids
  }

  /** The filter keeping the entries not in `ids`. */
  function NotInSet(ids: set<string>): string -> bool {
    x => x !in ids
  }

  /** Whether mod entry `mod` belongs to some item of `ids`. */
  predicate Owned(mod: string, ids: set<string>) {
    exists id | id in ids :: HasPrefix(mod, id + "\\")
  }

  /** The filter keeping the mod entries that belong to some item of `ids`. */
  function OwnedByAny(ids: set<string>): string -> bool {
    mod => Owned(mod, ids)
  }

  /** The filter keeping the mod entries that belong to no item of `ids`. */
  function OwnedByNone(ids: set<string>): string -> bool {
    mod => !Owned(mod, ids)
  }

  /** The lists after removing item `id`: its entries, the item ID and the maps it declares. */
  function RemovedItem(current: Lists, id: string, item: WorkshopItem): Lists {
    Lists(
      Filtered(current.items, Other(id)),
      Filtered(current.mods, NotOwnedBy(id)),
      Filtered(current.maps, Absent(Parsed(item).maps)))
  }

  /** Removing an item leaves exactly the entries that do not name it, the other items and the undeclared maps. */
  lemma RemovedItemMembers(current: Lists, id: string, item: WorkshopItem, x: string)
    ensures var r := RemovedItem(current, id, item);
      && (x in r.items <==> x in current.items && x != id)
      && (x in r.mods <==> x in current.mods && !HasPrefix(x, id + "\\"))
      && (x in r.maps <==> x in current.maps && x !in Parsed(item).maps)
  {
    FilteredMembers(current.items, Other(id), x);
    FilteredMembers(current.mods, NotOwnedBy(id), x);
    FilteredMembers(current.maps, Absent(Parsed(item).maps), x);
  }

  /** The entries of item `id` added by addMod are all gone after its removal. */
  lemma RemovedItemDropsItsMods(current: Lists, id: string, item: WorkshopItem, m: string)
    ensures ModKey(id, m) !in RemovedItem(current, id, item).mods
  {
    ModKeyOwner(id, m);
    RemovedItemMembers(current, id, item, ModKey(id, m));
  }

  /** The three writes of a single removal: mods, items, maps, joined as they are. */
  function WrittenRaw(keys: seq<ConfigKey>, lists: Lists): seq<ConfigKey> {
    var withMods := Assign(keys, KeyMods, Join(lists.mods, ";"));
    var withItems := Assign(withMods, KeyItems, Join(lists.items, ";"));
    Assign(withItems, KeyMap, Join(lists.maps, ";"))
  }

  /** removeAllMods without keeping maps: all three lists emptied. */
  function ClearedAll(keys: seq<ConfigKey>): seq<ConfigKey> {
    Assign(Assign(Assign(keys, KeyMods, ""), KeyItems, ""), KeyMap, "")
  }

  /** The filter keeping the items that declare map `m` in their description. */
  function DeclaresMap(m: string): WorkshopItem -> bool {
    item => m in Parsed(item).maps
  }

  /** The IDs of the items that pass `p`. */
  function Declaring(items: seq<WorkshopItem>, p: WorkshopItem -> bool): set<string>
    decreases |items|
  {
    if items == [] then {}
    else
      var last := items[|items| - 1];
      Declaring(items[..|items| - 1], p) + (if p(last) then {last.publishedFileId} else {})
  }

  /** The IDs of the items that declare some map of `maps`. */
  function MapUsers(items: seq<WorkshopItem>, maps: seq<string>): set<string>
    decreases |maps|
  {
    if maps == [] then {}
    else MapUsers(items, maps[..|maps| - 1]) + Declaring(items, DeclaresMap(maps[|maps| - 1]))
  }

  /** An ID is selected exactly when some item with that ID passes the filter. */
  lemma {:induction false} DeclaringMembers(items: seq<WorkshopItem>, p: WorkshopItem -> bool, id: string)
    ensures id in Declaring(items, p) <==>
      exists j | 0 <= j < |items| :: items[j].publishedFileId == id && p(items[j])
    decreases |items|
  {
    if items != [] {
      var init := items[..|items| - 1];
      var last := items[|items| - 1];
      DeclaringMembers(init, p, id);
      if id in Declaring(items, p) {
        if id in Declaring(init, p) {
          var j :| 0 <= j < |init| && init[j].publishedFileId == id && p(init[j]);
          assert items[j] == init[j];
        } else {
          assert last.publishedFileId == id && p(last);
        }
      } else {
        forall j | 0 <= j < |items|
          ensures !(items[j].publishedFileId == id && p(items[j]))
        {
          if j < |init| {
            assert init[j] == items[j];
          }
        }
      }
    }
  }

  /** The map users are the items declaring some listed map. */
  lemma {:induction false} MapUsersMembers(items: seq<WorkshopItem>, maps: seq<string>, id: string)
    ensures id in MapUsers(items, maps) <==>
      exists k | 0 <= k < |maps| :: id in Declaring(items, DeclaresMap(maps[k]))
    decreases |maps|
  {
    if maps != [] {
      var init := maps[..|maps| - 1];
      MapUsersMembers(items, init, id);
      if id in MapUsers(items, maps) {
        if id in MapUsers(items, init) {
          var k :| 0 <= k < |init| && id in Declaring(items, DeclaresMap(init[k]));
          assert maps[k] == init[k];
        }
      } else {
        forall k | 0 <= k < |maps|
          ensures id !in Declaring(items, DeclaresMap(maps[k]))
        {
          if k < |init| {
            assert init[k] == maps[k];
          }
        }
      }
    }
  }

  /** An item is a map user exactly when a fetched item with its ID declares a listed map. */
  lemma MapUser(items: seq<WorkshopItem>, maps: seq<string>, id: string)
    ensures id in MapUsers(items, maps) <==>
      exists j, k | 0 <= j < |items| && 0 <= k < |maps| :: items[j].publishedFileId == id && maps[k] in Parsed(items[j]).maps
  {
    MapUsersMembers(items, maps, id);
    if id in MapUsers(items, maps) {
      var k :| 0 <= k < |maps| && id in Declaring(items, DeclaresMap(maps[k]));
      DeclaringMembers(items, DeclaresMap(maps[k]), id);
      var j :| 0 <= j < |items| && items[j].publishedFileId == id && DeclaresMap(maps[k])(items[j]);
      assert maps[k] in Parsed(items[j]).maps;
    } else {
      forall j, k | 0 <= j < |items| && 0 <= k < |maps| && items[j].publishedFileId == id
        ensures maps[k] !in Parsed(items[j]).maps
      {
        DeclaringMembers(items, DeclaresMap(maps[k]), id);
        assert !DeclaresMap(maps[k])(items[j]);
      }
    }
  }

  /** removeAllMods keeping maps: only the items declaring a listed map and their entries stay; the map list is not touched. */
  function KeptForMaps(keys: seq<ConfigKey>, fetched: Result<Fetched, string>): seq<ConfigKey> {
    match fetched
    case Failure(_) => keys
    case Success(f) =>
      var current := ConfigLists(keys);
      var needed := MapUsers(f.items, current.maps);
      var withMods := Assign(keys, KeyMods, Join(Filtered(current.mods, OwnedByAny(needed)), ";"));
      Assign(withMods, KeyItems, Join(Filtered(current.items, InSet(needed)), ";"))
  }

  /** The three writes of removeAllMaps: the map list emptied, then the mod and item lists. */
  function MapsCleared(keys: seq<ConfigKey>, mods: seq<string>, items: seq<string>): seq<ConfigKey> {
    Assign(Assign(Assign(keys, KeyMap, ""), KeyMods, Join(mods, ";")), KeyItems, Join(items, ";"))
  }

  /** removeAllMaps: the map list emptied, and the items declaring a listed map removed with their entries. */
  function MapsRemoved(keys: seq<ConfigKey>, fetched: Result<Fetched, string>): seq<ConfigKey> {
    match fetched
    case Failure(_) => keys
    case Success(f) =>
      var current := ConfigLists(keys);
      var related := MapUsers(f.items, current.maps);
      MapsCleared(keys, Filtered(current.mods, OwnedByNone(related)), Filtered(current.items, NotInSet(related)))
  }

  /** Filtering by a predicate and by its negation splits a list: together they hold every entry exactly as often. */
  lemma {:induction false} FilteredSplit(s: seq<string>, keep: string -> bool, drop: string -> bool)
    requires forall x :: keep(x) == !drop(x)
    ensures multiset(Filtered(s, keep)) + multiset(Filtered(s, drop)) == multiset(s)
    decreases |s|
  {
    if s != [] {
      var init := s[..|s| - 1];
      FilteredSplit(init, keep, drop);
      assert s == init + [s[|s| - 1]];
    }
  }

  /**
   * Keeping the map mods and removing the maps split the item list and the mod
   * list between them: what one keeps the other removes.
   */
  lemma BulkRemovalsSplit(current: Lists, ids: set<string>)
    ensures multiset(Filtered(current.items, InSet(ids))) + multiset(Filtered(current.items, NotInSet(ids))) == multiset(current.items)
    ensures multiset(Filtered(current.mods, OwnedByAny(ids))) + multiset(Filtered(current.mods, OwnedByNone(ids))) == multiset(current.mods)
  {
    FilteredSplit(current.items, InSet(ids), NotInSet(ids));
    FilteredSplit(current.mods, OwnedByAny(ids), OwnedByNone(ids));
  }

  /**
   * Keeping the map mods keeps exactly the listed items that a fetched item
   * declaring a listed map has the ID of; removing the maps keeps the others.
   */
  lemma BulkKeepsMapUsers(current: Lists, items: seq<WorkshopItem>, x: string)
    ensures x in Filtered(current.items, InSet(MapUsers(items, current.maps))) <==>
      x in current.items
      && exists j, k | 0 <= j < |items| && 0 <= k < |current.maps| ::
           items[j].publishedFileId == x && current.maps[k] in Parsed(items[j]).maps
    ensures x in Filtered(current.items, NotInSet(MapUsers(items, current.maps))) <==>
      x in current.items && x !in MapUsers(items, current.maps)
  {
    FilteredMembers(current.items, InSet(MapUsers(items, current.maps)), x);
    FilteredMembers(current.items, NotInSet(MapUsers(items, current.maps)), x);
    MapUser(items, current.maps, x);
  }

  /** What the bulk removals write, and that a fetch error leaves every entry as it was. */
  lemma BulkRemovalsWrite(keys: seq<ConfigKey>, fetched: Result<Fetched, string>, other: string)
    ensures fetched.Failure? ==> KeptForMaps(keys, fetched) == keys && MapsRemoved(keys, fetched) == keys
    ensures Lookup(KeptForMaps(keys, fetched), KeyMap) == Lookup(keys, KeyMap)
    ensures fetched.Success? ==> Lookup(MapsRemoved(keys, fetched), KeyMap) == Some("")
    ensures Lookup(ClearedAll(keys), KeyMods) == Some("") && Lookup(ClearedAll(keys), KeyItems) == Some("")
    ensures Lookup(ClearedAll(keys), KeyMap) == Some("")
    ensures other != KeyMods && other != KeyItems && other != KeyMap ==>
      && Lookup(KeptForMaps(keys, fetched), other) == Lookup(keys, other)
      && Lookup(MapsRemoved(keys, fetched), other) == Lookup(keys, other)
      && Lookup(ClearedAll(keys), other) == Lookup(keys, other)
  {
    var k1 := Assign(keys, KeyMods, "");
    var k2 := Assign(k1, KeyItems, "");
    LookupAssign(k2, KeyMap, "");
    LookupAssignOther(k2, KeyMap, "", KeyItems);
    LookupAssign(k1, KeyItems, "");
    LookupAssignOther(k2, KeyMap, "", KeyMods);
    LookupAssignOther(k1, KeyItems, "", KeyMods);
    LookupAssign(keys, KeyMods, "");
    if other != KeyMods && other != KeyItems && other != KeyMap {
      LookupAssignOther(keys, KeyMods, "", other);
      LookupAssignOther(k1, KeyItems, "", other);
      LookupAssignOther(k2, KeyMap, "", other);
    }
    if fetched.Success? {
      var current := ConfigLists(keys);
      var ids := MapUsers(fetched.value.items, current.maps);
      var m1 := Assign(keys, KeyMods, Join(Filtered(current.mods, OwnedByAny(ids)), ";"));
      LookupAssignOther(keys, KeyMods, Join(Filtered(current.mods, OwnedByAny(ids)), ";"), KeyMap);
      LookupAssignOther(m1, KeyItems, Join(Filtered(current.items, InSet(ids)), ";"), KeyMap);
      assert MapsRemoved(keys, fetched) == MapsCleared(keys, Filtered(current.mods, OwnedByNone(ids)), Filtered(current.items, NotInSet(ids)));
      var r1 := Assign(keys, KeyMap, "");
      var r2 := Assign(r1, KeyMods, Join(Filtered(current.mods, OwnedByNone(ids)), ";"));
      LookupAssign(keys, KeyMap, "");
      LookupAssignOther(r1, KeyMods, Join(Filtered(current.mods, OwnedByNone(ids)), ";"), KeyMap);
      LookupAssignOther(r2, KeyItems, Join(Filtered(current.items, NotInSet(ids)), ";"), KeyMap);
      if other != KeyMods && other != KeyItems && other != KeyMap {
        LookupAssignOther(keys, KeyMods, Join(Filtered(current.mods, OwnedByAny(ids)), ";"), other);
        LookupAssignOther(m1, KeyItems, Join(Filtered(current.items, InSet(ids)), ";"), other);
        LookupAssignOther(keys, KeyMap, "", other);
        LookupAssignOther(r1, KeyMods, Join(Filtered(current.mods, OwnedByNone(ids)), ";"), other);
        LookupAssignOther(r2, KeyItems, Join(Filtered(current.items, NotInSet(ids)), ";"), other);
      }
    }
  }

  /** The answers of one round of the remove prompt; None is a prompt closed before it was answered. */
  datatype RemoveAnswers = RemoveAnswers(choice: Option<string>, confirmed: bool)

  /** What a round of removeMod does: nothing, remove one item, or one of the bulk removals. */
  datatype RemoveDecision = Done(exit: bool) | RemoveOne(id: string, item: WorkshopItem) | AllMods(keepMaps: bool) | AllMaps

  /**
   * removeMod's choice. With listed items the fetched items are offered; a fetch
   * error, a closed prompt or the exit option stop; a bulk option needs its
   * confirmation; an item needs to have been fetched and confirmed. With only
   * maps listed, or no item fetched, all maps are offered for removal.
   */
  function RemoveChoice(current: Lists, fetched: Result<Fetched, string>, answers: RemoveAnswers): RemoveDecision {
    if current.items == [] && current.maps == [] then Done(true)
    else if current.items != [] && fetched.Failure? then Done(true)
    else if current.items != [] && fetched.value.items != [] then
      match answers.choice
      case None => Done(true)
      case Some(id) =>
        if id == "" || id == ItCmdExit then Done(true)
        else if id == RemoveAllOption then (if answers.confirmed then AllMods(false) else Done(false))
        else if id == RemoveAllKeepMapsOption then (if answers.confirmed then AllMods(true) else Done(false))
        else if id == RemoveAllMapsOption then (if answers.confirmed then AllMaps else Done(false))
        else match FindById(fetched.value.items, id)
          case None => Done(false)
          case Some(item) => if answers.confirmed then RemoveOne(id, item) else Done(false)
    else if current.maps != [] then (if answers.confirmed then AllMaps else Done(true))
    else Done(false)
  }

  /** Whether removeMod tells its caller to stop: after removing an item, when only maps are left. */
  function RemoveExit(current: Lists, decision: RemoveDecision): bool {
    match decision
    case Done(exit) => exit
    case RemoveOne(id, item) =>
      var after := RemovedItem(current, id, item);
      after.items == [] && after.maps != []
    case AllMods(_) => true
    case AllMaps => true
  }

  /** The entries after a round; the bulk removals read the lists again and use their own fetch. */
  function Removal(keys: seq<ConfigKey>, decision: RemoveDecision, bulkFetched: Result<Fetched, string>): seq<ConfigKey>
    requires EmptyAnswered(ConfigLists(keys).items, bulkFetched)
  {
    match decision
    case Done(_) => keys
    case RemoveOne(id, item) => WrittenRaw(keys, RemovedItem(ConfigLists(keys), id, item))
    case AllMods(keepMaps) => if keepMaps then KeptForMaps(keys, bulkFetched) else ClearedAll(keys)
    case AllMaps => MapsRemoved(keys, bulkFetched)
  }

  /** Removing all maps when no item is listed always empties the map list: the bulk fetch of no IDs succeeds. */
  lemma AllMapsWithoutItems(keys: seq<ConfigKey>, bulkFetched: Result<Fetched, string>)
    requires EmptyAnswered(ConfigLists(keys).items, bulkFetched) && ConfigLists(keys).items == []
    ensures Lookup(Removal(keys, AllMaps, bulkFetched), KeyMap) == Some("")
  {
    assert bulkFetched.Success?;
    assert Removal(keys, AllMaps, bulkFetched) == MapsRemoved(keys, bulkFetched);
    BulkRemovalsWrite(keys, bulkFetched, KeyMap);
  }

  /** No round touches the configuration without the user's confirmation. */
  lemma RemoveNeedsConfirmation(current: Lists, fetched: Result<Fetched, string>, answers: RemoveAnswers)
    requires !answers.confirmed
    ensures RemoveChoice(current, fetched, answers).Done?
  {
  }

  /** A confirmed removal of a fetched listed item removes that item. */
  lemma RemoveOneChosen(current: Lists, fetched: Result<Fetched, string>, id: string)
    requires current.items != [] && fetched.Success? && fetched.value.items != []
    requires id !in [ItCmdExit, RemoveAllOption, RemoveAllKeepMapsOption, RemoveAllMapsOption, ""]
    requires id in ItemIds(fetched.value.items)
    ensures
      RemoveChoice(current, fetched, RemoveAnswers(Some(id), true)) == RemoveOne(id, FindById(fetched.value.items, id).value)
  {
  }

  /** The prompt's answer is one of its options: the fixed ones, then the listed item IDs. */
  predicate Offered(current: Lists, answers: RemoveAnswers) {
    answers.choice.Some? ==> answers.choice.value in RemoveOptions(current.items, current.maps) + current.items
  }

  /**
   * The bulk removals happen only when their option was offered. All mods are
   * removed only after their option was picked while offered; all maps are
   * removed only when the map option is offered, or when the answer picked an
   * item whose ID reads like that option.
   */
  lemma RemoveBulkOffered(current: Lists, fetched: Result<Fetched, string>, answers: RemoveAnswers)
    ensures RemoveChoice(current, fetched, answers).AllMods? ==>
      && answers.choice.Some?
      && answers.choice.value in [RemoveAllOption, RemoveAllKeepMapsOption]
      && answers.choice.value in RemoveOptions(current.items, current.maps)
    ensures RemoveChoice(current, fetched, answers).AllMaps? && answers.choice != Some(RemoveAllMapsOption) ==>
      RemoveAllMapsOption in RemoveOptions(current.items, current.maps)
    ensures RemoveChoice(current, fetched, answers).AllMaps? && Offered(current, answers) ==>
      RemoveAllMapsOption in RemoveOptions(current.items, current.maps) || RemoveAllMapsOption in current.items
  {
    if RemoveChoice(current, fetched, answers).AllMaps? && Offered(current, answers) && current.maps == [] {
      var options := RemoveOptions(current.items, current.maps);
      assert answers.choice == Some(RemoveAllMapsOption);
      assert RemoveAllMapsOption !in options;
      assert RemoveAllMapsOption in options + current.items;
    }
  }

  /** The lists of a configuration, read as getFixedArray and getMapList read them. */
  method ReadLists(config: ServerConfig) returns (lists: Lists)
    ensures lists == ConfigLists(config.keys)
  {
    var modList := GetFixedArray(config, KeyMods);
    var itemList := GetFixedArray(config, KeyItems);
    var mapList := GetMapList(config);
    return Lists(itemList, modList, mapList);
  }

  /** The three `config.Set` calls of a single removal. */
  method WriteRaw(config: ServerConfig, lists: Lists)
    modifies config
    ensures config.eol == old(config.eol)
    ensures config.keys == WrittenRaw(old(config.keys), lists)
  {
    config.Set(KeyMods, Join(lists.mods, ";"));
    config.Set(KeyItems, Join(lists.items, ";"));
    config.Set(KeyMap, Join(lists.maps, ";"));
  }

  /** The three filters of a single removal. */
  method FilterOut(current: Lists, id: string, item: WorkshopItem) returns (after: Lists)
    ensures after == RemovedItem(current, id, item)
  {
    var parsed := Parse(item);
    var modList := Filter(current.mods, NotOwnedBy(id));
    var itemList := Filter(current.items, Other(id));
    var mapList := Filter(current.maps, Absent(parsed.maps));
    return Lists(itemList, modList, mapList);
  }

  /** The single-item removal: filter the three lists and write them back joined. */
  method RemoveItem(config: ServerConfig, id: string, item: WorkshopItem) returns (exit: bool)
    modifies config
    ensures config.eol == old(config.eol)
    ensures config.keys == WrittenRaw(old(config.keys), RemovedItem(ConfigLists(old(config.keys)), id, item))
    ensures exit == RemoveExit(ConfigLists(old(config.keys)), RemoveOne(id, item))
  {
    var current := ReadLists(config);
    var after := FilterOut(current, id, item);
    assert after == RemovedItem(ConfigLists(old(config.keys)), id, item);
    WriteRaw(config, after);
    exit := after.items == [] && after.maps != [];
  }

  /** The goroutines of the bulk removals, run one after another: the IDs of the items declaring a listed map. */
  method FindMapUsers(items: seq<WorkshopItem>, maps: seq<string>) returns (ids: set<string>)
    ensures ids == MapUsers(items, maps)
  {
    ids := {};
    for i := 0 to |maps|
      invariant ids == MapUsers(items, maps[..i])
    {
      assert maps[..i + 1][..i] == maps[..i];
      ghost var before := ids;
      for j := 0 to |items|
        invariant ids == before + Declaring(items[..j], DeclaresMap(maps[i]))
      {
        assert items[..j + 1][..j] == items[..j];
        var parsed := Parse(items[j]);
        var declares := Contains(parsed.maps, maps[i]);
        if declares {
          ids := ids + {items[j].publishedFileId};
        }
      }
      assert items[..|items|] == items;
    }
    assert maps[..|maps|] == maps;
  }

  /** removeAllMods. */
  method RemoveAllMods(config: ServerConfig, keepMaps: bool, fetched: Result<Fetched, string>)
    requires keepMaps ==> EmptyAnswered(ConfigLists(config.keys).items, fetched)
    modifies config
    ensures config.eol == old(config.eol)
    ensures config.keys == if keepMaps then KeptForMaps(old(config.keys), fetched) else ClearedAll(old(config.keys))
  {
    if !keepMaps {
      config.Set(KeyMods, "");
      config.Set(KeyItems, "");
      config.Set(KeyMap, "");
      return;
    }
    var current := ReadLists(config);
    if fetched.Failure? {
      return;
    }
    var needed := FindMapUsers(fetched.value.items, current.maps);
    var itemList := Filter(current.items, InSet(needed));
    var modList := Filter(current.mods, OwnedByAny(needed));
    assert current == ConfigLists(old(config.keys));
    config.Set(KeyMods, Join(modList, ";"));
    config.Set(KeyItems, Join(itemList, ";"));
  }

  /** The three `config.Set` calls of removeAllMaps. */
  method WriteMapsCleared(config: ServerConfig, mods: seq<string>, items: seq<string>)
    modifies config
    ensures config.eol == old(config.eol)
    ensures config.keys == MapsCleared(old(config.keys), mods, items)
  {
    config.Set(KeyMap, "");
    config.Set(KeyMods, Join(mods, ";"));
    config.Set(KeyItems, Join(items, ";"));
  }

  /** removeAllMaps. */
  method RemoveAllMaps(config: ServerConfig, fetched: Result<Fetched, string>)
    requires EmptyAnswered(ConfigLists(config.keys).items, fetched)
    modifies config
    ensures config.eol == old(config.eol)
    ensures config.keys == MapsRemoved(old(config.keys), fetched)
  {
    var current := ReadLists(config);
    if fetched.Failure? {
      return;
    }
    var related := FindMapUsers(fetched.value.items, current.maps);
    var itemList := Filter(current.items, NotInSet(related));
    var modList := Filter(current.mods, OwnedByNone(related));
    ghost var keys := config.keys;
    assert current == ConfigLists(keys);
    assert MapsRemoved(keys, fetched) == MapsCleared(keys, modList, itemList);
    WriteMapsCleared(config, modList, itemList);
  }

  /** The choice of removeMod, read from the lists and the answers. */
  method ChooseRemoval(current: Lists, fetched: Result<Fetched, string>, answers: RemoveAnswers) returns (decision: RemoveDecision)
    ensures decision == RemoveChoice(current, fetched, answers)
  {
    if |current.items| == 0 && |current.maps| == 0 {
      return Done(true);
    }
    if |current.items| > 0 {
      if fetched.Failure? {
        return Done(true);
      }
      if |fetched.value.items| > 0 {
        if answers.choice.None? {
          return Done(true);
        }
        var id := answers.choice.value;
        if id == "" || id == ItCmdExit {
          return Done(true);
        }
        if id == RemoveAllOption {
          return if answers.confirmed then AllMods(false) else Done(false);
        }
        if id == RemoveAllKeepMapsOption {
          return if answers.confirmed then AllMods(true) else Done(false);
        }
        if id == RemoveAllMapsOption {
          return if answers.confirmed then AllMaps else Done(false);
        }
        var item := FindItemById(fetched.value.items, id);
        if item.None? {
          return Done(false);
        }
        if !answers.confirmed {
          return Done(false);
        }
        return RemoveOne(id, item.value);
      }
    }
    if |current.maps| > 0 {
      return if answers.confirmed then AllMaps else Done(true);
    }
    return Done(false);
  }

  /** removeMod: one round of the remove prompt; `bulkFetched` is the fetch a bulk removal makes. */
  method RemoveMod(config: ServerConfig, fetched: Result<Fetched, string>, answers: RemoveAnswers, bulkFetched: Result<Fetched, string>)
    returns (exit: bool)
    requires EmptyAnswered(ConfigLists(config.keys).items, bulkFetched)
    modifies config
    ensures config.eol == old(config.eol)
    ensures exit == RemoveExit(ConfigLists(old(config.keys)), RemoveChoice(ConfigLists(old(config.keys)), fetched, answers))
    ensures config.keys == Removal(old(config.keys), RemoveChoice(ConfigLists(old(config.keys)), fetched, answers), bulkFetched)
  {
    var current := ReadLists(config);
    var decision := ChooseRemoval(current, fetched, answers);
    match decision
    case Done(stop) =>
      return stop;
    case RemoveOne(id, item) =>
      exit := RemoveItem(config, id, item);
    case AllMods(keepMaps) =>
      RemoveAllMods(config, keepMaps, bulkFetched);
      return true;
    case AllMaps =>
      RemoveAllMaps(config, bulkFetched);
      return true;
  }
}
