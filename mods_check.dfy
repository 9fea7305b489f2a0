/**
 * Checking a configuration for problems (interactive/mods-check.go): every
 * Workshop ID the lists mention must exist, every listed item must be
 * fetchable, every mod entry must name a mod some listed item declares and
 * every declared mod must be listed, every listed map must be declared, no
 * declared map may be enabled as a mod without being listed as a map, and
 * every dependency of a listed item must be listed too.
 *
 * The Steam lookups are one parameter, `fetch`, the outcome of fetching a list
 * of IDs; the first problem met, in the order the code checks, is the verdict.
 */
module ModsCheck {
  import opened Wrappers
  import opened Slices
  import opened Text
  import opened Ini
  import opened Items
  import opened Fetch
  import opened Shared
  import opened ModsAdd
  import opened ModsUtil
  import opened ModsUpdate

  /**
   * The outcome of fetching the items with the given IDs. Like FetchWorkshopItems
   * (`Fetch.EmptyRequest`), it answers an empty ID list with no items and nothing
   * missing, so an item without children always passes its dependency fetch.
   */
  type ItemsFetch = f: seq<string> -> Result<Fetched, string> | EmptyAnswered([], f([]))
    witness (ids: seq<string>) => Success(Fetched([], []))

  /** What the check reports before it answers false. */
  datatype Problem =
    | BadIds(ids: set<string>)                      // IDs whose own fetch failed or came back missing
    | FetchFailed(error: string)                    // fetching the item list failed
    | MissingItem(id: string)                       // the first item of the list that could not be fetched
    | UnknownMod(key: string)                       // a mod entry no listed item declares
    | UnusedMod(mod: string)                        // a declared mod without an entry
    | UnknownMap(name: string)                      // a listed map no listed item declares
    | MapNotListed(mod: string)                     // a declared map enabled as a mod but not listed as a map
    | ChildFetchFailed(item: string, error: string) // fetching an item's dependencies failed
    | MissingChild(item: string, child: string)     // the first dependency that could not be fetched
    | MissingDependency(item: string, child: string) // a dependency absent from the item list

  /** The first element of `s` that satisfies `p`. */
  function FirstWhere<T>(s: seq<T>, p: T -> bool): Option<T>
    decreases |s|
  {
    if s == [] then None
    else if p(s[0]) then Some(s[0])
    else FirstWhere(s[1..], p)
  }

  /** Nothing is found exactly when no element satisfies the predicate. */
  lemma {:induction false} FirstWhereNone<T>(s: seq<T>, p: T -> bool)
    ensures FirstWhere(s, p).None? <==> forall i | 0 <= i < |s| :: !p(s[i])
    decreases |s|
  {
    if s != [] && !p(s[0]) {
      FirstWhereNone(s[1..], p);
      assert forall i | 1 <= i < |s| :: s[i] == s[1..][i - 1];
    }
  }

  /** The element found is the one at the first index that satisfies the predicate. */
  lemma {:induction false} FirstWhereAt<T>(s: seq<T>, p: T -> bool, i: nat)
    requires i < |s| && p(s[i])
    requires forall j | 0 <= j < i :: !p(s[j])
    ensures FirstWhere(s, p) == Some(s[i])
    decreases i
  {
    if i > 0 {
      FirstWhereAt(s[1..], p, i - 1);
    }
  }

  /** The element found satisfies the predicate and is an element of the list. */
  lemma {:induction false} FirstWhereFound<T>(s: seq<T>, p: T -> bool)
    requires FirstWhere(s, p).Some?
    ensures FirstWhere(s, p).value in s && p(FirstWhere(s, p).value)
    decreases |s|
  {
    if !p(s[0]) {
      FirstWhereFound(s[1..], p);
    }
  }

  /** The Workshop item of a mod entry: the text before the backslash when there is exactly one, else the whole entry. */
  function Owner(key: string): string {
    var parts := Split(key, "\\");
    if |parts| == 2 then parts[0] else key
  }

  /** The mod ID of a mod entry: the text after the backslash when there is exactly one, else the whole entry. */
  function ModIdOf(key: string): string {
    var parts := Split(key, "\\");
    if |parts| == 2 then parts[1] else key
  }

  /** An entry with exactly one backslash is its owner, a backslash and its mod ID; any other entry is both. */
  lemma KeyParts(key: string)
    ensures Count(key, '\\') == 1 ==> Owner(key) + "\\" + ModIdOf(key) == key
    ensures Count(key, '\\') != 1 ==> Owner(key) == key && ModIdOf(key) == key
  {
    SplitCount(key, '\\');
    JoinSplit(key, "\\");
    var parts := Split(key, "\\");
    if |parts| == 2 {
      assert Join(parts, "\\") == parts[0] + "\\" + Join(parts[1..], "\\");
    }
  }

  /** The entry the add flow writes for mod `mod` of item `id` splits back into `id` and `mod`. */
  lemma ModKeyParts(id: string, mod: string)
    requires '\\' !in id && '\\' !in mod
    ensures Owner(ModKey(id, mod)) == id && ModIdOf(ModKey(id, mod)) == mod
  {
    SplitAfterPlain(id, "\\", mod);
    SplitPlain(mod, "\\");
  }

  /** Every Workshop ID the lists mention: the listed items and the owners of the mod entries. */
  function WorkshopIds(itemList: seq<string>, modList: seq<string>): set<string> {
    (set id | id in itemList) + (set key | key in modList :: Owner(key))
  }

  /** An ID passes validation when fetching it alone succeeds and reports nothing missing. */
  predicate ValidId(r: Result<Fetched, string>) {
    r.Success? && r.value.missing == []
  }

  /** The IDs among `ids` that fail validation. */
  function InvalidIds(ids: set<string>, fetch: ItemsFetch): set<string> {
    set id | id in ids && !ValidId(fetch([id]))
  }

  /** The parsed descriptions of the items, in order. */
  function ParsedAll(items: seq<WorkshopItem>): (r: seq<ParsedWorkshopItem>)
    ensures |r| == |items|
  {
    seq(|items|, i requires 0 <= i < |items| => Parsed(items[i]))
  }

  /** The mod IDs the parsed items declare, item after item. */
  function ModIds(parsed: seq<ParsedWorkshopItem>): seq<string>
    decreases |parsed|
  {
    if parsed == [] then [] else ModIds(parsed[..|parsed| - 1]) + parsed[|parsed| - 1].mods
  }

  /** The map names the parsed items declare, item after item. */
  function MapNames(parsed: seq<ParsedWorkshopItem>): seq<string>
    decreases |parsed|
  {
    if parsed == [] then [] else MapNames(parsed[..|parsed| - 1]) + parsed[|parsed| - 1].maps
  }

  /** A mod ID is gathered exactly when some item declares it. */
  lemma {:induction false} ModIdsMembers(parsed: seq<ParsedWorkshopItem>, x: string)
    ensures x in ModIds(parsed) <==> exists i | 0 <= i < |parsed| :: x in parsed[i].mods
    decreases |parsed|
  {
    if parsed != [] {
      var init := parsed[..|parsed| - 1];
      ModIdsMembers(init, x);
      assert forall i | 0 <= i < |init| :: init[i] == parsed[i];
    }
  }

  /** A map name is gathered exactly when some item declares it. */
  lemma {:induction false} MapNamesMembers(parsed: seq<ParsedWorkshopItem>, x: string)
    ensures x in MapNames(parsed) <==> exists i | 0 <= i < |parsed| :: x in parsed[i].maps
    decreases |parsed|
  {
    if parsed != [] {
      var init := parsed[..|parsed| - 1];
      MapNamesMembers(init, x);
      assert forall i | 0 <= i < |init| :: init[i] == parsed[i];
    }
  }

  /** The filter of mod entries whose mod ID is not among `modIds`. */
  function UnknownIn(modIds: seq<string>): string -> bool {
    key => ModIdOf(key) !in modIds
  }

  /** A mod entry accounts for `mod` when its part after the single backslash is `mod`, or when the whole entry is. */
  predicate Matches(key: string, mod: string) {
    var parts := Split(key, "\\");
    (|parts| == 2 && parts[1] == mod) || key == mod
  }

  /** Whether some entry of the mod list accounts for `mod`. */
  predicate Used(modList: seq<string>, mod: string) {
    exists k | 0 <= k < |modList| :: Matches(modList[k], mod)
  }

  /** The filter of declared mod IDs no entry accounts for. */
  function UnusedIn(modList: seq<string>): string -> bool {
    mod => !Used(modList, mod)
  }

  /** The filter of mod entries whose mod ID is a declared map name missing from the map list. */
  function UsedAsMap(mapList: seq<string>, mapNames: seq<string>): string -> bool {
    key => ModIdOf(key) !in mapList && ModIdOf(key) in mapNames
  }

  /** The checks on the three lists against the fetched items' declarations, in order. */
  function ListProblem(lists: Lists, parsed: seq<ParsedWorkshopItem>): Option<Problem> {
    var modIds := ModIds(parsed);
    var mapNames := MapNames(parsed);
    var unknown := FirstWhere(lists.mods, UnknownIn(modIds));
    var unused := FirstWhere(modIds, UnusedIn(lists.mods));
    var undeclared := FirstWhere(lists.maps, Absent(mapNames));
    var asMap := FirstWhere(lists.mods, UsedAsMap(lists.maps, mapNames));
    if unknown.Some? then Some(UnknownMod(unknown.value))
    else if unused.Some? then Some(UnusedMod(unused.value))
    else if undeclared.Some? then Some(UnknownMap(undeclared.value))
    else if asMap.Some? then Some(MapNotListed(ModIdOf(asMap.value)))
    else None
  }

  /** The dependency check: for each item in order, its children are fetched and must all be listed. */
  function DependencyProblem(items: seq<WorkshopItem>, itemList: seq<string>, fetch: ItemsFetch): Option<Problem>
    decreases |items|
  {
    if items == [] then None
    else
      var item := items[0];
      match fetch(ChildIds(item))
      case Failure(e) => Some(ChildFetchFailed(item.publishedFileId, e))
      case Success(children) =>
        if children.missing != [] then Some(MissingChild(item.publishedFileId, children.missing[0]))
        else
          var absent := FirstWhere(ChildIds(item), Absent(itemList));
          if absent.Some? then Some(MissingDependency(item.publishedFileId, absent.value))
          else DependencyProblem(items[1..], itemList, fetch)
  }

  /** An item without children raises no dependency problem: its empty fetch succeeds and the check moves on. */
  lemma ChildlessItemPasses(items: seq<WorkshopItem>, itemList: seq<string>, fetch: ItemsFetch)
    requires items != [] && ChildIds(items[0]) == []
    ensures DependencyProblem(items, itemList, fetch) == DependencyProblem(items[1..], itemList, fetch)
  {
  }

  /** checkForProblems on the three lists: the first problem met, or None when the check passes. */
  function Verdict(lists: Lists, fetch: ItemsFetch): Option<Problem> {
    var bad := InvalidIds(WorkshopIds(lists.items, lists.mods), fetch);
    if bad != {} then Some(BadIds(bad))
    else
      match fetch(lists.items)
      case Failure(e) => Some(FetchFailed(e))
      case Success(fetched) =>
        if fetched.missing != [] then Some(MissingItem(fetched.missing[0]))
        else
          var problem := ListProblem(lists, ParsedAll(fetched.items));
          if problem.Some? then problem else DependencyProblem(fetched.items, lists.items, fetch)
  }

  /** checkForProblems on a configuration. */
  function Check(keys: seq<ConfigKey>, fetch: ItemsFetch): Option<Problem> {
    Verdict(ConfigLists(keys), fetch)
  }

  /** Every mod entry names a mod some item declares. */
  predicate EntriesDeclared(modList: seq<string>, parsed: seq<ParsedWorkshopItem>) {
    forall key | key in modList :: exists i | 0 <= i < |parsed| :: ModIdOf(key) in parsed[i].mods
  }

  /** Every declared mod is accounted for by some entry. */
  predicate DeclaredListed(modList: seq<string>, parsed: seq<ParsedWorkshopItem>) {
    forall i, mod | 0 <= i < |parsed| && mod in parsed[i].mods :: Used(modList, mod)
  }

  /** Every listed map is declared by some item. */
  predicate MapsDeclared(mapList: seq<string>, parsed: seq<ParsedWorkshopItem>) {
    forall name | name in mapList :: exists i | 0 <= i < |parsed| :: name in parsed[i].maps
  }

  /** A mod entry whose mod ID is a declared map has that map listed. */
  predicate ModMapsListed(modList: seq<string>, mapList: seq<string>, parsed: seq<ParsedWorkshopItem>) {
    forall key, i | key in modList && 0 <= i < |parsed| && ModIdOf(key) in parsed[i].maps :: ModIdOf(key) in mapList
  }

  /** The lists agree with the declarations: every entry, name and declaration is accounted for. */
  predicate ListsAgree(lists: Lists, parsed: seq<ParsedWorkshopItem>) {
    EntriesDeclared(lists.mods, parsed) && DeclaredListed(lists.mods, parsed)
    && MapsDeclared(lists.maps, parsed) && ModMapsListed(lists.mods, lists.maps, parsed)
  }

  /** Every item's children can be fetched completely and are all on the item list. */
  predicate DependenciesListed(items: seq<WorkshopItem>, itemList: seq<string>, fetch: ItemsFetch) {
    forall i | 0 <= i < |items| ::
      ValidId(fetch(ChildIds(items[i]))) && forall c | c in ChildIds(items[i]) :: c in itemList
  }

  /** A configuration passes the check: all IDs valid, all items fetched, lists and dependencies in agreement. */
  predicate Consistent(lists: Lists, fetch: ItemsFetch) {
    (forall id | id in WorkshopIds(lists.items, lists.mods) :: ValidId(fetch([id])))
    && ValidId(fetch(lists.items))
    && ListsAgree(lists, ParsedAll(fetch(lists.items).value.items))
    && DependenciesListed(fetch(lists.items).value.items, lists.items, fetch)
  }

  /** No unknown entry is found exactly when every entry names a declared mod. */
  lemma NoUnknownMod(modList: seq<string>, parsed: seq<ParsedWorkshopItem>)
    ensures FirstWhere(modList, UnknownIn(ModIds(parsed))).None? <==> EntriesDeclared(modList, parsed)
  {
    FirstWhereNone(modList, UnknownIn(ModIds(parsed)));
    forall key | key in modList
      ensures ModIdOf(key) in ModIds(parsed) <==> exists i | 0 <= i < |parsed| :: ModIdOf(key) in parsed[i].mods
    {
      ModIdsMembers(parsed, ModIdOf(key));
    }
  }

  /** No unused mod is found exactly when every declared mod has an entry. */
  lemma NoUnusedMod(modList: seq<string>, parsed: seq<ParsedWorkshopItem>)
    ensures FirstWhere(ModIds(parsed), UnusedIn(modList)).None? <==> DeclaredListed(modList, parsed)
  {
    var modIds := ModIds(parsed);
    FirstWhereNone(modIds, UnusedIn(modList));
    if FirstWhere(modIds, UnusedIn(modList)).None? {
      forall i, mod | 0 <= i < |parsed| && mod in parsed[i].mods
        ensures Used(modList, mod)
      {
        ModIdsMembers(parsed, mod);
        var j :| 0 <= j < |modIds| && modIds[j] == mod;
        assert !UnusedIn(modList)(modIds[j]);
      }
    } else {
      var j :| 0 <= j < |modIds| && UnusedIn(modList)(modIds[j]);
      ModIdsMembers(parsed, modIds[j]);
    }
  }

  /** No undeclared map is found exactly when every listed map is declared. */
  lemma NoUnknownMap(mapList: seq<string>, parsed: seq<ParsedWorkshopItem>)
    ensures FirstWhere(mapList, Absent(MapNames(parsed))).None? <==> MapsDeclared(mapList, parsed)
  {
    FirstWhereNone(mapList, Absent(MapNames(parsed)));
    forall name | name in mapList
      ensures name in MapNames(parsed) <==> exists i | 0 <= i < |parsed| :: name in parsed[i].maps
    {
      MapNamesMembers(parsed, name);
    }
  }

  /** No entry used as an unlisted map is found exactly when every such map is listed. */
  lemma NoModAsMap(modList: seq<string>, mapList: seq<string>, parsed: seq<ParsedWorkshopItem>)
    ensures FirstWhere(modList, UsedAsMap(mapList, MapNames(parsed))).None? <==> ModMapsListed(modList, mapList, parsed)
  {
    FirstWhereNone(modList, UsedAsMap(mapList, MapNames(parsed)));
    forall key | key in modList
      ensures ModIdOf(key) in MapNames(parsed) <==> exists i | 0 <= i < |parsed| :: ModIdOf(key) in parsed[i].maps
    {
      MapNamesMembers(parsed, ModIdOf(key));
    }
  }

  /** The list checks find nothing exactly when the lists agree with the declarations. */
  lemma ListProblemNone(lists: Lists, parsed: seq<ParsedWorkshopItem>)
    ensures ListProblem(lists, parsed).None? <==> ListsAgree(lists, parsed)
  {
    NoUnknownMod(lists.mods, parsed);
    NoUnusedMod(lists.mods, parsed);
    NoUnknownMap(lists.maps, parsed);
    NoModAsMap(lists.mods, lists.maps, parsed);
  }

  /** The dependency check finds nothing exactly when every item's children are fetched and listed. */
  lemma {:induction false} DependencyProblemNone(items: seq<WorkshopItem>, itemList: seq<string>, fetch: ItemsFetch)
    ensures DependencyProblem(items, itemList, fetch).None? <==> DependenciesListed(items, itemList, fetch)
    decreases |items|
  {
    if items != [] {
      var item := items[0];
      FirstWhereNone(ChildIds(item), Absent(itemList));
      DependencyProblemNone(items[1..], itemList, fetch);
      assert forall i | 1 <= i < |items| :: items[i] == items[1..][i - 1];
      if DependenciesListed(items[1..], itemList, fetch) && ValidId(fetch(ChildIds(item)))
        && (forall c | c in ChildIds(item) :: c in itemList) {
        forall i | 0 <= i < |items|
          ensures ValidId(fetch(ChildIds(items[i]))) && forall c | c in ChildIds(items[i]) :: c in itemList
        {
          if i > 0 {
            assert items[i] == items[1..][i - 1];
          }
        }
      }
    }
  }

  /** The check passes exactly when the configuration is consistent. */
  lemma VerdictPasses(lists: Lists, fetch: ItemsFetch)
    ensures Verdict(lists, fetch).None? <==> Consistent(lists, fetch)
  {
    var ids := WorkshopIds(lists.items, lists.mods);
    var bad := InvalidIds(ids, fetch);
    if bad != {} {
      var id :| id in bad;
      assert !ValidId(fetch([id]));
      return;
    }
    forall id | id in ids
      ensures ValidId(fetch([id]))
    {
      assert id !in bad;
    }
    var r := fetch(lists.items);
    if !ValidId(r) {
      return;
    }
    var items := r.value.items;
    var parsed := ParsedAll(items);
    ListProblemNone(lists, parsed);
    DependencyProblemNone(items, lists.items, fetch);
    assert Verdict(lists, fetch) ==
      if ListProblem(lists, parsed).Some? then ListProblem(lists, parsed) else DependencyProblem(items, lists.items, fetch);
  }

  /** A reported unknown entry is on the mod list and names a mod no fetched item declares. */
  lemma UnknownModReported(lists: Lists, parsed: seq<ParsedWorkshopItem>, key: string)
    requires ListProblem(lists, parsed) == Some(UnknownMod(key))
    ensures key in lists.mods
    ensures forall i | 0 <= i < |parsed| :: ModIdOf(key) !in parsed[i].mods
  {
    FirstWhereFound(lists.mods, UnknownIn(ModIds(parsed)));
    ModIdsMembers(parsed, ModIdOf(key));
  }

  /** A reported missing dependency is a child of a fetched item that the item list lacks. */
  lemma {:induction false} MissingDependencyReported(items: seq<WorkshopItem>, itemList: seq<string>, fetch: ItemsFetch, id: string, child: string)
    requires DependencyProblem(items, itemList, fetch) == Some(MissingDependency(id, child))
    ensures child !in itemList
    ensures exists i | 0 <= i < |items| :: items[i].publishedFileId == id && child in ChildIds(items[i])
    decreases |items|
  {
    var item := items[0];
    var absent := FirstWhere(ChildIds(item), Absent(itemList));
    if absent.Some? {
      FirstWhereFound(ChildIds(item), Absent(itemList));
    } else {
      MissingDependencyReported(items[1..], itemList, fetch, id, child);
      var i :| 0 <= i < |items[1..]| && items[1..][i].publishedFileId == id && child in ChildIds(items[1..][i]);
      assert items[i + 1] == items[1..][i];
    }
  }

  /** The set of IDs to validate, gathered into a set as the code gathers them into a map. */
  method CollectIds(itemList: seq<string>, modList: seq<string>) returns (ids: set<string>)
    ensures ids == WorkshopIds(itemList, modList)
  {
    ids := {};
    for i := 0 to |itemList|
      invariant ids == set id | id in itemList[..i]
    {
      assert itemList[..i + 1] == itemList[..i] + [itemList[i]];
      ids := ids + {itemList[i]};
    }
    assert itemList[..|itemList|] == itemList;
    var owners: set<string> := {};
    for i := 0 to |modList|
      invariant owners == set key | key in modList[..i] :: Owner(key)
    {
      assert modList[..i + 1] == modList[..i] + [modList[i]];
      var parts := Split(modList[i], "\\");
      var owner := if |parts| == 2 then parts[0] else modList[i];
      assert owner == Owner(modList[i]);
      owners := owners + {owner};
    }
    assert modList[..|modList|] == modList;
    ids := ids + owners;
  }

  /** The validation of every ID, each on its own; the order in which they are visited does not matter. */
  method ValidateIds(ids: set<string>, fetch: ItemsFetch) returns (invalid: set<string>)
    ensures invalid == InvalidIds(ids, fetch)
  {
    invalid := {};
    var todo := ids;
    ghost var done: set<string> := {};
    while todo != {}
      invariant todo <= ids && done == ids - todo
      invariant invalid == InvalidIds(done, fetch)
      decreases |todo|
    {
      var id :| id in todo;
      var r := fetch([id]);
      InvalidIdsStep(done, id, fetch);
      if !ValidId(r) {
        invalid := invalid + {id};
      }
      todo := todo - {id};
      done := done + {id};
    }
  }

  /** Validating one more ID adds it to the invalid ones exactly when it fails. */
  lemma InvalidIdsStep(done: set<string>, id: string, fetch: ItemsFetch)
    ensures InvalidIds(done + {id}, fetch) ==
      InvalidIds(done, fetch) + (if ValidId(fetch([id])) then {} else {id})
  {
  }

  /** The parsed items with the mod IDs and map names they declare, gathered item after item. */
  method GatherDeclared(items: seq<WorkshopItem>) returns (parsed: seq<ParsedWorkshopItem>, modIds: seq<string>, mapNames: seq<string>)
    ensures parsed == ParsedAll(items)
    ensures modIds == ModIds(parsed) && mapNames == MapNames(parsed)
  {
    parsed, modIds, mapNames := [], [], [];
    for i := 0 to |items|
      invariant parsed == ParsedAll(items)[..i]
      invariant modIds == ModIds(parsed) && mapNames == MapNames(parsed)
    {
      var p := Parse(items[i]);
      var next := parsed + [p];
      assert next[..|next| - 1] == parsed;
      parsed := next;
      modIds := modIds + p.mods;
      mapNames := mapNames + p.maps;
    }
    assert ParsedAll(items)[..|items|] == ParsedAll(items);
  }

  /** The first mod entry whose mod ID no item declares. */
  method FindUnknownMod(modList: seq<string>, modIds: seq<string>) returns (unknown: Option<string>)
    ensures unknown == FirstWhere(modList, UnknownIn(modIds))
  {
    for i := 0 to |modList|
      invariant forall j | 0 <= j < i :: !UnknownIn(modIds)(modList[j])
    {
      var parts := Split(modList[i], "\\");
      var modId := if |parts| == 2 then parts[1] else modList[i];
      var found := Contains(modIds, modId);
      if !found {
        FirstWhereAt(modList, UnknownIn(modIds), i);
        return Some(modList[i]);
      }
    }
    FirstWhereNone(modList, UnknownIn(modIds));
    return None;
  }

  /** Whether some entry of the mod list accounts for `mod`. */
  method IsUsed(modList: seq<string>, mod: string) returns (found: bool)
    ensures found <==> Used(modList, mod)
  {
    for k := 0 to |modList|
      invariant forall j | 0 <= j < k :: !Matches(modList[j], mod)
    {
      var parts := Split(modList[k], "\\");
      if |parts| == 2 && parts[1] == mod {
        return true;
      } else if modList[k] == mod {
        return true;
      }
    }
    return false;
  }

  /** The first declared mod ID no entry accounts for. */
  method FindUnusedMod(modIds: seq<string>, modList: seq<string>) returns (unused: Option<string>)
    ensures unused == FirstWhere(modIds, UnusedIn(modList))
  {
    for i := 0 to |modIds|
      invariant forall j | 0 <= j < i :: !UnusedIn(modList)(modIds[j])
    {
      var found := IsUsed(modList, modIds[i]);
      if !found {
        FirstWhereAt(modIds, UnusedIn(modList), i);
        return Some(modIds[i]);
      }
    }
    FirstWhereNone(modIds, UnusedIn(modList));
    return None;
  }

  /** Whether some parsed item declares map `name`. */
  method DeclaredBy(parsed: seq<ParsedWorkshopItem>, name: string) returns (found: bool)
    ensures found <==> name in MapNames(parsed)
  {
    MapNamesMembers(parsed, name);
    for j := 0 to |parsed|
      invariant forall k | 0 <= k < j :: name !in parsed[k].maps
    {
      found := Contains(parsed[j].maps, name);
      if found {
        return;
      }
    }
    return false;
  }

  /** The first listed map no item declares. */
  method FindUnknownMap(mapList: seq<string>, parsed: seq<ParsedWorkshopItem>) returns (unknown: Option<string>)
    ensures unknown == FirstWhere(mapList, Absent(MapNames(parsed)))
  {
    for i := 0 to |mapList|
      invariant forall j | 0 <= j < i :: !Absent(MapNames(parsed))(mapList[j])
    {
      var found := DeclaredBy(parsed, mapList[i]);
      if !found {
        FirstWhereAt(mapList, Absent(MapNames(parsed)), i);
        return Some(mapList[i]);
      }
    }
    FirstWhereNone(mapList, Absent(MapNames(parsed)));
    return None;
  }

  /** The first mod entry whose mod ID is a declared map but not a listed one. */
  method FindModAsMap(modList: seq<string>, mapList: seq<string>, mapNames: seq<string>) returns (asMap: Option<string>)
    ensures asMap == FirstWhere(modList, UsedAsMap(mapList, mapNames))
  {
    for i := 0 to |modList|
      invariant forall j | 0 <= j < i :: !UsedAsMap(mapList, mapNames)(modList[j])
    {
      var parts := Split(modList[i], "\\");
      var modId := if |parts| == 2 then parts[1] else modList[i];
      var listed := Contains(mapList, modId);
      var declared := Contains(mapNames, modId);
      if !listed && declared {
        FirstWhereAt(modList, UsedAsMap(mapList, mapNames), i);
        return Some(modList[i]);
      }
    }
    FirstWhereNone(modList, UsedAsMap(mapList, mapNames));
    return None;
  }

  /** The checks of lines, in order: unknown entries, unused mods, undeclared maps, mods enabled as maps. */
  method CheckLists(lists: Lists, parsed: seq<ParsedWorkshopItem>, modIds: seq<string>, mapNames: seq<string>) returns (problem: Option<Problem>)
    requires modIds == ModIds(parsed) && mapNames == MapNames(parsed)
    ensures problem == ListProblem(lists, parsed)
  {
    var unknown := FindUnknownMod(lists.mods, modIds);
    if unknown.Some? {
      return Some(UnknownMod(unknown.value));
    }
    var unused := FindUnusedMod(modIds, lists.mods);
    if unused.Some? {
      return Some(UnusedMod(unused.value));
    }
    var undeclared := FindUnknownMap(lists.maps, parsed);
    if undeclared.Some? {
      return Some(UnknownMap(undeclared.value));
    }
    var asMap := FindModAsMap(lists.mods, lists.maps, mapNames);
    if asMap.Some? {
      var parts := Split(asMap.value, "\\");
      return Some(MapNotListed(if |parts| == 2 then parts[1] else asMap.value));
    }
    return None;
  }

  /** The first child of `item` missing from the item list. */
  method FindAbsentChild(item: WorkshopItem, itemList: seq<string>) returns (absent: Option<string>)
    ensures absent == FirstWhere(ChildIds(item), Absent(itemList))
  {
    var children := item.children;
    for k := 0 to |children|
      invariant forall j | 0 <= j < k :: !Absent(itemList)(ChildIds(item)[j])
    {
      var listed := Contains(itemList, children[k].publishedFileId);
      if !listed {
        FirstWhereAt(ChildIds(item), Absent(itemList), k);
        return Some(children[k].publishedFileId);
      }
    }
    FirstWhereNone(ChildIds(item), Absent(itemList));
    return None;
  }

  /** The dependency loop over the fetched items. */
  method CheckDependencies(items: seq<WorkshopItem>, itemList: seq<string>, fetch: ItemsFetch) returns (problem: Option<Problem>)
    ensures problem == DependencyProblem(items, itemList, fetch)
  {
    for i := 0 to |items|
      invariant DependencyProblem(items[i..], itemList, fetch) == DependencyProblem(items, itemList, fetch)
    {
      assert items[i..][1..] == items[i + 1..];
      var ids := GetChildIds(items[i]);
      var children := fetch(ids);
      if children.Failure? {
        return Some(ChildFetchFailed(items[i].publishedFileId, children.error));
      }
      if |children.value.missing| > 0 {
        return Some(MissingChild(items[i].publishedFileId, children.value.missing[0]));
      }
      var absent := FindAbsentChild(items[i], itemList);
      if absent.Some? {
        return Some(MissingDependency(items[i].publishedFileId, absent.value));
      }
    }
    return None;
  }

  /** checkForProblems: true exactly when no problem is met; `problem` is the one reported. */
  method CheckForProblems(config: ServerConfig, fetch: ItemsFetch) returns (ok: bool, problem: Option<Problem>)
    ensures problem == Check(config.keys, fetch)
    ensures ok <==> Consistent(ConfigLists(config.keys), fetch)
  {
    var itemList := GetFixedArray(config, KeyItems);
    var modList := GetFixedArray(config, KeyMods);
    var mapList := GetMapList(config);
    var lists := Lists(itemList, modList, mapList);
    VerdictPasses(lists, fetch);
    var ids := CollectIds(itemList, modList);
    var invalid := ValidateIds(ids, fetch);
    if invalid != {} {
      return false, Some(BadIds(invalid));
    }
    var fetched := fetch(itemList);
    if fetched.Failure? {
      return false, Some(FetchFailed(fetched.error));
    }
    if |fetched.value.missing| > 0 {
      return false, Some(MissingItem(fetched.value.missing[0]));
    }
    var parsed, modIds, mapNames := GatherDeclared(fetched.value.items);
    problem := CheckLists(lists, parsed, modIds, mapNames);
    if problem.None? {
      problem := CheckDependencies(fetched.value.items, itemList, fetch);
    }
    ok := problem.None?;
  }
}
