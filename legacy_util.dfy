/**
 * The legacy TypeScript helpers (src/util.ts): the warnings the `check` command
 * prints about the configured mod IDs, and the filter the `add` command uses
 * before placing new mod IDs. Each warning is returned as a value, in the
 * order the source prints them; the colouring and the message text are not
 * part of the model.
 */
module LegacyUtil {
  import opened Slices
  import opened LegacyWorkshop

  /** Accepts the mod IDs that `item` does not declare. */
  function NotDeclaredBy(item: ModEntry): string -> bool {
    modId => modId !in item.modIds
  }

  /** filterExistingModIds: the listed mod IDs minus those the item declares, in list order. */
  function FilterExistingModIds(modIds: seq<string>, item: ModEntry): (r: seq<string>)
    ensures |r| <= |modIds|
  {
    Filtered(modIds, NotDeclaredBy(item))
  }

  /** Exactly the listed IDs the item does not declare survive, and a list that shares none is kept as it is. */
  lemma FilterExistingMembers(modIds: seq<string>, item: ModEntry, x: string)
    ensures x in FilterExistingModIds(modIds, item) <==> x in modIds && x !in item.modIds
    ensures (forall m | m in modIds :: m !in item.modIds) ==> FilterExistingModIds(modIds, item) == modIds
  {
    FilteredMembers(modIds, NotDeclaredBy(item), x);
    if forall m | m in modIds :: m !in item.modIds {
      FilteredAllPass(modIds, NotDeclaredBy(item));
    }
  }

  /** Accepts the mod IDs that no item declares. */
  function DeclaredByNone(items: seq<ModEntry>): string -> bool {
    modId => forall k | 0 <= k < |items| :: modId !in items[k].modIds
  }

  /** checkForUnknownMods: one warning per listed mod ID that none of the items declares. */
  function UnknownMods(modIds: seq<string>, items: seq<ModEntry>): (warned: seq<string>)
    ensures |warned| <= |modIds|
  {
    Filtered(modIds, DeclaredByNone(items))
  }

  /** A listed ID is warned about exactly when no item declares it. */
  lemma UnknownModsMembers(modIds: seq<string>, items: seq<ModEntry>, x: string)
    ensures x in UnknownMods(modIds, items) <==>
      x in modIds && forall item | item in items :: x !in item.modIds
  {
    FilteredMembers(modIds, DeclaredByNone(items), x);
    if x in modIds && DeclaredByNone(items)(x) {
      forall item | item in items ensures x !in item.modIds {
        var k :| 0 <= k < |items| && items[k] == item;
      }
    }
  }

  /** The warning about a declared mod ID that the configuration does not list. */
  datatype UnusedWarning = UnusedWarning(modId: string, title: string, workshopId: string)

  /** The warnings for one item, in the order it declares its mod IDs. */
  function ItemWarnings(modIds: seq<string>, item: ModEntry): (r: seq<UnusedWarning>)
    ensures forall w | w in r :: w.title == item.title && w.workshopId == item.workshopId
  {
    var unlisted := Filtered(item.modIds, NotIn(modIds));
    seq(|unlisted|, i requires 0 <= i < |unlisted| => UnusedWarning(unlisted[i], item.title, item.workshopId))
  }

  /** The warnings for a run of items, item after item. */
  function UnusedMods(modIds: seq<string>, entries: seq<ModEntry>): seq<UnusedWarning> {
    if entries == [] then [] else ItemWarnings(modIds, entries[0]) + UnusedMods(modIds, entries[1..])
  }

  /** checkForUnusedMods: the listed items are examined first, then their children. */
  function CheckForUnusedMods(modIds: seq<string>, items: seq<ModEntry>, children: seq<ModEntry>): seq<UnusedWarning> {
    UnusedMods(modIds, items + children)
  }

  /** One item's warnings are exactly its declared IDs that the list lacks. */
  lemma ItemWarningsMembers(modIds: seq<string>, item: ModEntry, w: UnusedWarning)
    ensures w in ItemWarnings(modIds, item) <==>
      w.modId in item.modIds && w.modId !in modIds && w.title == item.title && w.workshopId == item.workshopId
  {
    var unlisted := Filtered(item.modIds, NotIn(modIds));
    FilteredMembers(item.modIds, NotIn(modIds), w.modId);
    if w.modId in unlisted && w.title == item.title && w.workshopId == item.workshopId {
      var i :| 0 <= i < |unlisted| && unlisted[i] == w.modId;
      assert ItemWarnings(modIds, item)[i] == w;
    }
  }

  /** Every warning names an examined item and one of its declared IDs that is not listed, and every such pair is warned about. */
  lemma {:induction false} UnusedModsMembers(modIds: seq<string>, entries: seq<ModEntry>, w: UnusedWarning)
    ensures w in UnusedMods(modIds, entries) <==>
      exists k | 0 <= k < |entries| ::
        w.modId in entries[k].modIds && w.modId !in modIds &&
        w.title == entries[k].title && w.workshopId == entries[k].workshopId
    decreases |entries|
  {
    if entries != [] {
      UnusedModsMembers(modIds, entries[1..], w);
      ItemWarningsMembers(modIds, entries[0], w);
      if w in UnusedMods(modIds, entries[1..]) {
        var k :| 0 <= k < |entries[1..]| &&
          w.modId in entries[1..][k].modIds && w.modId !in modIds &&
          w.title == entries[1..][k].title && w.workshopId == entries[1..][k].workshopId;
        assert entries[k + 1] == entries[1..][k];
      }
      if exists k | 0 <= k < |entries| ::
        w.modId in entries[k].modIds && w.modId !in modIds &&
        w.title == entries[k].title && w.workshopId == entries[k].workshopId
      {
        var k :| 0 <= k < |entries| &&
          w.modId in entries[k].modIds && w.modId !in modIds &&
          w.title == entries[k].title && w.workshopId == entries[k].workshopId;
        if k > 0 {
          assert entries[1..][k - 1] == entries[k];
        }
      }
    }
  }

  /** A required item that is not among the listed ones, with the listed items that require it. */
  datatype MissingDependency = MissingDependency(child: ModEntry, dependents: seq<ModEntry>)

  /** Accepts the children whose Workshop ID no listed item has. */
  function NotAmong(items: seq<ModEntry>): ModEntry -> bool {
    (child: ModEntry) => forall k | 0 <= k < |items| :: items[k].workshopId != child.workshopId
  }

  /** Accepts the items that require the Workshop item `id`. */
  function Requiring(id: string): ModEntry -> bool {
    (item: ModEntry) => id in item.children
  }

  /** checkForUnusedDependencies: the children missing from the listed items, in the order they were fetched. */
  function CheckForUnusedDependencies(items: seq<ModEntry>, children: seq<ModEntry>): (r: seq<MissingDependency>)
    ensures |r| <= |children|
  {
    var missing := Filtered(children, NotAmong(items));
    seq(|missing|, i requires 0 <= i < |missing| =>
      MissingDependency(missing[i], Filtered(items, Requiring(missing[i].workshopId))))
  }

  /** A report is given for a child exactly when no listed item has its Workshop ID. */
  lemma MissingChildReported(items: seq<ModEntry>, children: seq<ModEntry>, child: ModEntry)
    ensures (exists m | m in CheckForUnusedDependencies(items, children) :: m.child == child) <==>
      child in children && forall item | item in items :: item.workshopId != child.workshopId
  {
    var missing := Filtered(children, NotAmong(items));
    var r := CheckForUnusedDependencies(items, children);
    FilteredMembers(children, NotAmong(items), child);
    if child in missing {
      var i :| 0 <= i < |missing| && missing[i] == child;
      assert r[i].child == child;
    }
    if exists m | m in r :: m.child == child {
      var m :| m in r && m.child == child;
      var i :| 0 <= i < |r| && r[i] == m;
      assert missing[i] == child;
    }
    if child in children && forall item | item in items :: item.workshopId != child.workshopId {
      assert forall k | 0 <= k < |items| :: items[k] in items;
    }
  }

  /** The dependents named in a report are exactly the listed items that require that child. */
  lemma DependentsReported(items: seq<ModEntry>, children: seq<ModEntry>, m: MissingDependency, d: ModEntry)
    requires m in CheckForUnusedDependencies(items, children)
    ensures d in m.dependents <==> d in items && m.child.workshopId in d.children
  {
    var missing := Filtered(children, NotAmong(items));
    var r := CheckForUnusedDependencies(items, children);
    var i :| 0 <= i < |r| && r[i] == m;
    assert m.dependents == Filtered(items, Requiring(missing[i].workshopId));
    FilteredMembers(items, Requiring(m.child.workshopId), d);
  }

  /** The listed items' warnings all come before the children's. */
  lemma {:induction false} UnusedModsConcat(modIds: seq<string>, a: seq<ModEntry>, b: seq<ModEntry>)
    ensures UnusedMods(modIds, a + b) == UnusedMods(modIds, a) + UnusedMods(modIds, b)
    decreases |a|
  {
    if a == [] {
      assert a + b == b;
    } else {
      UnusedModsConcat(modIds, a[1..], b);
      assert (a + b)[1..] == a[1..] + b;
    }
  }
}
