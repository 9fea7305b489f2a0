/**
 * The list arithmetic of the legacy TypeScript `add` and `remove` commands
 * (src/index.ts). The prompt answers, the fetched item and the installed items
 * are parameters; the config is the object readServerConfig returned, so it
 * holds `Mods` and `WorkshopItems`. Lists are read with the corrected
 * getFromServerConfig, which agrees with the reader as written wherever the
 * menu's first reads let the program reach add or remove.
 */
module LegacyIndex {
  import opened Wrappers
  import opened Slices
  import opened Text
  import opened LegacyWorkshop
  import opened LegacyUtil
  import opened LegacyIni

  /** The answer that puts new mod IDs at the head of `Mods`. */
  const StartOfList := "__pzmod__start__of__list__"

  /** The answer that puts new mod IDs at the tail of `Mods`. */
  const EndOfList := "__pzmod__end__of__list__"

  /** The new `Mods` list: the listed IDs minus the item's own, with the selection placed as answered. */
  function PlacedMods(modIds: seq<string>, item: ModEntry, newModIds: seq<string>, addAfter: string): seq<string> {
    var withoutExisting := FilterExistingModIds(modIds, item);
    if addAfter == EndOfList then withoutExisting + newModIds
    else if addAfter == StartOfList then newModIds + withoutExisting
    else
      var at := FirstIndexOf(withoutExisting, addAfter) + 1;
      withoutExisting[..at] + newModIds + withoutExisting[at..]
  }

  /**
   * The selection goes last for the end answer, first for the start answer,
   * right after the first occurrence of a listed anchor, and first when the
   * anchor is not in the list (the index -1 plus one is the head).
   */
  lemma PlacedModsWhere(modIds: seq<string>, item: ModEntry, newModIds: seq<string>, addAfter: string)
    ensures var w := FilterExistingModIds(modIds, item);
      var r := PlacedMods(modIds, item, newModIds, addAfter);
      |r| == |w| + |newModIds| &&
      (addAfter == EndOfList ==> r[..|w|] == w && r[|w|..] == newModIds) &&
      (addAfter != EndOfList && (addAfter == StartOfList || addAfter !in w) ==>
        r[..|newModIds|] == newModIds && r[|newModIds|..] == w) &&
      (addAfter != EndOfList && addAfter != StartOfList && addAfter in w ==>
        var i := FirstIndexOf(w, addAfter);
        r[..i + 1] == w[..i + 1] && r[i] == addAfter && addAfter !in r[..i] &&
        r[i + 1..i + 1 + |newModIds|] == newModIds && r[i + 1 + |newModIds|..] == w[i + 1..])
  {
    var w := FilterExistingModIds(modIds, item);
    var r := PlacedMods(modIds, item, newModIds, addAfter);
    if addAfter != EndOfList && addAfter != StartOfList {
      var i := FirstIndexOf(w, addAfter);
      var at := i + 1;
      assert r == w[..at] + newModIds + w[at..];
      if i >= 0 {
        assert r[..at] == w[..at];
        assert r[..i] == w[..i];
      } else {
        assert w[..0] == [];
        assert w[0..] == w;
      }
    }
  }

  /** The new list holds the selection and the listed IDs the item does not declare, and nothing else. */
  lemma PlacedModsMembers(modIds: seq<string>, item: ModEntry, newModIds: seq<string>, addAfter: string, x: string)
    ensures x in PlacedMods(modIds, item, newModIds, addAfter) <==>
      x in newModIds || (x in modIds && x !in item.modIds)
  {
    var w := FilterExistingModIds(modIds, item);
    FilterExistingMembers(modIds, item, x);
    if addAfter != EndOfList && addAfter != StartOfList {
      var at := FirstIndexOf(w, addAfter) + 1;
      assert w == w[..at] + w[at..];
      assert x in w <==> x in w[..at] || x in w[at..];
    }
  }

  /** The `WorkshopItems` write of the add branch: the item ID is appended when the list lacks it. */
  function ListItem(c: ServerConfig, workshopId: string): ServerConfig
    requires Has(c, "WorkshopItems")
  {
    var workshopIds := GetFromServerConfig(c, "WorkshopItems").value;
    if workshopId in workshopIds then c
    else SetValue(c, "WorkshopItems", Join(workshopIds + [workshopId], ";"))
  }

  /** The item ID ends up listed once more if it was missing, and no other key changes. */
  lemma ListItemEffect(c: ServerConfig, workshopId: string, other: string)
    requires Has(c, "WorkshopItems") && workshopId != "" && ';' !in workshopId
    ensures var workshopIds := GetFromServerConfig(c, "WorkshopItems").value;
      var r := ListItem(c, workshopId);
      Keys(r) == Keys(c) &&
      GetFromServerConfig(r, "WorkshopItems") ==
        Success(if workshopId in workshopIds then workshopIds else workshopIds + [workshopId]) &&
      (other != "WorkshopItems" ==> Lookup(r, other) == Lookup(c, other))
  {
    var workshopIds := GetFromServerConfig(c, "WorkshopItems").value;
    ReadListClean(c, "WorkshopItems");
    if workshopId !in workshopIds {
      var text := Join(workshopIds + [workshopId], ";");
      SetValueOnly(c, "WorkshopItems", text, other);
      assert CleanList(workshopIds + [workshopId]);
      SetThenGet(c, "WorkshopItems", Lookup(c, "WorkshopItems").value.comments, workshopIds + [workshopId]);
    }
  }

  /**
   * The mods menu reads both lists with the reader as written before it offers
   * add or remove: those reads succeed exactly when both lists are held as text,
   * and then they read what the corrected reader reads.
   */
  lemma MenuReadsAsWritten(c: ServerConfig)
    requires IsValidServerConfig(c)
    ensures GetFromServerConfigAsWritten(c, "Mods").Success? && GetFromServerConfigAsWritten(c, "WorkshopItems").Success?
      <==> TextValued(c, "Mods") && TextValued(c, "WorkshopItems")
    ensures TextValued(c, "Mods") && TextValued(c, "WorkshopItems") ==>
      GetFromServerConfigAsWritten(c, "Mods") == GetFromServerConfig(c, "Mods") &&
      GetFromServerConfigAsWritten(c, "WorkshopItems") == GetFromServerConfig(c, "WorkshopItems")
  {
    AsWrittenReadAgrees(c, "Mods");
    AsWrittenReadAgrees(c, "WorkshopItems");
  }

  /** The add branch, from the answers on: nothing changes for an empty selection; otherwise the item is listed once and `Mods` rewritten. */
  function AddMod(c: ServerConfig, item: ModEntry, newModIds: seq<string>, addAfter: string): ServerConfig
    requires IsValidServerConfig(c)
  {
    var modIds := GetFromServerConfig(c, "Mods").value;
    if newModIds == [] then c
    else
      var listed := ListItem(c, item.workshopId);
      assert Has(listed, "Mods") by {
        var workshopIds := GetFromServerConfig(c, "WorkshopItems").value;
        if item.workshopId !in workshopIds {
          SetValueOnly(c, "WorkshopItems", Join(workshopIds + [item.workshopId], ";"), "Mods");
        }
      }
      SetValue(listed, "Mods", Join(PlacedMods(modIds, item, newModIds, addAfter), ";"))
  }

  /**
   * After a non-empty selection the item ID is in `WorkshopItems` exactly once
   * more than before if it was missing and the list is unchanged otherwise,
   * `Mods` reads back as the placed list, and every other key is unchanged.
   */
  lemma AddModLists(c: ServerConfig, item: ModEntry, newModIds: seq<string>, addAfter: string, other: string)
    requires IsValidServerConfig(c) && newModIds != []
    requires item.workshopId != "" && ';' !in item.workshopId && CleanList(newModIds)
    ensures var modIds := GetFromServerConfig(c, "Mods").value;
      var workshopIds := GetFromServerConfig(c, "WorkshopItems").value;
      var r := AddMod(c, item, newModIds, addAfter);
      Keys(r) == Keys(c) &&
      GetFromServerConfig(r, "WorkshopItems") ==
        Success(if item.workshopId in workshopIds then workshopIds else workshopIds + [item.workshopId]) &&
      GetFromServerConfig(r, "Mods") == Success(PlacedMods(modIds, item, newModIds, addAfter)) &&
      (other != "Mods" && other != "WorkshopItems" ==> Lookup(r, other) == Lookup(c, other))
  {
    var modIds := GetFromServerConfig(c, "Mods").value;
    ReadListClean(c, "Mods");
    var listed := ListItem(c, item.workshopId);
    ListItemEffect(c, item.workshopId, "Mods");
    ListItemEffect(c, item.workshopId, other);
    var placed := PlacedMods(modIds, item, newModIds, addAfter);
    assert CleanList(placed) by {
      forall i | 0 <= i < |placed| ensures placed[i] != "" && ';' !in placed[i] {
        PlacedModsMembers(modIds, item, newModIds, addAfter, placed[i]);
      }
    }
    SetValueOnly(listed, "Mods", Join(placed, ";"), "WorkshopItems");
    SetValueOnly(listed, "Mods", Join(placed, ";"), other);
    SetThenGet(listed, "Mods", Lookup(listed, "Mods").value.comments, placed);
  }

  /** Both lists are held as text after an add that started from text, so the menu's next reads succeed. */
  lemma AddModKeepsText(c: ServerConfig, item: ModEntry, newModIds: seq<string>, addAfter: string)
    requires IsValidServerConfig(c) && TextValued(c, "Mods") && TextValued(c, "WorkshopItems")
    ensures var r := AddMod(c, item, newModIds, addAfter);
      IsValidServerConfig(r) && TextValued(r, "Mods") && TextValued(r, "WorkshopItems")
  {
    if newModIds != [] {
      var modIds := GetFromServerConfig(c, "Mods").value;
      var workshopIds := GetFromServerConfig(c, "WorkshopItems").value;
      var listed := ListItem(c, item.workshopId);
      if item.workshopId !in workshopIds {
        var text := Join(workshopIds + [item.workshopId], ";");
        SetValueOnly(c, "WorkshopItems", text, "Mods");
        SetValueOnly(c, "WorkshopItems", text, "PublicName");
      }
      var placed := Join(PlacedMods(modIds, item, newModIds, addAfter), ";");
      SetValueOnly(listed, "Mods", placed, "WorkshopItems");
      SetValueOnly(listed, "Mods", placed, "PublicName");
    }
  }

  /** An empty selection writes nothing. */
  lemma AddNothingSelected(c: ServerConfig, item: ModEntry, addAfter: string)
    requires IsValidServerConfig(c)
    ensures AddMod(c, item, [], addAfter) == c
  {
  }

  /** Accepts the items whose Workshop ID was selected. */
  function SelectedIn(workshopIds: seq<string>): ModEntry -> bool {
    (item: ModEntry) => item.workshopId in workshopIds
  }

  /** Accepts the mod IDs in the configured list. */
  function ListedIn(modIds: seq<string>): string -> bool {
    modId => modId in modIds
  }

  /** The reduce over the chosen items: each one's declared IDs that are listed, item after item. */
  function DeclaredListed(chosen: seq<ModEntry>, modIds: seq<string>): seq<string>
    decreases |chosen|
  {
    if chosen == [] then []
    else
      var last := chosen[|chosen| - 1];
      DeclaredListed(chosen[..|chosen| - 1], modIds) + Filtered(last.modIds, ListedIn(modIds))
  }

  /** modIdsToFilter of the remove branch. */
  function ModIdsToFilter(items: seq<ModEntry>, workshopIds: seq<string>, modIds: seq<string>): seq<string> {
    DeclaredListed(Filtered(items, SelectedIn(workshopIds)), modIds)
  }

  /** The reduce collects exactly the listed IDs that some chosen item declares. */
  lemma {:induction false} DeclaredListedMembers(chosen: seq<ModEntry>, modIds: seq<string>, x: string)
    ensures x in DeclaredListed(chosen, modIds) <==>
      x in modIds && exists k | 0 <= k < |chosen| :: x in chosen[k].modIds
    decreases |chosen|
  {
    if chosen != [] {
      var init := chosen[..|chosen| - 1];
      var last := chosen[|chosen| - 1];
      DeclaredListedMembers(init, modIds, x);
      FilteredMembers(last.modIds, ListedIn(modIds), x);
      if exists k | 0 <= k < |chosen| :: x in chosen[k].modIds {
        var k :| 0 <= k < |chosen| && x in chosen[k].modIds;
        if k < |init| {
          assert init[k] == chosen[k];
        }
      }
      if exists k | 0 <= k < |init| :: x in init[k].modIds {
        var k :| 0 <= k < |init| && x in init[k].modIds;
        assert chosen[k] == init[k];
      }
    }
  }

  /** An ID is removed from `Mods` exactly when it is listed and a selected, installed item declares it. */
  lemma ModIdsToFilterMembers(items: seq<ModEntry>, workshopIds: seq<string>, modIds: seq<string>, x: string)
    ensures x in ModIdsToFilter(items, workshopIds, modIds) <==>
      x in modIds && exists item | item in items :: item.workshopId in workshopIds && x in item.modIds
  {
    var chosen := Filtered(items, SelectedIn(workshopIds));
    DeclaredListedMembers(chosen, modIds, x);
    if exists k | 0 <= k < |chosen| :: x in chosen[k].modIds {
      var k :| 0 <= k < |chosen| && x in chosen[k].modIds;
      FilteredMembers(items, SelectedIn(workshopIds), chosen[k]);
    }
    if exists item | item in items :: item.workshopId in workshopIds && x in item.modIds {
      var item :| item in items && item.workshopId in workshopIds && x in item.modIds;
      FilteredMembers(items, SelectedIn(workshopIds), item);
      var k :| 0 <= k < |chosen| && chosen[k] == item;
    }
  }

  /** The remove branch, from the answer on: nothing changes for an empty selection. */
  function RemoveMods(c: ServerConfig, items: seq<ModEntry>, workshopIds: seq<string>): ServerConfig
    requires IsValidServerConfig(c)
  {
    if workshopIds == [] then c
    else
      var modIds := GetFromServerConfig(c, "Mods").value;
      var toFilter := ModIdsToFilter(items, workshopIds, modIds);
      var modsWritten := SetValue(c, "Mods", Join(Filtered(modIds, NotIn(toFilter)), ";"));
      assert Has(modsWritten, "WorkshopItems") by {
        SetValueOnly(c, "Mods", Join(Filtered(modIds, NotIn(toFilter)), ";"), "WorkshopItems");
      }
      var listed := GetFromServerConfig(modsWritten, "WorkshopItems").value;
      SetValue(modsWritten, "WorkshopItems", Join(Filtered(listed, NotIn(workshopIds)), ";"))
  }

  /**
   * After a non-empty selection, `Mods` reads back as the old list, in order,
   * without the IDs to filter, `WorkshopItems` as the old list without the
   * selected IDs, and every other key is unchanged.
   */
  lemma RemoveModsLists(c: ServerConfig, items: seq<ModEntry>, workshopIds: seq<string>, other: string)
    requires IsValidServerConfig(c) && workshopIds != []
    ensures var modIds := GetFromServerConfig(c, "Mods").value;
      var listed := GetFromServerConfig(c, "WorkshopItems").value;
      var r := RemoveMods(c, items, workshopIds);
      Keys(r) == Keys(c) &&
      GetFromServerConfig(r, "Mods") == Success(Filtered(modIds, NotIn(ModIdsToFilter(items, workshopIds, modIds)))) &&
      GetFromServerConfig(r, "WorkshopItems") == Success(Filtered(listed, NotIn(workshopIds))) &&
      (other != "Mods" && other != "WorkshopItems" ==> Lookup(r, other) == Lookup(c, other))
  {
    var modIds := GetFromServerConfig(c, "Mods").value;
    var toFilter := ModIdsToFilter(items, workshopIds, modIds);
    var kept := Filtered(modIds, NotIn(toFilter));
    ReadListClean(c, "Mods");
    ReadListClean(c, "WorkshopItems");
    assert CleanList(kept) by {
      forall i | 0 <= i < |kept| ensures kept[i] != "" && ';' !in kept[i] {
        FilteredMembers(modIds, NotIn(toFilter), kept[i]);
      }
    }
    var modsWritten := SetValue(c, "Mods", Join(kept, ";"));
    SetValueOnly(c, "Mods", Join(kept, ";"), "WorkshopItems");
    SetValueOnly(c, "Mods", Join(kept, ";"), other);
    SetThenGet(c, "Mods", Lookup(c, "Mods").value.comments, kept);
    var listed := GetFromServerConfig(modsWritten, "WorkshopItems").value;
    assert listed == GetFromServerConfig(c, "WorkshopItems").value;
    var remaining := Filtered(listed, NotIn(workshopIds));
    assert CleanList(remaining) by {
      forall i | 0 <= i < |remaining| ensures remaining[i] != "" && ';' !in remaining[i] {
        FilteredMembers(listed, NotIn(workshopIds), remaining[i]);
      }
    }
    SetValueOnly(modsWritten, "WorkshopItems", Join(remaining, ";"), "Mods");
    SetValueOnly(modsWritten, "WorkshopItems", Join(remaining, ";"), other);
    SetThenGet(modsWritten, "WorkshopItems", Lookup(modsWritten, "WorkshopItems").value.comments, remaining);
  }

  /** Both lists are held as text after a remove that started from text, so the menu's next reads succeed. */
  lemma RemoveModsKeepsText(c: ServerConfig, items: seq<ModEntry>, workshopIds: seq<string>)
    requires IsValidServerConfig(c) && TextValued(c, "Mods") && TextValued(c, "WorkshopItems")
    ensures var r := RemoveMods(c, items, workshopIds);
      IsValidServerConfig(r) && TextValued(r, "Mods") && TextValued(r, "WorkshopItems")
  {
    if workshopIds != [] {
      var modIds := GetFromServerConfig(c, "Mods").value;
      var kept := Join(Filtered(modIds, NotIn(ModIdsToFilter(items, workshopIds, modIds))), ";");
      var modsWritten := SetValue(c, "Mods", kept);
      SetValueOnly(c, "Mods", kept, "WorkshopItems");
      SetValueOnly(c, "Mods", kept, "PublicName");
      var listed := GetFromServerConfig(modsWritten, "WorkshopItems").value;
      var remaining := Join(Filtered(listed, NotIn(workshopIds)), ";");
      SetValueOnly(modsWritten, "WorkshopItems", remaining, "Mods");
      SetValueOnly(modsWritten, "WorkshopItems", remaining, "PublicName");
    }
  }

  /** An empty selection writes nothing. */
  lemma RemoveNothingSelected(c: ServerConfig, items: seq<ModEntry>)
    requires IsValidServerConfig(c)
    ensures RemoveMods(c, items, []) == c
  {
  }

  /**
   * What stays in `Mods` is exactly the listed IDs that no selected, installed
   * item declares, and what stays in `WorkshopItems` is exactly the listed IDs
   * that were not selected.
   */
  lemma RemoveModsMembers(c: ServerConfig, items: seq<ModEntry>, workshopIds: seq<string>, x: string)
    requires IsValidServerConfig(c) && workshopIds != []
    ensures var modIds := GetFromServerConfig(c, "Mods").value;
      var listed := GetFromServerConfig(c, "WorkshopItems").value;
      var r := RemoveMods(c, items, workshopIds);
      GetFromServerConfig(r, "Mods").Success? && GetFromServerConfig(r, "WorkshopItems").Success? &&
      (x in GetFromServerConfig(r, "Mods").value <==>
        x in modIds && forall item | item in items && item.workshopId in workshopIds :: x !in item.modIds) &&
      (x in GetFromServerConfig(r, "WorkshopItems").value <==> x in listed && x !in workshopIds)
  {
    var modIds := GetFromServerConfig(c, "Mods").value;
    var listed := GetFromServerConfig(c, "WorkshopItems").value;
    var toFilter := ModIdsToFilter(items, workshopIds, modIds);
    RemoveModsLists(c, items, workshopIds, "Mods");
    FilteredMembers(modIds, NotIn(toFilter), x);
    ModIdsToFilterMembers(items, workshopIds, modIds, x);
    FilteredMembers(listed, NotIn(workshopIds), x);
  }
}
