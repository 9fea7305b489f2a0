/**
 * Steam Workshop items (steam/items.go): the item record returned by the Steam
 * API, the reading of mod IDs and map folders out of an item's description, the
 * IDs of its children, its page URL and the lookup of an item by ID.
 */
module Items {
  import opened Wrappers
  import opened Slices
  import opened Text

  /** An unsigned 8-bit field of the API record. */
  type Uint8 = x: int | 0 <= x < 256

  datatype WorkshopItemChild = WorkshopItemChild(publishedFileId: string, fileType: int)

  /** One row of the API's answer; `result == 1` means the item exists. */
  datatype WorkshopItem = WorkshopItem(
    result: Uint8,
    fileType: Uint8,
    fileSize: int,
    publishedFileId: string,
    creator: string,
    description: string,
    title: string,
    banned: bool,
    children: seq<WorkshopItemChild>)

  datatype ParsedWorkshopItem = ParsedWorkshopItem(mods: seq<string>, maps: seq<string>)

  const ModIdPrefix := "Mod ID: "
  const ModIdAltPrefix := "ModID: "
  const MapFolderPrefix := "Map Folder: "

  /** What one description line declares. */
  datatype LineKind = ModLine(id: string) | MapLine(name: string) | Other

  /**
   * A description line, trimmed of white space, declares a mod when it starts
   * with "Mod ID: " or "ModID: " (tried in that order) and a map when it starts
   * with "Map Folder: "; the declared name is the rest of the line.
   */
  function Classify(raw: string): LineKind
  {
    var line := TrimSpace(raw);
    if HasPrefix(line, ModIdPrefix) then ModLine(TrimPrefix(line, ModIdPrefix))
    else if HasPrefix(line, ModIdAltPrefix) then ModLine(TrimPrefix(line, ModIdAltPrefix))
    else if HasPrefix(line, MapFolderPrefix) then MapLine(TrimPrefix(line, MapFolderPrefix))
    else Other
  }

  /** The outcome of Classify in terms of the prefixes of the trimmed line. */
  lemma ClassifyPrefixes(raw: string)
    ensures var line := TrimSpace(raw); var r := Classify(raw);
      && (r.ModLine? <==> HasPrefix(line, ModIdPrefix) || HasPrefix(line, ModIdAltPrefix))
      && (r.MapLine? <==> !r.ModLine? && HasPrefix(line, MapFolderPrefix))
      && (r.ModLine? ==> ModIdPrefix + r.id == line || ModIdAltPrefix + r.id == line)
      && (r.MapLine? ==> MapFolderPrefix + r.name == line)
  {
  }

  function DescriptionLines(item: WorkshopItem): seq<string> {
    Split(item.description, "\n")
  }

  /** What each description line declares, line by line. */
  function Kinds(lines: seq<string>): (r: seq<LineKind>)
    ensures |r| == |lines|
  {
    if lines == [] then [] else [Classify(lines[0])] + Kinds(lines[1..])
  }

  lemma {:induction false} KindsAt(lines: seq<string>, i: nat)
    requires i < |lines|
    ensures Kinds(lines)[i] == Classify(lines[i])
  {
    if i > 0 {
      KindsAt(lines[1..], i - 1);
    }
  }

  /** The mod IDs declared by the first `n` lines, in line order, repeats kept. */
  function ModsUpTo(kinds: seq<LineKind>, n: nat): seq<string>
    requires n <= |kinds|
  {
    if n == 0 then []
    else
      var prev := ModsUpTo(kinds, n - 1);
      if kinds[n - 1].ModLine? then prev + [kinds[n - 1].id] else prev
  }

  /** The map folders declared by the first `n` lines, in line order, repeats kept. */
  function MapsUpTo(kinds: seq<LineKind>, n: nat): seq<string>
    requires n <= |kinds|
  {
    if n == 0 then []
    else
      var prev := MapsUpTo(kinds, n - 1);
      if kinds[n - 1].MapLine? then prev + [kinds[n - 1].name] else prev
  }

  /** The mods declared by the whole description, in line order, repeats kept. */
  function DeclaredMods(item: WorkshopItem): seq<string> {
    var kinds := Kinds(DescriptionLines(item));
    ModsUpTo(kinds, |kinds|)
  }

  /** The maps declared by the whole description, in line order, repeats kept. */
  function DeclaredMaps(item: WorkshopItem): seq<string> {
    var kinds := Kinds(DescriptionLines(item));
    MapsUpTo(kinds, |kinds|)
  }

  /** The parse of an item: declared mods and maps, each without repeats. */
  function Parsed(item: WorkshopItem): (r: ParsedWorkshopItem)
    ensures NoDuplicates(r.mods) && NoDuplicates(r.maps)
  {
    ParsedWorkshopItem(Deduped(DeclaredMods(item)), Deduped(DeclaredMaps(item)))
  }

  /** WorkshopItem.Parse: one pass over the description lines, then a dedupe of each list. */
  method Parse(item: WorkshopItem) returns (parsed: ParsedWorkshopItem)
    ensures parsed == Parsed(item)
  {
    var mods: seq<string> := [];
    var maps: seq<string> := [];
    var lines := Split(item.description, "\n");
    ghost var kinds := Kinds(lines);
    for i := 0 to |lines|
      invariant mods == ModsUpTo(kinds, i)
      invariant maps == MapsUpTo(kinds, i)
    {
      var line := TrimSpace(lines[i]);
      KindsAt(lines, i);
      if HasPrefix(line, ModIdPrefix) {
        assert kinds[i] == ModLine(TrimPrefix(line, ModIdPrefix));
        mods := mods + [TrimPrefix(line, ModIdPrefix)];
      } else if HasPrefix(line, ModIdAltPrefix) {
        assert kinds[i] == ModLine(TrimPrefix(line, ModIdAltPrefix));
        mods := mods + [TrimPrefix(line, ModIdAltPrefix)];
      } else if HasPrefix(line, MapFolderPrefix) {
        assert kinds[i] == MapLine(TrimPrefix(line, MapFolderPrefix));
        maps := maps + [TrimPrefix(line, MapFolderPrefix)];
      } else {
        assert kinds[i] == Other;
      }
    }
    assert mods == DeclaredMods(item) && maps == DeclaredMaps(item);
    var dedupedMods := Dedupe(mods);
    var dedupedMaps := Dedupe(maps);
    assert dedupedMods == Parsed(item).mods && dedupedMaps == Parsed(item).maps;
    parsed := ParsedWorkshopItem(dedupedMods, dedupedMaps);
  }

  /** A mod ID is collected exactly when some line among the first `n` declares it. */
  lemma {:induction false} ModsUpToDeclared(kinds: seq<LineKind>, n: nat, x: string)
    requires n <= |kinds|
    ensures x in ModsUpTo(kinds, n) <==> exists i | 0 <= i < n :: kinds[i] == ModLine(x)
  {
    if n > 0 {
      ModsUpToDeclared(kinds, n - 1, x);
      if kinds[n - 1] == ModLine(x) {
        assert x in ModsUpTo(kinds, n);
      }
    }
  }

  /** A map folder is collected exactly when some line among the first `n` declares it. */
  lemma {:induction false} MapsUpToDeclared(kinds: seq<LineKind>, n: nat, x: string)
    requires n <= |kinds|
    ensures x in MapsUpTo(kinds, n) <==> exists i | 0 <= i < n :: kinds[i] == MapLine(x)
  {
    if n > 0 {
      MapsUpToDeclared(kinds, n - 1, x);
      if kinds[n - 1] == MapLine(x) {
        assert x in MapsUpTo(kinds, n);
      }
    }
  }

  /** The parsed mods are exactly the names some description line declares as a mod. */
  lemma ParsedModsDeclared(item: WorkshopItem, x: string)
    ensures var lines := DescriptionLines(item);
      x in Parsed(item).mods <==> exists i | 0 <= i < |lines| :: Classify(lines[i]) == ModLine(x)
  {
    var lines := DescriptionLines(item);
    var kinds := Kinds(lines);
    ModsUpToDeclared(kinds, |kinds|, x);
    if x in Parsed(item).mods {
      var i :| 0 <= i < |kinds| && kinds[i] == ModLine(x);
      KindsAt(lines, i);
    } else {
      forall i | 0 <= i < |lines| ensures Classify(lines[i]) != ModLine(x) {
        KindsAt(lines, i);
      }
    }
  }

  /** The parsed maps are exactly the names some description line declares as a map folder. */
  lemma ParsedMapsDeclared(item: WorkshopItem, x: string)
    ensures var lines := DescriptionLines(item);
      x in Parsed(item).maps <==> exists i | 0 <= i < |lines| :: Classify(lines[i]) == MapLine(x)
  {
    var lines := DescriptionLines(item);
    var kinds := Kinds(lines);
    MapsUpToDeclared(kinds, |kinds|, x);
    if x in Parsed(item).maps {
      var i :| 0 <= i < |kinds| && kinds[i] == MapLine(x);
      KindsAt(lines, i);
    } else {
      forall i | 0 <= i < |lines| ensures Classify(lines[i]) != MapLine(x) {
        KindsAt(lines, i);
      }
    }
  }

  /** The parsed lists keep the order in which the names first appear in the description. */
  lemma ParsedInFirstAppearanceOrder(item: WorkshopItem)
    ensures var mods := DeclaredMods(item); var maps := DeclaredMaps(item);
      && (forall i, j | 0 <= i < j < |Parsed(item).mods| ::
            FirstIndexOf(mods, Parsed(item).mods[i]) < FirstIndexOf(mods, Parsed(item).mods[j]))
      && (forall i, j | 0 <= i < j < |Parsed(item).maps| ::
            FirstIndexOf(maps, Parsed(item).maps[i]) < FirstIndexOf(maps, Parsed(item).maps[j]))
  {
    DedupedFirstOccurrenceOrder(DeclaredMods(item));
    DedupedFirstOccurrenceOrder(DeclaredMaps(item));
  }

  /** The published IDs of the item's children, in order. */
  function ChildIds(item: WorkshopItem): (r: seq<string>)
    ensures |r| == |item.children|
    ensures forall i | 0 <= i < |r| :: r[i] == item.children[i].publishedFileId
  {
    seq(|item.children|, i requires 0 <= i < |item.children| => item.children[i].publishedFileId)
  }

  /** WorkshopItem.GetChildIDs: a slice of the children's length filled by index. */
  method GetChildIds(item: WorkshopItem) returns (ids: seq<string>)
    ensures ids == ChildIds(item)
  {
    var buf := new string[|item.children|](_ => "");
    for i := 0 to |item.children|
      invariant forall k | 0 <= k < i :: buf[k] == item.children[k].publishedFileId
    {
      buf[i] := item.children[i].publishedFileId;
    }
    ids := buf[..];
  }

  const WorkshopUrlPrefix := "https://steamcommunity.com/sharedfiles/filedetails/?id="

  /** The item's Workshop page: the fixed page address followed by the item's ID. */
  function WorkshopUrl(item: WorkshopItem): (r: string)
    ensures HasPrefix(r, WorkshopUrlPrefix)
    ensures TrimPrefix(r, WorkshopUrlPrefix) == item.publishedFileId
  {
    WorkshopUrlPrefix + item.publishedFileId
  }

  /** Two items have the same page exactly when they have the same ID. */
  lemma WorkshopUrlInjective(a: WorkshopItem, b: WorkshopItem)
    ensures WorkshopUrl(a) == WorkshopUrl(b) <==> a.publishedFileId == b.publishedFileId
  {
    if WorkshopUrl(a) == WorkshopUrl(b) {
      assert TrimPrefix(WorkshopUrl(a), WorkshopUrlPrefix) == TrimPrefix(WorkshopUrl(b), WorkshopUrlPrefix);
    }
  }

  /** The IDs of a list of items, in order. */
  function ItemIds(items: seq<WorkshopItem>): (r: seq<string>)
    ensures |r| == |items|
    ensures forall i | 0 <= i < |r| :: r[i] == items[i].publishedFileId
  {
    seq(|items|, i requires 0 <= i < |items| => items[i].publishedFileId)
  }

  /** The first item with the given ID, if any. */
  function FindById(items: seq<WorkshopItem>, id: string): (r: Option<WorkshopItem>)
    ensures r.None? <==> id !in ItemIds(items)
    ensures r.Some? ==> r.value.publishedFileId == id
    ensures r.Some? ==> var k := FirstIndexOf(ItemIds(items), id); r.value == items[k]
  {
    var k := FirstIndexOf(ItemIds(items), id);
    if k < 0 then None else Some(items[k])
  }

  /** FindItemByID: scan the items and stop at the first one with the ID. */
  method FindItemById(items: seq<WorkshopItem>, id: string) returns (found: Option<WorkshopItem>)
    ensures found == FindById(items, id)
    ensures found.None? <==> forall i | 0 <= i < |items| :: items[i].publishedFileId != id
    ensures found.Some? ==> exists i | 0 <= i < |items| ::
      items[i] == found.value && items[i].publishedFileId == id &&
      forall j | 0 <= j < i :: items[j].publishedFileId != id
  {
    for i := 0 to |items|
      invariant forall j | 0 <= j < i :: items[j].publishedFileId != id
    {
      if items[i].publishedFileId == id {
        assert id !in ItemIds(items)[..i];
        FirstIndexOfAt(ItemIds(items), id, i);
        return Some(items[i]);
      }
    }
    assert id !in ItemIds(items);
    return None;
  }
}
