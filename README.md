# pzmod, modelled in Dafny

pzmod manages the configuration file of a Project Zomboid dedicated server.
The file is an INI-like list of `key=value` lines with `#` comments. Three of
its keys describe the server's content:

- `WorkshopItems` holds the Steam Workshop item IDs;
- `Mods` holds the mod IDs those items declare;
- `Map` holds the map folders.

Each is a `;`-separated list. The tool reads a Workshop item's description
from the Steam API. From it the tool learns which mod IDs and map folders the
item declares, and which items it requires. It then adds, updates and removes
entries in the three lists, and checks that they agree with each other.

This project models the Go implementation:

- the configuration file (`ini/ini.go`) and its line endings (`eol/eol.go`);
- the Workshop item parser and the cache of fetched items (`steam/`);
- the list helpers (`util/`);
- the add, update, remove and check operations (`interactive/`).

It also models the legacy TypeScript implementation under `src/`. That code
keeps the same three lists and has its own parser, cache and warnings.

Each source file has its own module:

- Code that computes values becomes datatypes, functions and lemmas.
- Code that changes state becomes imperative Dafny. The cache and the
  configuration are classes whose methods update their fields. Loops
  (`for` and `while`) carry invariants and are proved against specification
  functions.
- Each interactive operation is a method. Its prompt answers, its Steam
  responses and the current time are parameters. Its `ensures` ties the
  written lists to a plan function, and lemmas state what that plan does.

Supporting modules:

- `Wrappers` holds `Option` and `Result`.
- `Text` models the Go `strings` and JavaScript string primitives the
  source relies on: split, join, trim and prefix tests.
- `Placement` holds the "start / end / after an existing entry" choice that
  several commands share.

## Model

| member | source | states |
|---|---|---|
| Strings.YesNo | util/strings.go:3-9 | the result is "Yes" exactly when the flag is set, and "No" otherwise |
| Strings.Quote | util/strings.go:11-13 | the result is the text with one double quote added at each end |
| Strings.Paren | util/strings.go:15-17 | the result is the text with an opening and a closing parenthesis around it |
| Strings.BoolString | util/strings.go:23-29 | a flag is written as "true" or "false", and ParseBool reads that text back as the same flag |
| Strings.BoolStringOfParseBool | util/strings.go:19-29 | `ParseBool` (the exact text "true" is true, anything else false) followed by a re-format gives "true" and "false" back unchanged |
| Strings.ParseBoolStrict | util/strings.go:19-21 | any text other than the exact "true" reads as false, so it is re-written as "false" |
| Strings.QuoteInjective | util/strings.go:11-13 | two texts that quote to the same string are equal |
| Slices.FirstIndexOf | util/slices.go:16-24 | the result is -1 exactly when the element is absent; otherwise the element is at that index and nowhere before it |
| Slices.FirstIndexOfAt | util/slices.go:16-24 | an index holding the element, with no earlier occurrence, is the one returned |
| Slices.Deduped | util/slices.go:3-14 | the result has the same members as the input, has no duplicates and is no longer than the input |
| Slices.DedupedOfDistinct | util/slices.go:3-14 | a list without duplicates is returned unchanged |
| Slices.DedupedIdempotent | util/slices.go:3-14 | deduplicating twice gives the same as deduplicating once |
| Slices.DedupedSnoc | util/slices.go:6-11 | appending an element adds it to the result exactly when it has not been seen before |
| Slices.DedupedPrefix | util/slices.go:3-14 | the result for a prefix is a prefix of the result for the whole list |
| Slices.DedupedAppendKeepsList | util/slices.go:3-14 | a duplicate-free list with more elements appended keeps its order at the front |
| Slices.DedupedFirstOccurrenceOrder | src/util.ts:13-15 | the kept elements are ordered by their first occurrence, the order `new Set` gives in the TypeScript dedupe |
| Slices.Filtered | util/slices.go:30-39 | the result is no longer than the input |
| Slices.FilteredMembers | util/slices.go:30-39 | an element is kept exactly when it is in the input and passes the filter |
| Slices.FilteredConcat | util/slices.go:30-39 | filtering a concatenation is the concatenation of the filtered parts, so order is kept |
| Slices.FilteredAllPass | util/slices.go:30-39 | a list whose elements all pass is returned unchanged |
| Slices.Chunked | src/workshop.ts:16-22 | the chunks concatenate back to the input, and there are no chunks exactly when the input is empty |
| Slices.ChunkedSizes | src/util.ts:4-11 | every chunk holds between 1 and `size` elements, and every chunk but the last holds exactly `size` |
| Slices.Clamp | steam/items.go:195-199 | the end index never passes the length, and an index below the length is kept |
| Slices.ChunkedStep | steam/items.go:194-202 | the first chunk is the next `size` elements, or the rest of the list when fewer remain |
| Slices.ChunkLoopStep | steam/items.go:194-202 | one loop iteration keeps "chunks so far + chunks of the rest = all chunks" |
| Slices.Dedupe | util/slices.go:3-14 | the loop's result is Deduped: the same members, no duplicates, first occurrences in order |
| Slices.IndexOf | util/slices.go:16-24 | the loop returns the first index of the element, or -1 exactly when it is absent |
| Slices.Contains | util/slices.go:26-28 | the result is true exactly when the element is in the list |
| Slices.Filter | util/slices.go:30-39 | the loop keeps exactly the elements that pass, in order |
| Slices.Chunk | steam/items.go:192-205 | the loop's chunks concatenate back to the input, each holds 1 to `chunkSize` elements, and all but the last are full |
| Placement.PositionOf | interactive/mods_util.go:122-132 | the "end" and "start" answers choose those positions; any other answer names the entry to insert after |
| Placement.SpliceAfter | interactive/mods_util.go:132-141 | the new entries follow the list up to and including the index, and the rest of the list follows them; nothing is lost or added |
| Placement.Place | interactive/mods_util.go:121-141 | end appends, start prepends, after an entry inserts after its first occurrence, and an absent entry is an error; the result is a permutation of list plus new entries |
| Placement.PlaceUnchecked | interactive/mods-update.go:133-140 | the update command's insertion also keeps every old and new entry |
| Placement.PlaceUncheckedAgrees | interactive/mods-update.go:137-140 | it agrees with Place whenever the anchor is present, and prepends when the anchor is missing, where Place reports an error |
| Placement.PlaceAfterFollowsAnchor | interactive/mods_util.go:132-141 | after insertion the anchor is immediately followed by the new entries |
| Placement.PlaceExample | interactive/mods_util.go:132-141 | inserting "z" after "y" in ["x","y"] gives ["x","y","z"]; after an absent "w" it is an error |
| Eol.EndingString | eol/eol.go:45-55 | LF, CR and CRLF are written "\n", "\r" and "\r\n"; an unknown ending gives the empty string |
| Eol.Description | eol/eol.go:23-43 | each ending has its label, and only an unknown one is "Unknown" |
| Eol.Pick | eol/eol.go:101-112 | with no breaks counted it fails; CRLF wins ties; otherwise CR wins only with strictly more than LF |
| Eol.Detect | eol/eol.go:86-113 | the counting loop returns the specification's detection result |
| Eol.TallyZero | eol/eol.go:87-104 | the counts are all zero exactly when the scanned prefix has no line break |
| Eol.DetectFailsIffNoBreaks | eol/eol.go:86-104 | detection fails exactly when the text has neither '\r' nor '\n' |
| Eol.TallyWithoutCr | eol/eol.go:89-100 | a text without '\r' counts no CR and no CRLF |
| Eol.TallyWithoutLf | eol/eol.go:89-100 | a text without '\n' counts no LF and no CRLF |
| Eol.TallyCrlf | eol/eol.go:89-100 | in CRLF-only text no lone LF is counted, and CRs outnumber CRLFs by at most a pending one |
| Eol.DetectUnix | eol/eol.go:86-113 | a text with '\n' and no '\r' is detected as LF |
| Eol.DetectMac | eol/eol.go:86-113 | a text with '\r' and no '\n' is detected as CR |
| Eol.DetectWindows | eol/eol.go:86-113 | a text whose breaks are all "\r\n" is detected as CRLF |
| Eol.DetectEndingString | eol/eol.go:86-113 | each ending's own string is detected as that ending |
| Eol.DetectedOr | eol/eol.go:115-122 | the detected ending, or the default when detection fails, in particular for text with no breaks |
| Eol.DetectDefault | eol/eol.go:116-122 | the method returns DetectedOr |
| Eol.TrimmedLines | eol/eol.go:75-78 | one line per input line, each with its '\r' and '\n' trimmed at both ends |
| Eol.Converted | eol/eol.go:67-80 | an invalid target, then an invalid source, are errors; the conversion succeeds exactly when both are valid |
| Eol.ConvertTo | eol/eol.go:68-80 | the method returns Converted |
| Eol.ConvertJoined | eol/eol.go:67-80 | break-free lines joined with one ending are converted to the same lines joined with the other |
| Eol.Applied | eol/eol.go:57-65 | a text with no line breaks cannot be converted |
| Eol.Apply | eol/eol.go:59-65 | the method returns Applied |
| Eol.ApplyToWindowsText | eol/eol.go:57-80 | CRLF text of two or more lines is re-joined with the requested ending |
| Eol.ApplyToJoinedText | eol/eol.go:57-80 | text of two or more lines joined with any valid ending (LF, CR or CRLF) is re-joined with the requested ending |
| Cache.Fresh | steam/cache.go:22-33 | an entry is returned exactly when present and no older than the expiration, and it is the stored item |
| Cache.WorkshopItemCache.constructor | steam/cache.go:15-20 | a new cache is empty and has the given expiration |
| Cache.WorkshopItemCache.Get | steam/cache.go:22-33 | the lookup returns Fresh: the stored item while it is fresh, nothing otherwise |
| Cache.WorkshopItemCache.Set | steam/cache.go:35-40 | the item is stored under its ID, stamped with the current time; other entries and the expiration are kept |
| Cache.WorkshopItemCache.Delete | steam/cache.go:42-44 | exactly that entry is removed |
| Cache.WorkshopItemCache.Clear | steam/cache.go:46-48 | all entries are removed and the expiration is kept |
| Cache.FreshAfterStore | steam/cache.go:22-40 | a stored item is served until its expiration has passed |
| Cache.StaleAfterExpiration | steam/cache.go:22-40 | after that it is no longer served |
| Cache.StoreKeepsOthers | steam/cache.go:35-40 | storing one ID does not change what is served for another |
| Cache.DeleteOnlyThat | steam/cache.go:42-44 | a deleted ID is missed and every other ID is served as before |
| Cache.ClearedMisses | steam/cache.go:46-48 | a cleared cache serves nothing |
| Cache.FreshnessMonotone | steam/cache.go:28-30 | an entry fresh at a later time was fresh at every earlier time |
| Items.ClassifyPrefixes | steam/items.go:49-56 | a trimmed line starting with either mod ID prefix is a mod line; otherwise one starting with the map prefix is a map line; the value is what follows the prefix |
| Items.Parsed | steam/items.go:43-63 | the parsed mod and map lists have no duplicates |
| Items.Parse | steam/items.go:43-63 | the line loop computes Parsed |
| Items.ModsUpToDeclared | steam/items.go:48-53 | the loop's mod list holds exactly the IDs of the mod lines seen so far |
| Items.MapsUpToDeclared | steam/items.go:54-56 | the loop's map list holds exactly the folders of the map lines seen so far |
| Items.ParsedModsDeclared | steam/items.go:43-63 | a mod ID is parsed exactly when some description line declares it |
| Items.ParsedMapsDeclared | steam/items.go:43-63 | a map folder is parsed exactly when some description line declares it |
| Items.ParsedInFirstAppearanceOrder | steam/items.go:59-62 | mods and maps keep the order of their first declaration |
| Items.ChildIds | steam/items.go:65-72 | one ID per required item, in order |
| Items.GetChildIds | steam/items.go:65-72 | the loop returns ChildIds |
| Items.WorkshopUrl | steam/items.go:74-76 | the link is the Workshop prefix followed by exactly the item's ID |
| Items.WorkshopUrlInjective | src/util.ts:17-19 | two items have the same link exactly when they have the same ID; the TypeScript workshopURL builds the same address |
| Items.FindById | steam/items.go:89-97 | nothing exactly when no item has the ID; otherwise the first item that has it |
| Items.FindItemById | steam/items.go:89-97 | the loop returns the first item with the ID, or nothing when none has it |
| Fetch.MissingIdsConcat | steam/items.go:141-148 | the missing IDs of two response batches are those of each, in order |
| Fetch.MissingIdsMembers | steam/items.go:141-145 | an ID is reported missing exactly when a response row for it was not found |
| Fetch.ChunksFetchedFails | steam/items.go:135-140 | fetching the chunks fails exactly when some chunk's request fails |
| Fetch.ChunksFetchedFirstError | steam/items.go:135-140 | the error returned is that of the first failing chunk |
| Fetch.ChunksFetchedAll | steam/items.go:131-152 | when every request succeeds, the result is the found rows and the missing IDs of all responses, in chunk order |
| Fetch.ChunksFetchedRows | steam/items.go:141-148 | every returned item was found, and every missing ID comes from a not-found row |
| Fetch.FetchLoopStep | steam/items.go:135-149 | one successful chunk keeps the loop's accumulated result on course |
| Fetch.FetchUncached | steam/items.go:131-152 | the chunk loop returns the specification's result for the IDs split into chunks of the fixed size |
| Fetch.CacheReadStep | steam/items.go:104-112 | each ID read adds either its cached item to the hits or the ID to the misses |
| Fetch.StoreStep | steam/items.go:120-123 | each fetched row is stored under its ID with the current time |
| Fetch.FetchWorkshopItems | steam/items.go:101-129 | the result and the new cache contents are the specification's: cached hits first, then the fetched rows, which are stored |
| Fetch.UncachedMembers | steam/items.go:104-112 | an ID is requested exactly when it was asked for and has no fresh cache entry |
| Fetch.HitsAndMisses | steam/items.go:104-112 | every asked ID is either a hit or a miss, and every fresh entry is served |
| Fetch.AllCachedNoRequest | steam/items.go:114-128 | when everything is cached the result is the cached items, nothing is missing and the cache is unchanged |
| Fetch.EmptyRequest | steam/items.go:101-128 | an empty ID list is answered with no items and nothing missing, without a request, and the cache is unchanged |
| Fetch.StoredEntries | steam/items.go:120-123 | a fetched ID is stored as its own row with the current time; every other entry is untouched |
| Fetch.FetchFillsCache | steam/items.go:101-129 | after a successful fetch every fetched item is fresh in the cache, and fresh entries stay fresh |
| Ini.KeyIndex | ini/ini.go:106-114 | -1 exactly when no entry has the key; otherwise the first entry that has it |
| Ini.Lookup | ini/ini.go:106-114 | nothing exactly when no entry has the key; otherwise the value of the first entry that has it |
| Ini.Assign | ini/ini.go:125-134 | an existing key gets the new value and keeps its comments, with every other entry unchanged; a new key is appended without comments |
| Ini.LookupAssign | ini/ini.go:125-134 | after a set, a get of that key returns the new value |
| Ini.LookupAssignOther | ini/ini.go:125-134 | a set leaves every other key's value unchanged |
| Ini.AssignIdempotent | ini/ini.go:125-134 | setting the same value twice is the same as setting it once |
| Ini.FormatKey | ini/ini.go:60-65 | an entry is written as its comment lines, its `key=value` line and a blank line, separated by the file's line ending |
| Ini.KeyValue | ini/ini.go:167-169 | the key is the trimmed text before the first '=' and the value the trimmed text before the next '#'; together they form a clean entry with no comments |
| Ini.ParsedKey | ini/ini.go:160-176 | a line is an entry exactly when it contains '='; the entry is the KeyValue of the two sides of the first '=', keeps the queued comments in front, and adds one more exactly when a '#' follows that '='; the added comment is the trimmed text after that '#', bare with `marked` false (the source) and preceded by '#' with `marked` true (corrected) |
| Ini.ParseFrom | ini/ini.go:140-158 | the parse yields at most one entry per line; `marked` false is the source's parse |
| Ini.ServerConfig.constructor | ini/ini.go:24-35 | a new configuration has no entries and the given line ending |
| Ini.ServerConfig.Get | ini/ini.go:106-114 | the value and "found" flag of Lookup, with "" when not found |
| Ini.ServerConfig.GetOrDefault | ini/ini.go:116-123 | the stored value, or the default when the key is absent |
| Ini.ServerConfig.Set | ini/ini.go:125-134 | the entries become Assign of the old entries; the line ending is kept |
| Ini.ServerConfig.Reset | ini/ini.go:136-138 | all entries are dropped and the line ending is kept |
| Ini.ServerConfig.AddKey | ini/ini.go:178-181 | the entry is appended after the existing ones |
| Ini.ServerConfig.ParseLine | ini/ini.go:160-176 | a line with '=' appends the entry the source's reading gives (inline comment kept as bare text); any other line leaves the entries unchanged |
| Ini.ServerConfig.ParseLines | ini/ini.go:140-158 | the line loop appends exactly the source's parse (ParseFrom with `marked` false) of the lines |
| Ini.ServerConfig.FromString | ini/ini.go:67-72 | the line ending becomes the detected one, or the OS default, and the entries become the source's parse of the text split on it |
| Ini.ServerConfig.String | ini/ini.go:51-58 | the text is the rendering of the entries with the file's line ending |
| IniRoundTrip.RenderLines | ini/ini.go:51-65 | the rendered text is the entries' lines joined with the line ending |
| IniRoundTrip.ParseComments | ini/ini.go:148-151 | comment lines are queued, in order, for the next entry |
| IniRoundTrip.ParseFirstComment | ini/ini.go:148-151 | the first of several well-formed comment lines is queued and reading goes on with the next line |
| IniRoundTrip.ParseCommentLine | ini/ini.go:148-151 | one comment line is queued and parsing continues with the next line |
| IniRoundTrip.ParseKeyLine | ini/ini.go:160-176 | a rendered `key=value` line parses back to the same key and value, with the queued comments, in the source's reading and the corrected one |
| IniRoundTrip.ParseKeyThenBlank | ini/ini.go:140-158 | an entry line followed by a blank line yields that entry and resets the queue |
| IniRoundTrip.ParseConfigLines | ini/ini.go:140-158 | parsing the rendered lines of well-formed entries gives back those entries, in either reading |
| IniRoundTrip.ParseEntryLines | ini/ini.go:140-158 | the saved comments, key line and blank line of one well-formed entry read back as that entry, with nothing left queued |
| IniRoundTrip.DetectRendered | ini/ini.go:67-69 | a rendered non-empty configuration is detected with the line ending it was saved with |
| IniRoundTrip.ParseBlankLine | ini/ini.go:143-146 | a blank line is skipped and the queued comments are kept |
| IniRoundTrip.LoadEmpty | ini/ini.go:67-72 | an empty text loads as no entries |
| IniRoundTrip.SaveLoad | ini/ini.go:51-72 | saving well-formed entries and loading the text, with the source's reading or the corrected one, gives back the same entries and line ending |
| IniRoundTrip.SaveLoadSave | ini/ini.go:51-72 | saving again after a load reproduces the text exactly |
| IniRoundTrip.ParsedKeyWellFormed | ini/ini.go:160-176 | corrected reading: an entry parsed from a trimmed line is well formed, so it can be saved and loaded again |
| IniRoundTrip.ParseFromWellFormed | ini/ini.go:140-158 | corrected reading: every parse of break-free lines yields well-formed entries |
| IniRoundTrip.LoadSaveLoad | ini/ini.go:51-72 | corrected reading: whatever a file loads as, saving it and loading again gives the same entries |
| IniRoundTrip.InlineCommentAsWritten | ini/ini.go:168-173 | `a=1 #b=2` parses, as written, to key "a", value "1" and the bare comment "b=2" |
| IniRoundTrip.BareNoteNotRestored | ini/ini.go:140-158 | an entry whose comment is bare text containing '=' does not survive a save and a load, in either reading |
| IniRoundTrip.InlineCommentNotRestored | ini/ini.go:170-173 | so the entry parsed from `a=1 #b=2`, as written, is lost on the next save and load |
| Shared.FixedSeparator | interactive/shared.go:48-55 | one trimmed piece per comma-separated part |
| Shared.FixSeparator | interactive/shared.go:48-55 | the loop gives one trimmed piece per comma-separated part, one more than the number of commas |
| Shared.BlankPieceKept | interactive/shared.go:48-55 | an entry of only spaces becomes one empty piece |
| Shared.SegmentsMembers | interactive/shared.go:37-43 | the pieces are exactly those of the non-empty entries |
| Shared.FixedListMembers | interactive/shared.go:34-46 | the fixed list has no duplicates, and holds exactly the pieces of the non-empty `;`-separated entries |
| Shared.FixedListOfEmpty | interactive/shared.go:34-46 | an empty value gives an empty list |
| Shared.GetFixedArray | interactive/shared.go:34-46 | the method returns the fixed list of the key's value, without duplicates |
| Shared.IsEnabled | interactive/shared.go:57-65 | the result is true exactly when the ID is in the list |
| ModsAdd.EnabledMembers | interactive/mods-add.go:68-75 | the pre-selected mods are exactly the item's mods that are already in the list |
| ModsAdd.EnabledConcat | interactive/mods-add.go:68-75 | the selection keeps the item's order |
| ModsAdd.EnabledDefaults | interactive/mods-add.go:63-76 | an item with a single mod has that mod pre-selected |
| ModsAdd.GetEnabledMods | interactive/mods-add.go:63-76 | the loop returns the specification's pre-selection |
| ModsAdd.MapListJoin | interactive/mods-add.go:79-86 | the map list is empty exactly when the `Map` value is empty, and it joins back to that value |
| ModsAdd.MapListOfJoin | interactive/mods-add.go:79-86 | a non-empty `Map` value joined from `;`-free folders splits back into those folders |
| ModsAdd.GetMapList | interactive/mods-add.go:79-86 | the method returns the map list of the configuration |
| ModsUtil.WrittenLookup | interactive/mods_util.go:194-197 | after writing, each of the three keys holds its list deduplicated and joined with `;`, and every other key is unchanged |
| ModsUtil.WriteLists | interactive/mods_util.go:195-197 | the configuration's entries become those with the three lists written; the line ending is kept |
| ModsUtil.ModKeyOwner | interactive/mods_util.go:122-139 | a mod is stored as `<item id>\<mod id>`, from which the mod ID is recovered |
| ModsUtil.QualifyMods | interactive/mods_util.go:122-139 | one key per chosen mod, each the item ID, a backslash and that mod |
| ModsUtil.InsertMapsAdds | interactive/mods_util.go:160-188 | inserting the chosen maps one by one keeps every old map and adds each chosen one |
| ModsUtil.InsertMapsMissingAnchor | interactive/mods_util.go:180-184 | a map to be inserted after an absent map is an error naming that map |
| ModsUtil.AddPlanSteps | interactive/mods_util.go:101-197 | a successful add had a Workshop mod; it appends the item ID, places the chosen mods' keys at the chosen position, and inserts the chosen maps only when the item declares maps |
| ModsUtil.AddPlanPlacesMods | interactive/mods_util.go:121-141 | the mod keys go at the end, at the start, or right after the first occurrence of the chosen mod |
| ModsUtil.AddPlanAddsMaps | interactive/mods_util.go:143-189 | the new map list is the old one plus the chosen maps, or the old one when the item declares none |
| ModsUtil.AddPlanErrors | interactive/mods_util.go:26-141 | no item found, an item that is not a mod, a failed mod selection and an absent anchor mod are each reported as that error |
| ModsUtil.PlaceModKeys | interactive/mods_util.go:121-141 | the method places the qualified mod keys where the answer says |
| ModsUtil.InsertEachMap | interactive/mods_util.go:160-188 | the loop over the chosen maps returns the specification's insertion |
| ModsUtil.SelectMods | interactive/mods_util.go:26-103 | the method returns the specification's item and mod selection |
| ModsUtil.AddMod | interactive/mods_util.go:15-203 | on an error the configuration is unchanged and the error is returned; otherwise the three lists of the plan are written |
| ModsUtil.WithChildrenPrefix | interactive/mods_util.go:249-256 | adding the required items keeps the list in front, and keeps it free of duplicates |
| ModsUtil.WithChildrenMembers | interactive/mods_util.go:249-256 | a required item's ID is added exactly when it was fetched |
| ModsUtil.AddChildren | interactive/mods_util.go:249-256 | the loop returns WithChildren |
| ModsUtil.WithChildrenNoneFetched | interactive/mods_util.go:250-256 | when nothing was fetched, nothing is added |
| ModsUtil.UnattendedAgrees | interactive/mods_util.go:207-265 | where the code as written does not panic, the corrected plan refuses or adds exactly as it does |
| ModsUtil.ChildFetchErrorPanics | interactive/mods_util.go:250-256 | as written, a failed fetch of the required items panics when the item has children; the corrected plan adds the item without them |
| ModsUtil.EmptyAnswerPanics | interactive/mods_util.go:214-219 | as written, an empty Steam answer with nothing missing panics; the corrected plan refuses |
| ModsUtil.UnattendedAppends | interactive/mods_util.go:235-260 | an unattended add appends all the item's mod keys and maps, the item ID and its fetched required items |
| ModsUtil.AddModWithoutPrompt | interactive/mods_util.go:207-265 | the method adds exactly when the corrected plan does and then writes that plan's lists; otherwise the configuration is unchanged |
| ModsUtil.ExtendLists | interactive/mods_util.go:235-256 | the item ID and fetched children, the mod keys and the maps are appended to their lists |
| ModsUpdate.UpdateMapsWritesMods | interactive/mods-update.go:142-202 | the map step writes the mod list it was given, and writes maps only together with mods |
| ModsUpdate.UpdateMapsIgnoresMods | interactive/mods-update.go:142-200 | the map step does not depend on the mod list |
| ModsUpdate.UpdateWritesModsLast | interactive/mods-update.go:198-202 | maps are only written together with mods, and the corrected and as-written plans agree on maps and on whether to continue |
| ModsUpdate.UpdatePlanMods | interactive/mods-update.go:129-140 | the written mod list is the old list with the newly chosen keys placed where the answer says |
| ModsUpdate.UpdateNeedsSelection | interactive/mods-update.go:76-108 | mods are written only after an item and at least one mod and a position were chosen, and the item was fetched |
| ModsUpdate.UpdateInsertsChosen | interactive/mods-update.go:129-140 | the written mods are the old ones, each kept as often as before, plus the chosen mods' keys |
| ModsUpdate.UpdateMissingAnchorPrepends | interactive/mods-update.go:137-140 | an absent anchor mod puts the new keys at the start |
| ModsUpdate.UpdateMissingMapAnchor | interactive/mods-update.go:188-193 | an absent anchor map stops the update without writing, and asks to continue |
| ModsUpdate.UpdateInsertsMaps | interactive/mods-update.go:184-198 | the written maps are the old ones plus the chosen ones, at the end or start when so chosen |
| ModsUpdate.SingleModNeverInserted | interactive/mods-update.go:87-131 | as written, the only mod of a single-mod item is never inserted; the corrected plan appends it |
| ModsUpdate.BareModIdInserted | interactive/mods-update.go:133-140 | as written, a chosen mod is inserted as its bare mod ID; the corrected plan inserts `<item id>\<mod id>` |
| ModsUpdate.UpdatedOnlyLists | interactive/mods-update.go:198-202 | only `Mods` and `Map` change, each set to its deduplicated list joined with `;` |
| ModsUpdate.SelectForUpdate | interactive/mods-update.go:76-127 | the method returns the specification's selection |
| ModsUpdate.InsertBlock | interactive/mods-update.go:133-140 | the method inserts the mods as the update command does |
| ModsUpdate.InsertMapBlock | interactive/mods-update.go:184-196 | the method inserts the maps where the answer says, or reports an absent anchor |
| ModsUpdate.UpdateMod | interactive/mods-update.go:23-205 | the configuration becomes the corrected plan's update, and the result says whether to ask again |
| ModsUpdate.TitlesKeys | interactive/mods-update.go:207-214 | the title map has exactly the fetched items' IDs as keys |
| ModsUpdate.TitlesLastWins | interactive/mods-update.go:207-214 | an ID maps to the title of its last occurrence |
| ModsUpdate.MapTitles | interactive/mods-update.go:207-214 | the loop returns the title map |
| ModsRemove.RemoveOptions | interactive/mods-remove.go:55-64 | the menu starts with "exit", offers the two "remove all mods" choices exactly when items are listed and "remove all maps" exactly when maps are listed, with no choice twice |
| ModsRemove.RemovedItemMembers | interactive/mods-remove.go:162-173 | removing an item drops its ID, every mod key it owns and every map it declares, and keeps everything else |
| ModsRemove.RemovedItemDropsItsMods | interactive/mods-remove.go:163-165 | no key `<item id>\<mod>` of the removed item is left |
| ModsRemove.DeclaringMembers | interactive/mods-remove.go:228-241 | the collected IDs are exactly those of the items that satisfy the test |
| ModsRemove.MapUsersMembers | interactive/mods-remove.go:228-243 | an ID is a map user exactly when it declares one of the listed maps |
| ModsRemove.MapUser | interactive/mods-remove.go:228-243 | the same, stated over the items and the listed maps directly |
| ModsRemove.BulkRemovalsSplit | interactive/mods-remove.go:322-342 | every item and mod entry is either kept or removed, never both and never lost |
| ModsRemove.BulkKeepsMapUsers | interactive/mods-remove.go:245-257 | "remove all but maps" keeps exactly the listed items that declare a listed map |
| ModsRemove.BulkRemovalsWrite | interactive/mods-remove.go:202-348 | a failed fetch changes nothing; keeping maps leaves `Map` alone; removing maps empties it; removing everything empties all three lists; no other key changes |
| ModsRemove.RemoveNeedsConfirmation | interactive/mods-remove.go:118-156 | nothing is removed unless the user confirms |
| ModsRemove.RemoveOneChosen | interactive/mods-remove.go:147-177 | choosing a fetched item's ID, and confirming, removes that item |
| ModsRemove.RemoveBulkOffered | interactive/mods-remove.go:80-145 | removing all mods happens only when that option was offered; when the answer is one of the prompt's options (the fixed ones followed by the item IDs), removing all maps happens only when that option was offered or an item's ID reads exactly like it |
| ModsRemove.ReadLists | interactive/mods-remove.go:45-47 | the three lists are read from the configuration |
| ModsRemove.WriteRaw | interactive/mods-remove.go:175-177 | the three lists are written back as they are |
| ModsRemove.FilterOut | interactive/mods-remove.go:162-173 | the method computes RemovedItem |
| ModsRemove.RemoveItem | interactive/mods-remove.go:160-185 | the configuration loses the item, its mod keys and its maps, and the result says whether the lists are now empty |
| ModsRemove.FindMapUsers | interactive/mods-remove.go:224-243 | the method returns the IDs of the items that declare a listed map |
| ModsRemove.RemoveAllMods | interactive/mods-remove.go:202-263 | either everything but the map users is removed, or all three lists are emptied |
| ModsRemove.WriteMapsCleared | interactive/mods-remove.go:344-348 | the new mod and item lists are written and `Map` is emptied |
| ModsRemove.RemoveAllMaps | interactive/mods-remove.go:266-352 | the maps and the items and mods that provide them are removed |
| ModsRemove.AllMapsWithoutItems | interactive/mods-remove.go:266-278 | with no item listed, removing all maps always empties the map list, since the fetch of no IDs succeeds |
| ModsRemove.ChooseRemoval | interactive/mods-remove.go:44-199 | the method returns the specification's decision from the answers |
| ModsRemove.RemoveMod | interactive/mods-remove.go:44-199 | the configuration becomes the decision's removal, and the result says whether to leave the menu |
| ModsCheck.KeyParts | interactive/mods-check.go:106-112 | a key with one backslash splits into the owner and the mod ID; any other key is both |
| ModsCheck.ModKeyParts | interactive/mods-check.go:37-43 | the key of an item's mod splits back into that item and mod |
| ModsCheck.ModIdsMembers | interactive/mods-check.go:96-102 | the gathered mod IDs are exactly those some item declares |
| ModsCheck.MapNamesMembers | interactive/mods-check.go:96-102 | the gathered map names are exactly those some item declares |
| ModsCheck.NoUnknownMod | interactive/mods-check.go:104-127 | no unknown mod is found exactly when every mod entry names a declared mod |
| ModsCheck.NoUnusedMod | interactive/mods-check.go:129-146 | no unused mod is found exactly when every declared mod is listed |
| ModsCheck.NoUnknownMap | interactive/mods-check.go:148-162 | no unknown map is found exactly when every listed map is declared |
| ModsCheck.NoModAsMap | interactive/mods-check.go:164-185 | no error is found exactly when every mod entry that names a declared map has that map listed |
| ModsCheck.ListProblemNone | interactive/mods-check.go:104-185 | the list checks pass exactly when all four agreements hold |
| ModsCheck.DependencyProblemNone | interactive/mods-check.go:187-220 | the dependency check passes exactly when every item's required items are fetched and listed |
| ModsCheck.ChildlessItemPasses | interactive/mods-check.go:186-192 | an item with no required items raises no dependency problem: its empty fetch succeeds |
| ModsCheck.VerdictPasses | interactive/mods-check.go:22-222 | the whole check passes exactly when every ID is valid, the items fetch, the lists agree and the dependencies are listed |
| ModsCheck.UnknownModReported | interactive/mods-check.go:104-127 | a reported unknown mod is listed and declared by no item |
| ModsCheck.MissingDependencyReported | interactive/mods-check.go:204-219 | a reported missing dependency is required by that item and is not listed |
| ModsCheck.CollectIds | interactive/mods-check.go:27-45 | the IDs to validate are the listed items and the owners of the mod keys |
| ModsCheck.ValidateIds | interactive/mods-check.go:47-77 | the loop returns exactly the IDs whose own fetch fails or reports them missing |
| ModsCheck.InvalidIdsStep | interactive/mods-check.go:51-73 | checking one more ID adds it to the invalid set exactly when it fails |
| ModsCheck.GatherDeclared | interactive/mods-check.go:95-102 | the loop parses every item and gathers its mods and maps |
| ModsCheck.FindUnknownMod | interactive/mods-check.go:104-127 | the loop returns the first mod entry that no item declares |
| ModsCheck.IsUsed | interactive/mods-check.go:131-141 | the result is true exactly when some entry names that mod |
| ModsCheck.FindUnusedMod | interactive/mods-check.go:129-146 | the loop returns the first declared mod that is not listed |
| ModsCheck.DeclaredBy | interactive/mods-check.go:150-157 | the result is true exactly when some item declares that map |
| ModsCheck.FindUnknownMap | interactive/mods-check.go:148-162 | the loop returns the first listed map that no item declares |
| ModsCheck.FindModAsMap | interactive/mods-check.go:164-185 | the loop returns the first mod entry that names a declared map which is not listed |
| ModsCheck.CheckLists | interactive/mods-check.go:104-185 | the four checks, run in order, report the specification's first problem |
| ModsCheck.FindAbsentChild | interactive/mods-check.go:204-219 | the loop returns the first required item that is not listed |
| ModsCheck.CheckDependencies | interactive/mods-check.go:187-220 | the loop reports the specification's first dependency problem |
| ModsCheck.CheckForProblems | interactive/mods-check.go:22-222 | the check reports the specification's verdict, and passes exactly when the lists are consistent |
| LegacyWorkshop.CaptureSpec | src/workshop.ts:24-28 | a line yields a mod ID only after the first "Mod ID: " on it, and the ID is the non-empty rest of the line |
| LegacyWorkshop.ParseModIdsMembers | src/workshop.ts:24-28 | the parsed IDs are exactly the captures of the description's lines, at most one per line |
| LegacyWorkshop.MarkerAnywhere | src/workshop.ts:25-27 | the marker is found anywhere in a line, not only at its start |
| LegacyWorkshop.RepeatedKept | src/workshop.ts:24-28 | a mod ID declared twice is returned twice; this parser does not deduplicate |
| LegacyWorkshop.JoinedSpellingIgnored | src/workshop.ts:24-28 | the spelling "ModID: " without a space is not recognised |
| LegacyWorkshop.EntryOf | src/workshop.ts:63-72 | an entry keeps the row's ID and description, and its mod IDs are parsed from that description |
| LegacyWorkshop.StoreKeys | src/workshop.ts:74-76 | after storing, the cache holds exactly its old IDs and the fetched ones |
| LegacyWorkshop.StoreValues | src/workshop.ts:74-76 | an ID not fetched keeps its entry, and a fetched ID holds its last fetched entry |
| LegacyWorkshop.NothingPending | src/workshop.ts:40-43 | nothing needs fetching exactly when every ID is cached |
| LegacyWorkshop.UnfetchedStored | src/workshop.ts:74-78 | every ID served from the cache is present after the store |
| LegacyWorkshop.AllCachedServed | src/workshop.ts:40-43 | when every ID is cached, the chunk is served from the cache, in order, with no request |
| LegacyWorkshop.UnfetchedAreCached | src/workshop.ts:40-45 | the IDs not fetched are exactly the cached ones |
| LegacyWorkshop.ChunkServedFetched | src/workshop.ts:39-79 | after a fetch, the cached entries come first and the fetched entries follow, and the cache holds both |
| LegacyWorkshop.ChunksAllCached | src/workshop.ts:81-86 | when every chunk is cached, all entries are served from the cache in order |
| LegacyWorkshop.DetailsAllCached | src/workshop.ts:81-86 | the same for the whole ID list: a cached list is served without a request |
| LegacyWorkshop.EntryCache.constructor | src/workshop.ts:14-14 | the module cache starts empty |
| LegacyWorkshop.EntryCache.DetailsChunk | src/workshop.ts:39-79 | the method's result and the new cache are the specification's for one chunk |
| LegacyWorkshop.EntryCache.StoreAll | src/workshop.ts:74-76 | the loop stores every fetched entry under its ID, a later one replacing an earlier one |
| LegacyWorkshop.EntryCache.Details | src/workshop.ts:81-86 | the chunks of 10 are served one after the other, and the first failure stops the fetch |
| LegacyUtil.FilterExistingModIds | src/util.ts:55-57 | the result is never longer than the list |
| LegacyUtil.FilterExistingMembers | src/util.ts:55-57 | exactly the listed IDs the item does not declare survive, and a list sharing none with the item is unchanged |
| LegacyUtil.UnknownMods | src/util.ts:45-53 | at most one warning per listed ID |
| LegacyUtil.UnknownModsMembers | src/util.ts:45-53 | a listed ID is warned about exactly when no item declares it |
| LegacyUtil.ItemWarnings | src/util.ts:33-43 | every warning names the item it is about |
| LegacyUtil.ItemWarningsMembers | src/util.ts:33-43 | an item's warnings are exactly its declared IDs that the list lacks |
| LegacyUtil.UnusedModsMembers | src/util.ts:33-43 | a warning is given exactly for each examined item and declared ID that is not listed |
| LegacyUtil.UnusedModsConcat | src/util.ts:33-43 | the listed items' warnings all come before the children's |
| LegacyUtil.CheckForUnusedDependencies | src/util.ts:21-31 | at most one report per fetched child |
| LegacyUtil.MissingChildReported | src/util.ts:21-31 | a child is reported exactly when no listed item has its Workshop ID |
| LegacyUtil.DependentsReported | src/util.ts:21-31 | the dependents named are exactly the listed items that require that child |
| LegacyIni.ParseValueCases | src/ini.ts:13-19 | "true" and "false" in any ASCII case are booleans, a blank value is the empty string, and a text is kept as it is only when it is not a number |
| LegacyIni.NumericValue | src/ini.ts:13-19 | a non-blank value other than a boolean word that reads as a number becomes that number |
| LegacyIni.PutLookup | src/ini.ts:50-53 | storing a key makes it read back, leaves other keys alone, and appends a new key after the existing ones |
| LegacyIni.PutKeepsDistinct | src/ini.ts:50-53 | the configuration never holds a key twice |
| LegacyIni.LookupHas | src/ini.ts:21-23 | a key can be read exactly when the configuration has it |
| LegacyIni.ReadConfigOutcome | src/ini.ts:25-62 | an empty file and a configuration without PublicName, Mods and WorkshopItems are the two errors; a successful read has all three |
| LegacyIni.ReadServerConfig | src/ini.ts:25-62 | the line loop returns the specification's read |
| LegacyIni.ReadFromConcat | src/ini.ts:41-55 | reading two runs of lines is reading the first and then the second |
| LegacyIni.KeyValueSplit | src/ini.ts:49-52 | the key is the text before the first '=', and the key, '=' and value give back the line |
| LegacyIni.KeyLine | src/ini.ts:49-52 | a key without '=' followed by '=' and a value reads back as that key and value |
| LegacyIni.KeyLineRead | src/ini.ts:49-54 | a key line stores its value with the queued comments, clears the queue, and leaves other keys alone |
| LegacyIni.CommentsGathered | src/ini.ts:42-47 | blank lines are skipped and comment lines queued, in order |
| LegacyIni.StrippedComments | src/ini.ts:64-73 | comments without line endings are saved as they are |
| LegacyIni.EolLineJoin | src/ini.ts:70-73 | the pushed line ending gives the same text as two empty lines |
| LegacyIni.SaveTextLines | src/ini.ts:64-73 | the saved text is every entry's comments, `key=value` line and two empty lines, joined with the line ending |
| LegacyIni.ReadBlock | src/ini.ts:41-55 | one saved entry reads back as that entry |
| LegacyIni.ReadFileLines | src/ini.ts:41-55 | the saved lines of a configuration read back as that configuration |
| LegacyIni.SaveReadRoundTrip | src/ini.ts:25-73 | a valid configuration whose keys and values survive saving is read back unchanged |
| LegacyIni.AsWrittenReadAgrees | src/ini.ts:77-79 | as written, reading a list fails exactly when the key is absent or its value was read as a number or a boolean; where it succeeds it gives the corrected reader's list |
| LegacyIni.GetFromServerConfigPieces | src/ini.ts:77-79 | corrected reader: reading a list fails exactly when the key is absent, and otherwise holds the non-empty `;`-separated pieces of the value |
| LegacyIni.ReadListClean | src/ini.ts:77-79 | corrected reader: a list read from the configuration has no empty and no `;`-containing pieces |
| LegacyIni.SetThenGet | src/ini.ts:77-79 | a clean list stored joined with `;` reads back as the same list |
| LegacyIni.SetValueOnly | src/index.ts:325-331 | setting a value keeps the key order and the key's comments, and leaves other keys alone |
| LegacyIni.NumberListRead | src/ini.ts:77-79 | a list key whose value was read as a number throws as written, while the corrected reader gives the one ID |
| LegacyIni.NumericListThrows | src/ini.ts:77-79 | as written, a list with one numeric ID fails to read; reading the rendered value gives the one-element list |
| LegacyIndex.PlacedModsWhere | src/index.ts:250-259 | the new mod IDs go at the end, at the start, or right after the first occurrence of the chosen ID among the kept IDs |
| LegacyIndex.PlacedModsMembers | src/index.ts:250-259 | the result holds the new IDs and the old IDs the item does not declare |
| LegacyIndex.ListItemEffect | src/index.ts:246-248 | corrected reader: the item's Workshop ID is appended when not yet listed, and no other key changes |
| LegacyIndex.MenuReadsAsWritten | src/index.ts:88-102 | the menu's first reads of `Mods` and `WorkshopItems`, as written, succeed exactly when both are held as text, and then agree with the corrected reader |
| LegacyIndex.AddModLists | src/index.ts:241-259 | corrected reader: adding lists the item, places the mod IDs, and changes nothing else |
| LegacyIndex.AddModKeepsText | src/index.ts:246-257 | an add that starts from lists held as text leaves both lists held as text, so the menu's next reads as written succeed |
| LegacyIndex.AddNothingSelected | src/index.ts:241-244 | with no mod selected the configuration is unchanged |
| LegacyIndex.DeclaredListedMembers | src/index.ts:317-323 | the IDs to drop are the listed ones some chosen item declares |
| LegacyIndex.ModIdsToFilterMembers | src/index.ts:317-323 | the same, with the chosen items picked by their Workshop IDs |
| LegacyIndex.RemoveModsLists | src/index.ts:312-331 | corrected reader: removing filters `Mods` and `WorkshopItems` and changes nothing else |
| LegacyIndex.RemoveModsKeepsText | src/index.ts:325-331 | a remove that starts from lists held as text leaves both lists held as text, so the menu's next reads as written succeed |
| LegacyIndex.RemoveNothingSelected | src/index.ts:312-315 | with no item selected the configuration is unchanged |
| LegacyIndex.RemoveModsMembers | src/index.ts:325-331 | corrected reader: a mod ID is kept exactly when no removed item declares it, and an item exactly when it was not removed |

Where the code departs from the documented design of the tool, the model
follows the code:

- The remove command writes its filtered lists without deduplicating them
  (`ModsRemove.WriteRaw`).
- The update command prepends the new mods when the anchor mod is absent,
  where the add command reports an error (`Placement.PlaceUnchecked`).
- The legacy parser neither deduplicates nor recognises "ModID: "
  (`LegacyWorkshop.RepeatedKept`, `LegacyWorkshop.JoinedSpellingIgnored`).
- The ID validation of the check command is a set of independent fetches,
  one per ID (`ModsCheck.ValidateIds`).

## Left out

- The Steam API requests (`fetchWorkshopItemsChunk` and `constructWorkshopItemURL` in steam/items.go:154-190, steam/util.go, and the request in src/workshop.ts:46-61): the chunk fetch is a function parameter that returns rows or an error. Timeouts, the API key and the URL are not modelled. Where the interactive commands take the outcome of `steam.FetchWorkshopItems` as a parameter (`ModsCheck.ItemsFetch`, the bulk fetch of `ModsRemove`), the parameter keeps the one guarantee that function makes whatever Steam answers: an empty ID list gets no items and nothing missing (`Fetch.EmptyAnswered`).
- The prompts (survey and inquirer, `Confirm`, `Continue`, and the command loops around add, update and remove): each answer is a parameter of the operation that asks for it.
- `checkDependencies` (interactive/mods-add.go:89-117) asks, for each required item Steam returns, whether to add it, listed or not, and adds each accepted one with `addMod`, which checks that item's own required items in turn (interactive/mods_util.go:200). The required IDs Steam does not return are only printed. This prompt-driven recursion is not modelled: the model covers one add, and what the check command reports about missing dependencies.
- The warnings about required items after a legacy add (src/index.ts:261-274): for each required item that is not installed, a fetch of its details (`getPublishedItemsDetails`, src/index.ts:266) used only for a warning. Its effect on the module cache is not modelled, nor the failure of that fetch, which reaches `main().catch` and ends the program with the add unsaved.
- The clock: `time.Now()` is the `now` parameter, and the cache's expiration is in whole seconds.
- Concurrency: the goroutines of the remove command (interactive/mods-remove.go:224-300) only fill sets under a mutex, and are modelled as sequential loops. The goroutines of the check command (interactive/mods-check.go:51-73) each call `steam.FetchWorkshopItems`, which reads and writes the package-level cache map (steam/items.go:99-122, steam/cache.go:23-41) without a lock. `ModsCheck.ValidateIds` runs those validations one after another, each as a plain fetch of one ID. The shared cache in those calls, and its unsynchronised map access, which Go may stop with a fatal "concurrent map writes" error, are not modelled. `Promise.all` in src/workshop.ts:84 is modelled as serving the chunks one after another, each seeing the cache the previous one left.
- interactive/mods-collection.go: it fans out goroutines that mutate the shared configuration, and recurses over collections without a visited set. Neither the interleaving nor the unbounded recursion is modelled.
- Floating-point parsing: the `Number()` branch of `parseValue` in src/ini.ts:17 is the `number` parameter. JavaScript's printing of numbers is not modelled; a numeric value is rendered as the text it was read from.
- JavaScript object key order: integer-like keys are listed first by JavaScript, and `__proto__` is special. The legacy configuration is an ordered list of keys in insertion order.
- `toLowerCase` beyond ASCII: `LegacyIni.LowerAscii` folds A–Z only, which is enough to compare with "true" and "false".
- Message texts, colours, titles, `GetWorkshopLink`, terminal links and `HumanizeBytes`.
- File access: `Load`, `Save`, `SaveTo`, `HasUnsavedChanges`, `NewServerConfig`, and the legacy backup, `readFile` and `writeFile`. The configuration text is a parameter, and the text to be written is a result.
- `eol.OSDefault`: the operating system's line ending is the `osDefault` parameter.
- The menus, `main.go` and `commands/*`. This includes the shadowed value in commands/set.go:50-56, which never reaches `config.Set`.
- The legacy configuration object and its in-place `splice`: the object is a value, so aliasing and the in-place update are not modelled.
- Slices.Chunked: the chunk size must be positive. The legacy `chunk` with size 0 never terminates.
- UTF-8 decoding in `eol.Detect`: the content is a sequence of characters.
- Ini.ServerConfig.ParseLine, Ini.ServerConfig.ParseLines, Ini.ServerConfig.FromString: follow the source's reading, which keeps an inline comment as bare text; the round trip of a loaded file is therefore not promised for them (see the first finding).
- IniRoundTrip.ParsedKeyWellFormed: stated for the corrected reading only; the source's reading of `a=1 #b=2` is not well formed (`IniRoundTrip.InlineCommentAsWritten`).
- IniRoundTrip.ParseFromWellFormed: stated for the corrected reading only, for the same reason.
- IniRoundTrip.LoadSaveLoad: stated for the corrected reading only; for the source's reading it fails (`IniRoundTrip.InlineCommentNotRestored`).
- LegacyIni.GetFromServerConfigPieces: states the corrected reader; the reader as written throws on a value read as a number or a boolean (`LegacyIni.AsWrittenReadAgrees`).
- LegacyIni.ReadListClean: states the corrected reader, which the reader as written matches only on values held as text.
- LegacyIndex.ListItemEffect: reads `WorkshopItems` with the corrected reader. A numeric or boolean `Mods` or `WorkshopItems` makes the source throw at the menu's first reads (src/index.ts:91-102), before any add or remove; `LegacyIndex.MenuReadsAsWritten` states that, and the add and remove keep both lists as text.
- LegacyIndex.AddModLists: reads the lists with the corrected reader; the case where the source throws is the one `LegacyIndex.MenuReadsAsWritten` excludes before any add.
- LegacyIndex.RemoveModsLists: reads the lists with the corrected reader; the case where the source throws is the one `LegacyIndex.MenuReadsAsWritten` excludes before any remove.
- LegacyIndex.RemoveModsMembers: as for `LegacyIndex.RemoveModsLists`.
- Text: this module models the Go `strings` and JavaScript string functions the source calls, not the source itself, so its members have no rows above.

## Findings

| source | as written | input that shows it | evidently intended | confidence | as-written member | corrected member |
|---|---|---|---|---|---|---|
| ini/ini.go:170-173 | an inline comment is stored as the entry's last comment without its '#' | the line `a=1 #b=2` loads with the comment `b=2`; on save that comment is written as a bare line, which the next load reads as an entry | keep the '#' so the comment is written back as a comment line | not executed; high | IniRoundTrip.InlineCommentNotRestored | IniRoundTrip.LoadSaveLoad |
| interactive/mods_util.go:214-219 | the item is taken as `(*items)[0]` after checking only that nothing is missing | Steam answers with no rows and no missing IDs | refuse the add when no item came back | not executed; medium | ModsUtil.EmptyAnswerPanics | ModsUtil.AddModWithoutPrompt |
| interactive/mods_util.go:250-256 | the error of the fetch of required items is ignored, and the nil result is then searched | an item with children whose child fetch fails | add the item without its required items, or stop | not executed; high | ModsUtil.ChildFetchErrorPanics | ModsUtil.UnattendedAppends |
| interactive/mods-update.go:87-131 | the pre-selected mods are removed from the selection before insertion | an item declaring a single mod, not yet listed, with that mod selected | insert the selected mods that are not yet listed | not executed; high | ModsUpdate.SingleModNeverInserted | ModsUpdate.UpdatePlanMods |
| interactive/mods-update.go:133-140 | the mods are inserted as bare mod IDs | item `id` with mods `m` and `n`, `m` selected, placed at the end | insert `id\m`, as the add command does | not executed; medium | ModsUpdate.BareModIdInserted | ModsUpdate.UpdateInsertsChosen |
| src/ini.ts:77-79 | the stored value is split as if it were always a string | `WorkshopItems=2392709985`, which `parseValue` turns into a number | split the value's text | not executed; high | LegacyIni.NumericListThrows | LegacyIni.SetThenGet |
