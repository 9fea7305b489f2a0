/**
 * Helpers of the add-mod flow (interactive/mods-add.go): the prompt's
 * pre-selected entries and the map list read from the configuration.
 */
module ModsAdd {
  import opened Wrappers
  import opened Text
  import opened Ini
  import opened Shared

  /** The entries of `mods` that appear in `list`, in the order of `mods`. */
  function Enabled(mods: seq<string>, list: seq<string>): seq<string>
    decreases |mods|
  {
    if mods == [] then []
    else
      var last := mods[|mods| - 1];
      Enabled(mods[..|mods| - 1], list) + (if last in list then [last] else [])
  }

  /** An entry is pre-selected exactly when it is offered and already listed. */
  lemma {:induction false} EnabledMembers(mods: seq<string>, list: seq<string>, x: string)
    ensures x in Enabled(mods, list) <==> x in mods && x in list
    decreases |mods|
  {
    if mods != [] {
      var init := mods[..|mods| - 1];
      assert mods == init + [mods[|mods| - 1]];
      EnabledMembers(init, list, x);
    }
  }

  /** The selection keeps relative order: selecting from `a + b` is selecting from `a`, then from `b`. */
  lemma {:induction false} EnabledConcat(a: seq<string>, b: seq<string>, list: seq<string>)
    ensures Enabled(a + b, list) == Enabled(a, list) + Enabled(b, list)
    decreases |b|
  {
    if b == [] {
      assert a + b == a;
    } else {
      var b' := b[..|b| - 1];
      EnabledConcat(a, b', list);
      assert (a + b)[..|a + b| - 1] == a + b';
    }
  }

  /** getEnabledMods: a single offered entry is pre-selected whatever the list holds; otherwise the listed ones. */
  function EnabledDefaults(mods: seq<string>, list: seq<string>): (r: seq<string>)
    ensures |mods| == 1 ==> r == mods
  {
    if |mods| == 1 then mods else Enabled(mods, list)
  }

  /** getEnabledMods, looping over the offered entries. */
  method GetEnabledMods(mods: seq<string>, list: seq<string>) returns (enabled: seq<string>)
    ensures enabled == EnabledDefaults(mods, list)
  {
    if |mods| == 1 {
      return mods;
    }
    enabled := [];
    for i := 0 to |mods|
      invariant enabled == Enabled(mods[..i], list)
    {
      assert mods[..i + 1][..i] == mods[..i];
      var on := IsEnabled(mods[i], list);
      if on {
        enabled := enabled + [mods[i]];
      }
    }
    assert mods[..|mods|] == mods;
  }

  /** getMapList: the stored `Map` value split on `;`, or no entry when it is empty or absent. */
  function MapList(keys: seq<ConfigKey>): seq<string> {
    var value := ValueOf(keys, KeyMap);
    if value == "" then [] else Split(value, ";")
  }

  /** The map list is empty exactly when the stored value is, and joining it back gives the stored value. */
  lemma MapListJoin(keys: seq<ConfigKey>)
    ensures MapList(keys) == [] <==> ValueOf(keys, KeyMap) == ""
    ensures Join(MapList(keys), ";") == ValueOf(keys, KeyMap)
  {
    if ValueOf(keys, KeyMap) != "" {
      JoinSplit(ValueOf(keys, KeyMap), ";");
    }
  }

  /** A value without empty pieces is split on `;` unchanged: no trimming, dropping or deduplication. */
  lemma MapListOfJoin(keys: seq<ConfigKey>, maps: seq<string>)
    requires |maps| >= 1 && ValueOf(keys, KeyMap) == Join(maps, ";") && ValueOf(keys, KeyMap) != ""
    requires forall i | 0 <= i < |maps| :: ';' !in maps[i]
    ensures MapList(keys) == maps
  {
    SplitJoin(maps, ";");
  }

  /** getMapList on a configuration object. */
  method GetMapList(config: ServerConfig) returns (maps: seq<string>)
    ensures maps == MapList(config.keys)
  {
    var list := config.GetOrDefault(KeyMap, "");
    if list == "" {
      return [];
    }
    return Split(list, ";");
  }
}
