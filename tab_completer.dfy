// Tab completion for the /herbalism command (command/HerbalismTabCompleter.java).
// The sender's permissions, the names of the online players and the crop
// type ids (None when there is no crop manager) are parameters.

module TabCompletion {
  import opened Wrappers
  import opened Text

  const SUBCOMMANDS: seq<string> := ["help", "about", "reload", "menu", "stats", "exp", "level", "load"]
  const ACTIONS: seq<string> := ["set", "add", "take"]
  const EXP_AMOUNTS: seq<string> := ["100", "500", "1000", "5000"]
  const LEVEL_AMOUNTS: seq<string> := ["1", "5", "10", "25", "50", "100"]
  const LOAD_TYPES: seq<string> := ["item", "fertilizer", "crop"]
  const LOAD_AMOUNTS: seq<string> := ["1", "5", "10", "64"]
  const ITEM_IDS: seq<string> := ["magic_wheat_seeds", "golden_carrot_seeds", "farmers_hoe", "herbalists_staff",
    "crop_guide", "soil_tester", "growth_detector", "time_crystal", "essence_of_growth"]
  const FERTILIZER_IDS: seq<string> := ["bone_meal", "compost", "super_fertilizer", "miracle_grow", "instant_grow",
    "root_booster", "fruit_enhancer", "grain_accelerator", "time_warp_dust", "divine_essence"]

  const EXP_PERMISSION: string := "herbalism.command.exp"
  const LEVEL_PERMISSION: string := "herbalism.command.level"
  const LOAD_PERMISSION: string := "herbalism.command.load"

  /** The case-insensitive prefix test every completion applies. */
  predicate Matches(suggestion: string, partial: string)
  {
    StartsWith(ToLower(suggestion), ToLower(partial))
  }

  /** The stream filter: the suggestions that match, in their order. */
  function Filtered(suggestions: seq<string>, partial: string): (r: seq<string>)
    ensures |r| <= |suggestions|
    ensures forall x :: x in r <==> x in suggestions && Matches(x, partial)
  {
    if |suggestions| == 0 then []
    else
      var rest := Filtered(suggestions[1..], partial);
      assert forall x :: x in suggestions <==> x == suggestions[0] || x in suggestions[1..];
      if Matches(suggestions[0], partial) then [suggestions[0]] + rest else rest
  }

  /** `r` is `s` with some elements dropped and the rest in order. */
  predicate SubsequenceOf(r: seq<string>, s: seq<string>)
    decreases |s|
  {
    |r| == 0 || (|s| > 0 && if r[0] == s[0] then SubsequenceOf(r[1..], s[1..]) else SubsequenceOf(r, s[1..]))
  }

  /** The filter keeps the order of the suggestions and keeps every
      matching occurrence, duplicates included. */
  lemma {:induction false} FilteredKeepsOrder(suggestions: seq<string>, partial: string)
    ensures SubsequenceOf(Filtered(suggestions, partial), suggestions)
    ensures forall x :: (multiset(Filtered(suggestions, partial))[x] ==
      if Matches(x, partial) then multiset(suggestions)[x] else 0)
  {
    if |suggestions| > 0 {
      FilteredKeepsOrder(suggestions[1..], partial);
      assert suggestions == [suggestions[0]] + suggestions[1..];
      var r := Filtered(suggestions, partial);
      if Matches(suggestions[0], partial) {
        assert r[1..] == Filtered(suggestions[1..], partial);
      }
    }
  }

  /** Every string starts with the empty prefix. */
  lemma {:induction false} EmptyPartialMatchesAll(suggestions: seq<string>)
    ensures Filtered(suggestions, "") == suggestions
  {
    if |suggestions| > 0 {
      EmptyPartialMatchesAll(suggestions[1..]);
      assert ToLower("") == "";
      assert Matches(suggestions[0], "");
      assert suggestions == [suggestions[0]] + suggestions[1..];
    }
  }

  /** `filterSuggestions`: the list itself for an empty partial, otherwise
      the filter; the shortcut gives the same list the filter would. */
  function FilterSuggestions(suggestions: seq<string>, partial: string): (r: seq<string>)
    ensures partial == "" ==> r == suggestions
    ensures r == Filtered(suggestions, partial)
  {
    if partial == "" then
      EmptyPartialMatchesAll(suggestions);
      suggestions
    else Filtered(suggestions, partial)
  }

  /** `getCropIds`: empty without a crop manager, otherwise the matching
      crop type ids. */
  function CropIds(cropTypeIds: Option<seq<string>>, partial: string): (r: seq<string>)
    ensures cropTypeIds.None? ==> r == []
    ensures cropTypeIds.Some? ==> forall x :: x in r <==> x in cropTypeIds.value && Matches(x, partial)
  {
    if cropTypeIds.None? then [] else Filtered(cropTypeIds.value, partial)
  }

  /** `handleExpTabComplete`. */
  function ExpCompletions(args: seq<string>, permissions: set<string>, onlinePlayers: seq<string>): seq<string>
    requires |args| >= 2
  {
    if EXP_PERMISSION !in permissions then []
    else if |args| == 2 then FilterSuggestions(ACTIONS, args[1])
    else if |args| == 3 then FilterSuggestions(EXP_AMOUNTS, args[2])
    else if |args| == 4 then Filtered(onlinePlayers, args[3])
    else []
  }

  /** `handleLevelTabComplete`. */
  function LevelCompletions(args: seq<string>, permissions: set<string>, onlinePlayers: seq<string>): seq<string>
    requires |args| >= 2
  {
    if LEVEL_PERMISSION !in permissions then []
    else if |args| == 2 then FilterSuggestions(ACTIONS, args[1])
    else if |args| == 3 then FilterSuggestions(LEVEL_AMOUNTS, args[2])
    else if |args| == 4 then Filtered(onlinePlayers, args[3])
    else []
  }

  /** `handleLoadTabComplete`: the third argument completes the ids of the
      type the second names. */
  function LoadCompletions(args: seq<string>, permissions: set<string>, onlinePlayers: seq<string>,
                           cropTypeIds: Option<seq<string>>): seq<string>
    requires |args| >= 2
  {
    if LOAD_PERMISSION !in permissions then []
    else if |args| == 2 then FilterSuggestions(LOAD_TYPES, args[1])
    else if |args| == 3 then
      var loadType := ToLower(args[1]);
      if loadType == "item" then FilterSuggestions(ITEM_IDS, args[2])
      else if loadType == "fertilizer" then FilterSuggestions(FERTILIZER_IDS, args[2])
      else if loadType == "crop" then CropIds(cropTypeIds, args[2])
      else []
    else if |args| == 4 then FilterSuggestions(LOAD_AMOUNTS, args[3])
    else if |args| == 5 then Filtered(onlinePlayers, args[4])
    else []
  }

  /** The subcommand names and aliases that have completions. */
  predicate IsStatsAlias(s: string) { s == "stats" || s == "status" || s == "check" }
  predicate IsExpAlias(s: string) { s == "exp" || s == "experience" || s == "xp" }
  predicate IsLoadAlias(s: string) { s == "load" || s == "give" }

  /** `onTabComplete`. */
  function OnTabComplete(args: seq<string>, permissions: set<string>, onlinePlayers: seq<string>,
                         cropTypeIds: Option<seq<string>>): (r: seq<string>)
    ensures |args| == 0 ==> r == []
    ensures |args| == 1 ==> r == FilterSuggestions(SUBCOMMANDS, args[0])
    ensures (|args| >= 2 && !IsStatsAlias(ToLower(args[0])) && !IsExpAlias(ToLower(args[0])) &&
      ToLower(args[0]) != "level" && !IsLoadAlias(ToLower(args[0]))) ==> r == []
  {
    if |args| == 1 then FilterSuggestions(SUBCOMMANDS, args[0])
    else if |args| >= 2 then
      var subCommand := ToLower(args[0]);
      if IsStatsAlias(subCommand) then Filtered(onlinePlayers, args[1])
      else if IsExpAlias(subCommand) then ExpCompletions(args, permissions, onlinePlayers)
      else if subCommand == "level" then LevelCompletions(args, permissions, onlinePlayers)
      else if IsLoadAlias(subCommand) then LoadCompletions(args, permissions, onlinePlayers, cropTypeIds)
      else []
    else []
  }

  /** Without the matching permission the exp, level and load branches
      complete nothing. */
  lemma PermissionGates(args: seq<string>, permissions: set<string>, onlinePlayers: seq<string>,
                        cropTypeIds: Option<seq<string>>)
    requires |args| >= 2
    ensures IsExpAlias(ToLower(args[0])) && EXP_PERMISSION !in permissions ==>
      OnTabComplete(args, permissions, onlinePlayers, cropTypeIds) == []
    ensures ToLower(args[0]) == "level" && LEVEL_PERMISSION !in permissions ==>
      OnTabComplete(args, permissions, onlinePlayers, cropTypeIds) == []
    ensures IsLoadAlias(ToLower(args[0])) && LOAD_PERMISSION !in permissions ==>
      OnTabComplete(args, permissions, onlinePlayers, cropTypeIds) == []
  {
  }

  /** With three arguments, `load` completes the ids of the named type,
      crop type ids included, and nothing for an unknown type. */
  lemma LoadDispatch(args: seq<string>, permissions: set<string>, onlinePlayers: seq<string>,
                     cropTypeIds: Option<seq<string>>)
    requires |args| == 3 && IsLoadAlias(ToLower(args[0])) && LOAD_PERMISSION in permissions
    ensures ToLower(args[1]) == "crop" ==>
      OnTabComplete(args, permissions, onlinePlayers, cropTypeIds) == CropIds(cropTypeIds, args[2])
    ensures ToLower(args[1]) == "item" ==>
      OnTabComplete(args, permissions, onlinePlayers, cropTypeIds) == Filtered(ITEM_IDS, args[2])
    ensures ToLower(args[1]) == "fertilizer" ==>
      OnTabComplete(args, permissions, onlinePlayers, cropTypeIds) == Filtered(FERTILIZER_IDS, args[2])
    ensures ToLower(args[1]) !in {"item", "fertilizer", "crop"} ==>
      OnTabComplete(args, permissions, onlinePlayers, cropTypeIds) == []
  {
  }

  /** Every completion starts, ignoring case, with the argument being
      typed, the last one, except in the stats branch past its second
      argument, where player names keep being filtered by the second. */
  lemma CompletionsMatchLastArgument(args: seq<string>, permissions: set<string>, onlinePlayers: seq<string>,
                                     cropTypeIds: Option<seq<string>>)
    requires |args| >= 1
    requires |args| > 2 ==> !IsStatsAlias(ToLower(args[0]))
    ensures forall x :: x in OnTabComplete(args, permissions, onlinePlayers, cropTypeIds) ==>
      Matches(x, args[|args| - 1])
  {
  }

  /** In the stats branch the second argument alone filters the names,
      however many arguments follow it. */
  lemma StatsIgnoresLaterArguments(args: seq<string>, permissions: set<string>, onlinePlayers: seq<string>,
                                   cropTypeIds: Option<seq<string>>)
    requires |args| >= 2 && IsStatsAlias(ToLower(args[0]))
    ensures OnTabComplete(args, permissions, onlinePlayers, cropTypeIds) == Filtered(onlinePlayers, args[1])
  {
  }
}
