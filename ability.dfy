// An ability as configured (ability/Ability.java): its type and the list of
// levels, each with the player level it requires, an effect value and a
// chance. The configuration section is given already read, with a missing
// value as None.

module Abilities {
  import opened JavaNum
  import opened Wrappers
  import opened Text

  datatype AbilityType = Passive | Active | Conditional | Toggle

  /** `AbilityType.valueOf(s.toUpperCase())`: an unknown name is the
      IllegalArgumentException it throws, here None. */
  function ParseAbilityType(s: string): (r: Option<AbilityType>)
    ensures r == Some(Passive) <==> ToUpper(s) == "PASSIVE"
    ensures r == Some(Active) <==> ToUpper(s) == "ACTIVE"
    ensures r == Some(Conditional) <==> ToUpper(s) == "CONDITIONAL"
    ensures r == Some(Toggle) <==> ToUpper(s) == "TOGGLE"
    ensures r.None? <==> ToUpper(s) !in {"PASSIVE", "ACTIVE", "CONDITIONAL", "TOGGLE"}
  {
    var u := ToUpper(s);
    if u == "PASSIVE" then Some(Passive)
    else if u == "ACTIVE" then Some(Active)
    else if u == "CONDITIONAL" then Some(Conditional)
    else if u == "TOGGLE" then Some(Toggle)
    else None
  }

  datatype AbilityLevel = AbilityLevel(
    level: int,
    requiredLevel: int,
    effectValue: real,
    chance: real,
    description: string)

  /** One sub-section of `levels`: its key and its values (None when the key
      does not name a section). */
  datatype LevelConfig = LevelConfig(
    requiredLevel: Option<int>,
    effectValue: Option<real>,
    chance: Option<real>,
    description: Option<string>)

  datatype LevelEntry = LevelEntry(key: string, section: Option<LevelConfig>)

  /** The ability's own section. */
  datatype AbilityConfig = AbilityConfig(
    name: Option<string>,
    description: Option<string>,
    lore: seq<string>,
    typeName: Option<string>,
    maxLevel: Option<int>,
    passive: Option<bool>,
    cooldown: Option<int>,
    levels: Option<seq<LevelEntry>>)

  function GetOr<T>(o: Option<T>, default: T): T
  {
    if o.Some? then o.value else default
  }

  /** `new AbilityLevel(level, section)`, with the defaults 1, 0.0, 1.0, "". */
  function MakeLevel(level: int, c: LevelConfig): AbilityLevel
  {
    AbilityLevel(level, GetOr(c.requiredLevel, 1), GetOr(c.effectValue, 0.0),
      GetOr(c.chance, 1.0), GetOr(c.description, ""))
  }

  /** The level an entry contributes: its key must parse as an `int` and name
      a section; any other entry is skipped. */
  function EntryLevel(e: LevelEntry): Option<AbilityLevel>
  {
    var n := ParseInt(e.key);
    if n.Some? && e.section.Some? then Some(MakeLevel(n.value, e.section.value)) else None
  }

  /** The levels the constructor's loop collects, in configuration order. */
  function Collected(entries: seq<LevelEntry>): (r: seq<AbilityLevel>)
    ensures |r| <= |entries|
    ensures forall x :: x in r ==>
      exists i :: 0 <= i < |entries| && EntryLevel(entries[i]) == Some(x)
    ensures forall i :: 0 <= i < |entries| && EntryLevel(entries[i]).Some? ==>
      EntryLevel(entries[i]).value in r
  {
    if |entries| == 0 then []
    else
      var init := entries[..|entries| - 1];
      var rest := Collected(init);
      assert forall i :: 0 <= i < |init| ==> init[i] == entries[i];
      var e := EntryLevel(entries[|entries| - 1]);
      if e.Some? then rest + [e.value] else rest
  }

  predicate SortedByLevel(levels: seq<AbilityLevel>)
  {
    forall i, j :: 0 <= i < j < |levels| ==> levels[i].level <= levels[j].level
  }

  /** Inserts `x` after every entry whose level number is not greater, so
      entries with equal numbers keep their order. */
  function InsertByLevel(sorted: seq<AbilityLevel>, x: AbilityLevel): (r: seq<AbilityLevel>)
    ensures multiset(r) == multiset(sorted) + multiset{x}
  {
    if |sorted| == 0 then [x]
    else if x.level < sorted[0].level then [x] + sorted
    else
      assert sorted == [sorted[0]] + sorted[1..];
      [sorted[0]] + InsertByLevel(sorted[1..], x)
  }

  lemma {:induction false} InsertKeepsSorted(sorted: seq<AbilityLevel>, x: AbilityLevel)
    requires SortedByLevel(sorted)
    ensures SortedByLevel(InsertByLevel(sorted, x))
  {
    if |sorted| > 0 && x.level >= sorted[0].level {
      var t := InsertByLevel(sorted[1..], x);
      InsertKeepsSorted(sorted[1..], x);
      forall k | 0 <= k < |t|
        ensures sorted[0].level <= t[k].level
      {
        assert t[k] in multiset(t);
        if t[k] != x {
          assert t[k] in multiset(sorted[1..]);
          assert t[k] in sorted[1..];
        }
      }
      var r := [sorted[0]] + t;
      assert forall j :: 1 <= j < |r| ==> r[j] == t[j - 1];
    }
  }

  /** `levels.sort(...)` on an `ArrayList`: a stable sort by level number. */
  function SortByLevel(levels: seq<AbilityLevel>): (r: seq<AbilityLevel>)
    ensures multiset(r) == multiset(levels)
    ensures SortedByLevel(r)
  {
    if |levels| == 0 then []
    else
      assert levels == levels[..|levels| - 1] + [levels[|levels| - 1]];
      var init := SortByLevel(levels[..|levels| - 1]);
      InsertKeepsSorted(init, levels[|levels| - 1]);
      InsertByLevel(init, levels[|levels| - 1])
  }

  /** The entries carrying level number `n`, in their order in `s`. */
  function WithLevel(s: seq<AbilityLevel>, n: int): seq<AbilityLevel>
  {
    if |s| == 0 then []
    else (if s[0].level == n then [s[0]] else []) + WithLevel(s[1..], n)
  }

  lemma WithLevelCons(y: AbilityLevel, s: seq<AbilityLevel>, n: int)
    ensures WithLevel([y] + s, n) == (if y.level == n then [y] else []) + WithLevel(s, n)
  {
    assert ([y] + s)[0] == y;
    assert ([y] + s)[1..] == s;
  }

  lemma {:induction false} WithLevelConcat(a: seq<AbilityLevel>, b: seq<AbilityLevel>, n: int)
    ensures WithLevel(a + b, n) == WithLevel(a, n) + WithLevel(b, n)
  {
    if |a| == 0 {
      assert a + b == b;
    } else {
      assert a == [a[0]] + a[1..];
      assert a + b == [a[0]] + (a[1..] + b);
      WithLevelCons(a[0], a[1..] + b, n);
      WithLevelCons(a[0], a[1..], n);
      WithLevelConcat(a[1..], b, n);
    }
  }

  lemma {:induction false} WithLevelNone(s: seq<AbilityLevel>, n: int)
    requires forall i :: 0 <= i < |s| ==> s[i].level != n
    ensures WithLevel(s, n) == []
  {
    if |s| > 0 {
      WithLevelNone(s[1..], n);
    }
  }

  /** Inserting `x` into a sorted list appends it to the entries of its own
      level number and leaves the entries of every other number in order. */
  lemma {:induction false} InsertStable(sorted: seq<AbilityLevel>, x: AbilityLevel, n: int)
    requires SortedByLevel(sorted)
    ensures WithLevel(InsertByLevel(sorted, x), n) == WithLevel(sorted, n) + (if x.level == n then [x] else [])
  {
    var own := if x.level == n then [x] else [];
    if |sorted| == 0 {
      assert InsertByLevel(sorted, x) == [x] + [];
      WithLevelCons(x, [], n);
      assert WithLevel([], n) == [];
      assert WithLevel(InsertByLevel(sorted, x), n) == own;
      assert WithLevel(sorted, n) + own == own;
    } else if x.level < sorted[0].level {
      InsertFrontStable(sorted, x, n);
    } else {
      var y := sorted[0];
      var rest := sorted[1..];
      var t := InsertByLevel(rest, x);
      var head := if y.level == n then [y] else [];
      assert InsertByLevel(sorted, x) == [y] + t;
      assert WithLevel(sorted, n) == head + WithLevel(rest, n);
      InsertStable(rest, x, n);
      WithLevelCons(y, t, n);
      calc {
        WithLevel([y] + t, n);
        head + WithLevel(t, n);
        head + (WithLevel(rest, n) + own);
        { ConcatAssoc(head, WithLevel(rest, n), own); }
        (head + WithLevel(rest, n)) + own;
        WithLevel(sorted, n) + own;
      }
    }
  }

  lemma ConcatAssoc(a: seq<AbilityLevel>, b: seq<AbilityLevel>, c: seq<AbilityLevel>)
    ensures a + (b + c) == (a + b) + c
  {
  }

  /** The case where `x` goes in front: no entry of the sorted list has its
      number, since all are greater. */
  lemma InsertFrontStable(sorted: seq<AbilityLevel>, x: AbilityLevel, n: int)
    requires SortedByLevel(sorted) && |sorted| > 0 && x.level < sorted[0].level
    ensures WithLevel(InsertByLevel(sorted, x), n) == WithLevel(sorted, n) + (if x.level == n then [x] else [])
  {
    assert InsertByLevel(sorted, x) == [x] + sorted;
    WithLevelCons(x, sorted, n);
    if x.level == n {
      assert forall i :: 0 <= i < |sorted| ==> sorted[0].level <= sorted[i].level;
      WithLevelNone(sorted, n);
      assert WithLevel([x] + sorted, n) == [x] + [];
      assert WithLevel(sorted, n) + [x] == [] + [x];
    } else {
      assert WithLevel([x] + sorted, n) == [] + WithLevel(sorted, n);
      assert WithLevel(sorted, n) + [] == WithLevel(sorted, n);
    }
  }

  /** The sort is stable: for every level number, the entries with that
      number keep their configuration order. */
  lemma {:induction false} SortByLevelStable(levels: seq<AbilityLevel>, n: int)
    ensures WithLevel(SortByLevel(levels), n) == WithLevel(levels, n)
  {
    if |levels| > 0 {
      var init := levels[..|levels| - 1];
      var last := levels[|levels| - 1];
      var tail := if last.level == n then [last] else [];
      assert levels == init + [last];
      assert SortByLevel(levels) == InsertByLevel(SortByLevel(init), last);
      SortByLevelStable(init, n);
      InsertStable(SortByLevel(init), last, n);
      assert WithLevel(SortByLevel(levels), n) == WithLevel(init, n) + tail;
      WithLevelConcat(init, [last], n);
      assert WithLevel([last], n) == tail + WithLevel([], n);
    }
  }

  datatype Ability = Ability(
    id: string,
    name: string,
    description: string,
    lore: seq<string>,
    abilityType: AbilityType,
    maxLevel: int,
    levels: seq<AbilityLevel>,
    passive: bool,
    cooldown: int)
  {
    /** `getLevel`: the first entry with that number, or null (None). */
    function GetLevel(n: int): (r: Option<AbilityLevel>)
      ensures r.None? <==> forall i :: 0 <= i < |levels| ==> levels[i].level != n
      ensures r.Some? ==> exists i :: (0 <= i < |levels| && levels[i] == r.value &&
        levels[i].level == n && forall j :: 0 <= j < i ==> levels[j].level != n)
    {
      FirstWithLevel(levels, n)
    }

    /** `getUnlockedLevel`. */
    function UnlockedLevel(playerLevel: int): (r: int)
      ensures r >= 0
      ensures forall i :: 0 <= i < |levels| && playerLevel >= levels[i].requiredLevel ==> levels[i].level <= r
      ensures r == 0 || exists i :: 0 <= i < |levels| && playerLevel >= levels[i].requiredLevel && levels[i].level == r
    {
      HighestUnlocked(levels, playerLevel)
    }

    /** `canUse`: an entry with that number exists and the player meets the
        requirement of the first such entry. */
    predicate CanUse(playerLevel: int, abilityLevel: int)
    {
      var l := GetLevel(abilityLevel);
      l.Some? && playerLevel >= l.value.requiredLevel
    }

    /** `getEffectValue`: 0.0 for a level that is not configured. */
    function EffectValue(n: int): (r: real)
      ensures (forall i :: 0 <= i < |levels| ==> levels[i].level != n) ==> r == 0.0
      ensures r != 0.0 ==> exists i :: 0 <= i < |levels| && levels[i].level == n && levels[i].effectValue == r
      ensures forall i :: (0 <= i < |levels| && levels[i].level == n &&
        forall j :: 0 <= j < i ==> levels[j].level != n) ==> r == levels[i].effectValue
    {
      var l := GetLevel(n);
      if l.Some? then l.value.effectValue else 0.0
    }

    /** `getChance`: 0.0 for a level that is not configured. */
    function Chance(n: int): (r: real)
      ensures (forall i :: 0 <= i < |levels| ==> levels[i].level != n) ==> r == 0.0
      ensures r != 0.0 ==> exists i :: 0 <= i < |levels| && levels[i].level == n && levels[i].chance == r
      ensures forall i :: (0 <= i < |levels| && levels[i].level == n &&
        forall j :: 0 <= j < i ==> levels[j].level != n) ==> r == levels[i].chance
    {
      var l := GetLevel(n);
      if l.Some? then l.value.chance else 0.0
    }
  }

  function FirstWithLevel(levels: seq<AbilityLevel>, n: int): (r: Option<AbilityLevel>)
    ensures r.None? <==> forall i :: 0 <= i < |levels| ==> levels[i].level != n
    ensures r.Some? ==> exists i :: (0 <= i < |levels| && levels[i] == r.value &&
      levels[i].level == n && forall j :: 0 <= j < i ==> levels[j].level != n)
  {
    if |levels| == 0 then None
    else if levels[0].level == n then Some(levels[0])
    else
      var r := FirstWithLevel(levels[1..], n);
      assert forall i :: 1 <= i < |levels| ==> levels[i] == levels[1..][i - 1];
      r
  }

  /** The loop of `getUnlockedLevel`: the maximum of 0 and the level numbers
      of every entry whose requirement the player meets. */
  function HighestUnlocked(levels: seq<AbilityLevel>, playerLevel: int): (r: int)
    ensures r >= 0
    ensures forall i :: 0 <= i < |levels| && playerLevel >= levels[i].requiredLevel ==> levels[i].level <= r
    ensures r == 0 || exists i :: 0 <= i < |levels| && playerLevel >= levels[i].requiredLevel && levels[i].level == r
  {
    if |levels| == 0 then 0
    else
      var rest := HighestUnlocked(levels[1..], playerLevel);
      assert forall i :: 1 <= i < |levels| ==> levels[i] == levels[1..][i - 1];
      if playerLevel >= levels[0].requiredLevel then Max(levels[0].level, rest) else rest
  }

  /** A higher player level never unlocks a lower ability level. */
  lemma {:induction false} UnlockedMonotone(levels: seq<AbilityLevel>, p1: int, p2: int)
    requires p1 <= p2
    ensures HighestUnlocked(levels, p1) <= HighestUnlocked(levels, p2)
  {
    if |levels| > 0 {
      UnlockedMonotone(levels[1..], p1, p2);
    }
  }

  /** A positive unlocked level is always one that `getLevel` finds. */
  lemma UnlockedIsConfigured(a: Ability, playerLevel: int)
    requires a.UnlockedLevel(playerLevel) > 0
    ensures a.GetLevel(a.UnlockedLevel(playerLevel)).Some?
  {
  }

  /** When level numbers are distinct, the unlocked level can be used. */
  lemma UnlockedIsUsable(a: Ability, playerLevel: int)
    requires forall i, j :: 0 <= i < j < |a.levels| ==> a.levels[i].level != a.levels[j].level
    requires a.UnlockedLevel(playerLevel) > 0
    ensures a.CanUse(playerLevel, a.UnlockedLevel(playerLevel))
  {
    var n := a.UnlockedLevel(playerLevel);
    var i :| 0 <= i < |a.levels| && playerLevel >= a.levels[i].requiredLevel && a.levels[i].level == n;
    var k :| 0 <= k < |a.levels| && a.levels[k] == a.GetLevel(n).value &&
      a.levels[k].level == n && forall j :: 0 <= j < k ==> a.levels[j].level != n;
  }

  /** A usable level is never above the unlocked one, and stays usable at
      any higher player level. */
  lemma CanUseWithinUnlocked(a: Ability, playerLevel: int, higher: int, n: int)
    requires playerLevel <= higher
    ensures a.CanUse(playerLevel, n) ==> n <= a.UnlockedLevel(playerLevel)
    ensures a.CanUse(playerLevel, n) ==> a.CanUse(higher, n)
  {
    if a.CanUse(playerLevel, n) {
      var k :| 0 <= k < |a.levels| && a.levels[k] == a.GetLevel(n).value &&
        a.levels[k].level == n && forall j :: 0 <= j < k ==> a.levels[j].level != n;
    }
  }

  /** The `Ability` constructor: the configured values with their defaults,
      then the level entries whose keys are integers, sorted by level number.
      An unknown type name is the exception `valueOf` throws, here None. */
  method NewAbility(id: string, config: AbilityConfig) returns (r: Option<Ability>)
    ensures r.None? <==> ParseAbilityType(GetOr(config.typeName, "PASSIVE")).None?
    ensures r.Some? ==> r.value.id == id && r.value.name == GetOr(config.name, id)
    ensures r.Some? ==> r.value.description == GetOr(config.description, "") && r.value.lore == config.lore
    ensures r.Some? ==> r.value.abilityType == ParseAbilityType(GetOr(config.typeName, "PASSIVE")).value
    ensures r.Some? ==> r.value.maxLevel == GetOr(config.maxLevel, 1)
    ensures r.Some? ==> r.value.passive == GetOr(config.passive, true) && r.value.cooldown == GetOr(config.cooldown, 0)
    ensures r.Some? ==> r.value.levels == SortByLevel(Collected(GetOr(config.levels, [])))
    ensures r.Some? ==> SortedByLevel(r.value.levels)
    ensures r.Some? ==> multiset(r.value.levels) == multiset(Collected(GetOr(config.levels, [])))
  {
    var abilityType := ParseAbilityType(GetOr(config.typeName, "PASSIVE"));
    if abilityType.None? {
      return None;
    }
    var entries := GetOr(config.levels, []);
    var levels: seq<AbilityLevel> := [];
    for i := 0 to |entries|
      invariant levels == Collected(entries[..i])
    {
      assert entries[..i + 1][..i] == entries[..i];
      var n := ParseInt(entries[i].key);
      if n.Some? && entries[i].section.Some? {
        levels := levels + [MakeLevel(n.value, entries[i].section.value)];
      }
    }
    assert entries[..|entries|] == entries;
    levels := SortByLevel(levels);
    return Some(Ability(id, GetOr(config.name, id), GetOr(config.description, ""), config.lore,
      abilityType.value, GetOr(config.maxLevel, 1), levels, GetOr(config.passive, true),
      GetOr(config.cooldown, 0)));
  }
}
