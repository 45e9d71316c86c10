// The registry of loaded players (manager/PlayerManager.java): load and
// unload, the last-save bookkeeping, periodic saves and the top-N rankings.
// Its database load and save are stubs in the source, so a save only
// records the time; `now` is a parameter.

module PlayerRegistry {
  import opened JavaNum
  import opened Wrappers
  import opened Ids
  import opened Text
  import opened Players

  /** The statistic a ranking orders by. */
  datatype Metric = ByLevel | ByExperience | ByHarvests

  function Key(p: HerbalismPlayer, metric: Metric): int
    reads p
  {
    match metric
      case ByLevel => p.level
      case ByExperience => p.experience
      case ByHarvests => p.totalHarvests
  }

  /** A player is due for a periodic save when it was never saved or the
      interval has passed since its last save. */
  predicate DueForSave(lastSave: map<Uuid, int>, u: Uuid, now: int, interval: int)
  {
    u !in lastSave || now - lastSave[u] >= interval
  }

  /** The save times after `performPeriodicSave`: every loaded player due for
      a save is stamped `now`; the other entries stay. */
  function AfterPeriodicSave(lastSave: map<Uuid, int>, loaded: set<Uuid>, now: int, interval: int): (r: map<Uuid, int>)
    ensures r.Keys == lastSave.Keys + (set u | u in loaded && u !in lastSave)
  {
    map u | u in lastSave.Keys + loaded ::
      if u in loaded && DueForSave(lastSave, u, now, interval) then now else lastSave[u]
  }

  /** The save times once every id in `ids` is stamped `now`; the other
      entries stay. */
  function Stamped(base: map<Uuid, int>, ids: set<Uuid>, now: int): (r: map<Uuid, int>)
    ensures r.Keys == base.Keys + ids
    ensures forall u :: u in r ==> r[u] == if u in ids then now else base[u]
  {
    map u | u in base.Keys + ids :: if u in ids then now else base[u]
  }

  lemma NothingStamped(base: map<Uuid, int>, all: set<Uuid>, now: int)
    ensures Stamped(base, all - all, now) == base
  {
    assert all - all == {};
  }

  lemma AllStamped(base: map<Uuid, int>, all: set<Uuid>, keys: set<Uuid>, now: int)
    requires keys == {}
    ensures Stamped(base, all - keys, now) == Stamped(base, all, now)
  {
    assert all - keys == all;
  }

  /** Stamping one more pending id. */
  lemma StampStep(base: map<Uuid, int>, all: set<Uuid>, keys: set<Uuid>, u: Uuid, now: int,
                  before: map<Uuid, int>, after: map<Uuid, int>)
    requires u in keys && keys <= all
    requires before == Stamped(base, all - keys, now)
    requires after == before[u := now]
    ensures after == Stamped(base, all - (keys - {u}), now)
  {
    assert all - (keys - {u}) == (all - keys) + {u};
    assert after.Keys == Stamped(base, all - (keys - {u}), now).Keys;
  }

  /** Right after a periodic save with a positive interval no loaded player is
      due, so a second save at the same moment changes nothing. */
  lemma PeriodicSaveSettles(lastSave: map<Uuid, int>, loaded: set<Uuid>, now: int, interval: int)
    requires interval > 0
    ensures forall u :: u in loaded ==> !DueForSave(AfterPeriodicSave(lastSave, loaded, now, interval), u, now, interval)
    ensures AfterPeriodicSave(AfterPeriodicSave(lastSave, loaded, now, interval), loaded, now, interval)
      == AfterPeriodicSave(lastSave, loaded, now, interval)
  {
    var once := AfterPeriodicSave(lastSave, loaded, now, interval);
    forall u | u in loaded
      ensures !DueForSave(once, u, now, interval)
    {
      assert u in once.Keys;
      if DueForSave(lastSave, u, now, interval) {
        assert once[u] == now;
      } else {
        assert once[u] == lastSave[u];
      }
    }
  }

  lemma NothingSaved(lastSave: map<Uuid, int>, all: set<Uuid>, now: int, interval: int)
    ensures AfterPeriodicSave(lastSave, all - all, now, interval) == lastSave
  {
    assert all - all == {};
  }

  lemma AllSaved(lastSave: map<Uuid, int>, all: set<Uuid>, keys: set<Uuid>, now: int, interval: int)
    requires keys == {}
    ensures AfterPeriodicSave(lastSave, all - keys, now, interval) == AfterPeriodicSave(lastSave, all, now, interval)
  {
    assert all - keys == all;
  }

  /** One more player processed by the periodic save. */
  lemma SaveStep(lastSave: map<Uuid, int>, all: set<Uuid>, keys: set<Uuid>, u: Uuid, now: int, interval: int,
                 before: map<Uuid, int>, after: map<Uuid, int>)
    requires u in keys && keys <= all
    requires before == AfterPeriodicSave(lastSave, all - keys, now, interval)
    requires after == if DueForSave(before, u, now, interval) then before[u := now] else before
    ensures after == AfterPeriodicSave(lastSave, all - (keys - {u}), now, interval)
  {
    assert all - (keys - {u}) == (all - keys) + {u};
    assert DueForSave(before, u, now, interval) == DueForSave(lastSave, u, now, interval);
  }

  /** The ranking a top-N query must return: at most `limit` distinct loaded
      players, ordered by the metric from highest to lowest, and no player
      left out ranks above one taken. */
  predicate IsTopN(top: seq<HerbalismPlayer>, pool: set<HerbalismPlayer>, metric: Metric, limit: int)
    reads pool
  {
    |top| == Min(limit, |pool|) &&
    (forall i, j :: 0 <= i < j < |top| ==> top[i] != top[j]) &&
    (forall i :: 0 <= i < |top| ==> top[i] in pool) &&
    (forall i, j :: 0 <= i < j < |top| ==> Key(top[i], metric) >= Key(top[j], metric)) &&
    (forall p, i :: p in pool && p !in top && 0 <= i < |top| ==> Key(p, metric) <= Key(top[i], metric))
  }

  /** A player of `pool` with the highest metric. */
  method Highest(pool: set<HerbalismPlayer>, metric: Metric) returns (best: HerbalismPlayer)
    requires pool != {}
    ensures best in pool
    ensures forall p :: p in pool ==> Key(p, metric) <= Key(best, metric)
  {
    best :| best in pool;
    var rest := pool - {best};
    while rest != {}
      invariant rest <= pool && best in pool
      invariant forall p :: p in pool - rest ==> Key(p, metric) <= Key(best, metric)
      decreases |rest|
    {
      var p :| p in rest;
      if Key(p, metric) > Key(best, metric) {
        best := p;
      }
      rest := rest - {p};
    }
  }

  lemma CardSplit<T>(pool: set<T>, taken: seq<T>, remaining: set<T>)
    requires forall i, j :: 0 <= i < j < |taken| ==> taken[i] != taken[j]
    requires forall x :: x in pool <==> x in remaining || x in taken
    requires forall x :: x in remaining ==> x !in taken
    ensures |pool| == |taken| + |remaining|
  {
    var ts := set x | x in taken;
    DistinctCard(taken);
    assert pool == ts + remaining;
    assert ts * remaining == {};
  }

  lemma {:induction false} DistinctCard<T>(xs: seq<T>)
    requires forall i, j :: 0 <= i < j < |xs| ==> xs[i] != xs[j]
    ensures |set x | x in xs| == |xs|
  {
    if |xs| > 0 {
      var init := xs[..|xs| - 1];
      DistinctCard(init);
      assert (set x | x in xs) == (set x | x in init) + {xs[|xs| - 1]};
      assert xs[|xs| - 1] !in init by {
        assert forall i :: 0 <= i < |init| ==> init[i] == xs[i];
      }
    }
  }

  class PlayerManager {
    const config: PlayerConfig
    var players: map<Uuid, HerbalismPlayer>
    var lastSaveTime: map<Uuid, int>

    /** Every loaded player is filed under its own UUID and reads the
        registry's configuration. */
    predicate Valid()
      reads this`players
    {
      forall u :: u in players ==> players[u].uuid == u && players[u].config == config
    }

    /** An empty registry (the players online at start-up are then loaded
        one by one with `LoadPlayer`). */
    constructor (config: PlayerConfig)
      ensures Valid() && this.config == config
      ensures players == map[] && lastSaveTime == map[]
    {
      this.config := config;
      players := map[];
      lastSaveTime := map[];
    }

    /** `getPlayer(UUID)`: the registered entry, or null. */
    function GetPlayer(uuid: Uuid): (p: HerbalismPlayer?)
      reads this`players
      ensures p != null <==> uuid in players
      ensures p != null ==> p == players[uuid]
      ensures Valid() && p != null ==> p.uuid == uuid
    {
      if uuid in players then players[uuid] else null
    }

    /** `getPlayer(String)`: some loaded player whose name matches ignoring
        case, or null when there is none (which one is found first depends
        on the hash map's iteration order). */
    method GetPlayerByName(name: string) returns (p: HerbalismPlayer?)
      ensures p != null ==> p in players.Values && ToLower(p.name) == ToLower(name)
      ensures p == null ==> forall q :: q in players.Values ==> ToLower(q.name) != ToLower(name)
    {
      var rest := players.Values;
      while rest != {}
        invariant rest <= players.Values
        invariant forall q :: q in players.Values - rest ==> ToLower(q.name) != ToLower(name)
        decreases |rest|
      {
        var q :| q in rest;
        if ToLower(q.name) == ToLower(name) {
          return q;
        }
        rest := rest - {q};
      }
      return null;
    }

    predicate IsPlayerLoaded(uuid: Uuid)
      reads this`players
    {
      uuid in players
    }

    /** A loaded player is registered under its own uuid with the registry's
        configuration. */
    lemma LoadedPlayerIsKeyed(uuid: Uuid)
      requires Valid()
      ensures IsPlayerLoaded(uuid) ==> players[uuid].uuid == uuid && players[uuid].config == config
    {
    }

    /** `loadPlayer`: the registered entry when there is one, with nothing
        changed; otherwise a new default player (the database load is a stub
        that finds nothing), which is registered. */
    method LoadPlayer(uuid: Uuid, name: string, now: int) returns (p: HerbalismPlayer)
      requires Valid()
      modifies this`players
      ensures Valid()
      ensures old(uuid in players) ==> p == old(players[uuid]) && players == old(players)
      ensures old(uuid !in players) ==> fresh(p) && players == old(players)[uuid := p]
      ensures old(uuid !in players) ==> p.name == name && p.level == 1 && p.experience == 0 && p.lastSeen == now
      ensures old(uuid !in players) ==> p.IsNewDefault(uuid, name, config, now)
      ensures p.uuid == uuid && players[uuid] == p
      ensures IsPlayerLoaded(uuid)
    {
      if uuid in players {
        return players[uuid];
      }
      p := new HerbalismPlayer(uuid, name, config, now);
      players := players[uuid := p];
    }

    /** `savePlayer(HerbalismPlayer)`: null is ignored; otherwise the save
        time of that player becomes `now`. */
    method SavePlayer(p: HerbalismPlayer?, now: int)
      modifies this`lastSaveTime
      ensures p == null ==> lastSaveTime == old(lastSaveTime)
      ensures p != null ==> lastSaveTime == old(lastSaveTime)[p.uuid := now]
    {
      if p == null {
        return;
      }
      lastSaveTime := lastSaveTime[p.uuid := now];
    }

    /** `savePlayer(UUID)`: saves the player when it is loaded. */
    method SavePlayerById(uuid: Uuid, now: int)
      requires Valid()
      modifies this`lastSaveTime
      ensures uuid in players ==> lastSaveTime == old(lastSaveTime)[uuid := now]
      ensures uuid !in players ==> lastSaveTime == old(lastSaveTime)
    {
      var p := GetPlayer(uuid);
      if p != null {
        SavePlayer(p, now);
      }
    }

    /** `saveAllPlayers`: every loaded player is saved. */
    method SaveAllPlayers(now: int)
      requires Valid()
      modifies this`lastSaveTime
      ensures lastSaveTime == Stamped(old(lastSaveTime), players.Keys, now)
    {
      var keys := players.Keys;
      NothingStamped(lastSaveTime, players.Keys, now);
      while keys != {}
        invariant keys <= players.Keys
        invariant lastSaveTime == Stamped(old(lastSaveTime), players.Keys - keys, now)
        decreases |keys|
      {
        var u :| u in keys;
        ghost var before := lastSaveTime;
        SavePlayer(players[u], now);
        StampStep(old(lastSaveTime), players.Keys, keys, u, now, before, lastSaveTime);
        keys := keys - {u};
      }
      AllStamped(old(lastSaveTime), players.Keys, keys, now);
    }

    /** `unloadPlayer`: a loaded player gets its last-seen time updated, is
        saved, and then leaves both maps; an unknown UUID changes nothing. */
    method UnloadPlayer(uuid: Uuid, now: int)
      requires Valid()
      modifies this`players, this`lastSaveTime, (if uuid in players then {players[uuid]} else {})`lastSeen
      ensures Valid()
      ensures players == old(players) - {uuid}
      ensures !IsPlayerLoaded(uuid)
      ensures uuid in old(players) ==> lastSaveTime == old(lastSaveTime) - {uuid}
      ensures uuid !in old(players) ==> lastSaveTime == old(lastSaveTime)
      ensures uuid in old(players) ==> old(players[uuid]).lastSeen == now
    {
      var p := GetPlayer(uuid);
      if p != null {
        p.UpdateLastSeen(now);
        SavePlayer(p, now);
        players := players - {uuid};
        lastSaveTime := lastSaveTime - {uuid};
      }
    }

    /** `addExperience(UUID, long)`: a loaded player gains the experience
        (levelling up as far as it reaches), and is saved only when the
        amount is at least 100. */
    method AddExperience(uuid: Uuid, amount: int, now: int)
      requires Valid()
      modifies this`lastSaveTime
      modifies (if uuid in players then {players[uuid]} else {})`experience
      modifies (if uuid in players then {players[uuid]} else {})`level
      ensures players == old(players)
      ensures uuid !in players ==> lastSaveTime == old(lastSaveTime)
      ensures uuid in players ==>
        players[uuid].experience == old(players[uuid].experience) + amount &&
        players[uuid].level == LevelReached(config, old(players[uuid].level), players[uuid].experience)
      ensures uuid in players && amount >= 100 ==> lastSaveTime == old(lastSaveTime)[uuid := now]
      ensures amount < 100 ==> lastSaveTime == old(lastSaveTime)
    {
      var p := GetPlayer(uuid);
      if p != null {
        p.AddExperience(amount);
        if amount >= 100 {
          SavePlayer(p, now);
        }
      }
    }

    /** `setLevel(UUID, int)`: a loaded player's level is set (clamped) and the
        player is saved. */
    method SetLevel(uuid: Uuid, l: int, now: int)
      requires Valid()
      modifies this`lastSaveTime, (if uuid in players then {players[uuid]} else {})`level
      ensures players == old(players)
      ensures uuid !in players ==> lastSaveTime == old(lastSaveTime)
      ensures uuid in players ==> lastSaveTime == old(lastSaveTime)[uuid := now]
      ensures uuid in players ==> players[uuid].level == Max(1, Min(l, config.maxLevel))
      ensures uuid in players && 1 <= l <= config.maxLevel ==> players[uuid].level == l
    {
      var p := GetPlayer(uuid);
      if p != null {
        p.SetLevel(l);
        SavePlayer(p, now);
      }
    }

    /** `getTopPlayersByLevel` / `ByExperience` / `ByHarvests`: the loaded
        players sorted by the metric, highest first, cut to `limit`; a
        negative limit is the IllegalArgumentException `Stream.limit`
        throws, here None. */
    method TopPlayers(metric: Metric, limit: int) returns (r: Option<seq<HerbalismPlayer>>)
      ensures r.None? <==> limit < 0
      ensures r.Some? ==> IsTopN(r.value, players.Values, metric, limit)
    {
      if limit < 0 {
        return None;
      }
      var pool := players.Values;
      var top: seq<HerbalismPlayer> := [];
      var remaining := pool;
      while |top| < limit && remaining != {}
        invariant forall p :: p in pool <==> p in remaining || p in top
        invariant forall p :: p in remaining ==> p !in top
        invariant forall i, j :: 0 <= i < j < |top| ==> top[i] != top[j]
        invariant |top| <= limit
        invariant forall i, j :: 0 <= i < j < |top| ==> Key(top[i], metric) >= Key(top[j], metric)
        invariant forall p, i :: p in remaining && 0 <= i < |top| ==> Key(p, metric) <= Key(top[i], metric)
        decreases |remaining|
      {
        var best := Highest(remaining, metric);
        top := top + [best];
        remaining := remaining - {best};
      }
      CardSplit(pool, top, remaining);
      return Some(top);
    }

    /** `performPeriodicSave`: saves exactly the loaded players due for a
        save. The interval is configured in seconds and converted with an
        `int` multiplication, which wraps around. */
    method PerformPeriodicSave(now: int, saveIntervalSeconds: int)
      requires Valid()
      modifies this`lastSaveTime
      ensures lastSaveTime ==
        AfterPeriodicSave(old(lastSaveTime), players.Keys, now, Wrap32(saveIntervalSeconds * 1000))
    {
      var interval := Wrap32(saveIntervalSeconds * 1000);
      SaveAllDue(now, interval);
    }

    /** The loop of `performPeriodicSave` over the loaded players. */
    method SaveAllDue(now: int, interval: int)
      requires Valid()
      modifies this`lastSaveTime
      ensures lastSaveTime == AfterPeriodicSave(old(lastSaveTime), players.Keys, now, interval)
    {
      var keys := players.Keys;
      NothingSaved(lastSaveTime, players.Keys, now, interval);
      while keys != {}
        invariant keys <= players.Keys
        invariant lastSaveTime == AfterPeriodicSave(old(lastSaveTime), players.Keys - keys, now, interval)
        decreases |keys|
      {
        var u :| u in keys;
        ghost var before := lastSaveTime;
        SaveIfDue(u, now, interval);
        SaveStep(old(lastSaveTime), players.Keys, keys, u, now, interval, before, lastSaveTime);
        keys := keys - {u};
      }
      AllSaved(old(lastSaveTime), players.Keys, keys, now, interval);
    }

    /** One step of the periodic save: the loaded player `u` is saved when
        it is due. */
    method SaveIfDue(u: Uuid, now: int, interval: int)
      requires Valid() && u in players
      modifies this`lastSaveTime
      ensures lastSaveTime ==
        if DueForSave(old(lastSaveTime), u, now, interval) then old(lastSaveTime)[u := now] else old(lastSaveTime)
    {
      var lastSave := if u in lastSaveTime then Some(lastSaveTime[u]) else None;
      if lastSave.None? || now - lastSave.value >= interval {
        SavePlayer(players[u], now);
      }
    }

    /** `shutdown`: all players are saved, then both maps are emptied. */
    method Shutdown(now: int)
      requires Valid()
      modifies this`players, this`lastSaveTime
      ensures Valid()
      ensures players == map[] && lastSaveTime == map[]
    {
      SaveAllPlayers(now);
      players := map[];
      lastSaveTime := map[];
    }
  }
}
