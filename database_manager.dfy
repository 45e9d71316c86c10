// The cache in front of the store (manager/DatabaseManager.java): players
// and crops by id, the ids whose latest save has not been confirmed, and the
// flag that gates every operation. The store's asynchronous answers are
// taken in the order the calls are made; whether each statement throws, the
// rows' order and the loaded worlds are parameters, as in SqliteStore.

module Persistence {
  import opened Wrappers
  import opened Ids
  import opened Crops
  import opened Players
  import opened SqliteStore

  /** The crop cache after putting each crop under its id, in order. */
  function CacheCrops(cache: map<Uuid, Crop>, crops: seq<Crop>): (r: map<Uuid, Crop>)
    ensures r.Keys == cache.Keys + set i | 0 <= i < |crops| :: crops[i].id
  {
    if |crops| == 0 then cache
    else
      var front := crops[..|crops| - 1];
      var r := CacheCrops(cache, front)[crops[|crops| - 1].id := crops[|crops| - 1]];
      assert forall i :: 0 <= i < |front| ==> front[i] == crops[i];
      assert (set i | 0 <= i < |crops| :: crops[i].id) ==
        (set i | 0 <= i < |front| :: front[i].id) + {crops[|crops| - 1].id};
      r
  }

  /** Ids keep their last crop: a crop whose id no later crop shares is the
      cached one, and an id no crop has keeps its old entry. */
  lemma {:induction false} CacheCropsLastWins(cache: map<Uuid, Crop>, crops: seq<Crop>, i: nat)
    requires i < |crops|
    requires forall j :: i < j < |crops| ==> crops[j].id != crops[i].id
    ensures CacheCrops(cache, crops)[crops[i].id] == crops[i]
  {
    if i < |crops| - 1 {
      CacheCropsLastWins(cache, crops[..|crops| - 1], i);
    }
  }

  /** Player rows after writing the cached player of each id in `ids`. */
  function FlushedPlayers(rows: map<Uuid, PlayerRow>, cache: map<Uuid, HerbalismPlayer>, ids: set<Uuid>)
    : (r: map<Uuid, PlayerRow>)
    reads cache.Values
  {
    map u | u in rows.Keys + (ids * cache.Keys) ::
      if u in ids && u in cache then PlayerRowOf(cache[u]) else rows[u]
  }

  /** Crop rows after writing the cached crop of each id in `ids`. */
  function FlushedCrops(rows: map<Uuid, CropRow>, cache: map<Uuid, Crop>, ids: set<Uuid>)
    : (r: map<Uuid, CropRow>)
    reads cache.Values
  {
    map u | u in rows.Keys + (ids * cache.Keys) ::
      if u in ids && u in cache then CropRowOf(cache[u].Record()) else rows[u]
  }

  /** After a flush the rows of the written ids hold the cached players;
      every other row is as it was, and no row disappears. In particular an
      id whose write failed keeps its old row, or still has none, although
      the flush empties the pending set all the same. */
  lemma FlushedPlayersRows(rows: map<Uuid, PlayerRow>, cache: map<Uuid, HerbalismPlayer>, pending: set<Uuid>,
                           fails: set<Uuid>, u: Uuid)
    ensures rows.Keys <= FlushedPlayers(rows, cache, pending - fails).Keys
    ensures u in pending - fails && u in cache ==> FlushedPlayers(rows, cache, pending - fails)[u] == PlayerRowOf(cache[u])
    ensures u in fails ==> (u in FlushedPlayers(rows, cache, pending - fails) <==> u in rows)
    ensures u in fails && u in rows ==> FlushedPlayers(rows, cache, pending - fails)[u] == rows[u]
  {
  }

  /** The same for crops. */
  lemma FlushedCropsRows(rows: map<Uuid, CropRow>, cache: map<Uuid, Crop>, pending: set<Uuid>,
                         fails: set<Uuid>, u: Uuid)
    ensures rows.Keys <= FlushedCrops(rows, cache, pending - fails).Keys
    ensures u in pending - fails && u in cache ==>
      FlushedCrops(rows, cache, pending - fails)[u] == CropRowOf(cache[u].Record())
    ensures u in fails ==> (u in FlushedCrops(rows, cache, pending - fails) <==> u in rows)
    ensures u in fails && u in rows ==> FlushedCrops(rows, cache, pending - fails)[u] == rows[u]
  {
  }

  lemma FlushedPlayersAdd(rows: map<Uuid, PlayerRow>, cache: map<Uuid, HerbalismPlayer>, ids: set<Uuid>, u: Uuid)
    requires u in cache
    ensures FlushedPlayers(rows, cache, ids + {u}) == FlushedPlayers(rows, cache, ids)[u := PlayerRowOf(cache[u])]
  {
  }

  lemma FlushedCropsAdd(rows: map<Uuid, CropRow>, cache: map<Uuid, Crop>, ids: set<Uuid>, u: Uuid)
    requires u in cache
    ensures FlushedCrops(rows, cache, ids + {u}) == FlushedCrops(rows, cache, ids)[u := CropRowOf(cache[u].Record())]
  {
  }

  lemma FlushedPlayersSkip(rows: map<Uuid, PlayerRow>, cache: map<Uuid, HerbalismPlayer>, ids: set<Uuid>, u: Uuid)
    requires u !in cache
    ensures FlushedPlayers(rows, cache, ids + {u}) == FlushedPlayers(rows, cache, ids)
  {
  }

  lemma FlushedCropsSkip(rows: map<Uuid, CropRow>, cache: map<Uuid, Crop>, ids: set<Uuid>, u: Uuid)
    requires u !in cache
    ensures FlushedCrops(rows, cache, ids + {u}) == FlushedCrops(rows, cache, ids)
  {
  }

  class DatabaseManager {
    const database: SqliteStore.SqliteDatabase
    var initialized: bool
    var playerCache: map<Uuid, HerbalismPlayer>
    var cropCache: map<Uuid, Crop>
    var pendingPlayerSaves: set<Uuid>
    var pendingCropSaves: set<Uuid>

    /** A manager over `database`, with empty caches, not initialized. */
    constructor (database: SqliteStore.SqliteDatabase)
      requires database.Valid()
      ensures this.database == database && !initialized
      ensures playerCache == map[] && cropCache == map[]
      ensures pendingPlayerSaves == {} && pendingCropSaves == {}
      ensures Valid()
    {
      this.database := database;
      initialized := false;
      playerCache := map[];
      cropCache := map[];
      pendingPlayerSaves := {};
      pendingCropSaves := {};
    }

    /** Every pending id has a cached entry, every entry sits under its own
        id, and the store keeps its rows under their keys. */
    predicate Valid()
      reads this, database
    {
      pendingPlayerSaves <= playerCache.Keys && pendingCropSaves <= cropCache.Keys &&
      (forall u :: u in playerCache ==> playerCache[u].uuid == u) &&
      (forall u :: u in cropCache ==> cropCache[u].id == u) &&
      database.Valid()
    }

    /** `isInitialized`. */
    predicate IsInitialized()
      reads this`initialized
    {
      initialized
    }

    /** `initialize`: connect, create the tables, then set the flag; a
        failure at either step leaves the flag as it was. Whether creating
        the tables succeeds is `tablesCreated`. */
    method Initialize(connects: bool, tablesCreated: bool) returns (ok: bool)
      requires Valid()
      modifies this`initialized, database`connected, database`poolOpen
      ensures Valid()
      ensures ok <==> connects && tablesCreated
      ensures initialized == (ok || old(initialized))
      ensures ok ==> IsInitialized()
      ensures connects ==> database.IsConnected()
      ensures database.connected == connects
    {
      var connected := database.Connect(connects);
      if !connected || !tablesCreated {
        return false;
      }
      initialized := true;
      return true;
    }

    /** `savePlayer`: the cache takes the player at once and its id turns
        pending; the mark goes only when the write succeeds. */
    method SavePlayer(player: HerbalismPlayer, fails: bool) returns (ok: bool)
      requires Valid()
      modifies this`playerCache, this`pendingPlayerSaves, database`playerRows
      ensures Valid()
      ensures !old(initialized) ==> (!ok && playerCache == old(playerCache) &&
        pendingPlayerSaves == old(pendingPlayerSaves) && database.playerRows == old(database.playerRows))
      ensures old(initialized) ==> (ok <==> database.IsConnected() && !fails)
      ensures old(initialized) ==> playerCache == old(playerCache)[player.uuid := player]
      ensures old(initialized) ==> (pendingPlayerSaves ==
        if ok then old(pendingPlayerSaves) - {player.uuid} else old(pendingPlayerSaves) + {player.uuid})
      ensures (old(initialized) && ok) ==>
        database.playerRows == old(database.playerRows)[player.uuid := PlayerRowOf(player)]
      ensures old(initialized) && !ok ==> database.playerRows == old(database.playerRows)
    {
      if !initialized {
        return false;
      }
      playerCache := playerCache[player.uuid := player];
      pendingPlayerSaves := pendingPlayerSaves + {player.uuid};
      ok := database.SavePlayer(player, fails);
      if ok {
        pendingPlayerSaves := pendingPlayerSaves - {player.uuid};
      }
    }

    /** `loadPlayer`: a new default player, not cached, when not
        initialized; the cached player when there is one, without reading
        the store; otherwise what the store loads, which is then cached. */
    method LoadPlayer(uuid: Uuid, name: string, config: PlayerConfig, now: int, fails: bool)
      returns (player: HerbalismPlayer)
      requires Valid()
      modifies this`playerCache
      ensures Valid()
      ensures !initialized ==> (fresh(player) && playerCache == old(playerCache) &&
        PlayerRowOf(player) == DefaultRow(uuid, name, config, now))
      ensures (initialized && uuid in old(playerCache)) ==>
        player == old(playerCache)[uuid] && playerCache == old(playerCache)
      ensures (initialized && uuid !in old(playerCache)) ==>
        fresh(player) && playerCache == old(playerCache)[uuid := player]
      ensures (initialized && uuid !in old(playerCache) && database.IsConnected() && !fails &&
        uuid in database.playerRows) ==>
        PlayerRowOf(player) == LoadedRow(database.playerRows[uuid], name, config)
      ensures (initialized && uuid !in old(playerCache) &&
        !(database.IsConnected() && !fails && uuid in database.playerRows)) ==>
        PlayerRowOf(player) == DefaultRow(uuid, name, config, now)
      ensures player.uuid == uuid
    {
      if !initialized {
        player := new HerbalismPlayer(uuid, name, config, now);
        return;
      }
      if uuid in playerCache {
        return playerCache[uuid];
      }
      player := database.LoadPlayer(uuid, name, config, now, fails);
      playerCache := playerCache[uuid := player];
    }

    /** `saveCrop`: as `savePlayer`, for crops. */
    method SaveCrop(crop: Crop, fails: bool) returns (ok: bool)
      requires Valid()
      modifies this`cropCache, this`pendingCropSaves, database`cropRows
      ensures Valid()
      ensures !old(initialized) ==> (!ok && cropCache == old(cropCache) &&
        pendingCropSaves == old(pendingCropSaves) && database.cropRows == old(database.cropRows))
      ensures old(initialized) ==> (ok <==> database.IsConnected() && !fails)
      ensures old(initialized) ==> cropCache == old(cropCache)[crop.id := crop]
      ensures old(initialized) ==> (pendingCropSaves ==
        if ok then old(pendingCropSaves) - {crop.id} else old(pendingCropSaves) + {crop.id})
      ensures (old(initialized) && ok) ==>
        database.cropRows == old(database.cropRows)[crop.id := CropRowOf(crop.Record())]
      ensures old(initialized) && !ok ==> database.cropRows == old(database.cropRows)
    {
      if !initialized {
        return false;
      }
      cropCache := cropCache[crop.id := crop];
      pendingCropSaves := pendingCropSaves + {crop.id};
      ok := database.SaveCrop(crop, fails);
      if ok {
        pendingCropSaves := pendingCropSaves - {crop.id};
      }
    }

    /** `loadCrop`: null when not initialized; the cached crop when there is
        one; otherwise what the store loads, cached only when not null. */
    method LoadCrop(cropId: Uuid, worlds: set<string>, fails: bool) returns (crop: Crop?)
      requires Valid()
      modifies this`cropCache
      ensures Valid()
      ensures !initialized ==> crop == null && cropCache == old(cropCache)
      ensures (initialized && cropId in old(cropCache)) ==>
        crop == old(cropCache)[cropId] && cropCache == old(cropCache)
      ensures initialized && cropId !in old(cropCache) && crop == null ==> cropCache == old(cropCache)
      ensures (initialized && cropId !in old(cropCache) && crop != null) ==>
        fresh(crop) && crop.id == cropId && cropCache == old(cropCache)[cropId := crop]
      ensures (initialized && cropId !in old(cropCache) && database.IsConnected() && !fails &&
        cropId in database.cropRows) ==>
        (crop == null <==> RowCrop(database.cropRows[cropId], worlds).None?) &&
        (crop != null ==> crop.Record() == RowCrop(database.cropRows[cropId], worlds).value)
      ensures (initialized && cropId !in old(cropCache) &&
        !(database.IsConnected() && !fails && cropId in database.cropRows)) ==> crop == null
    {
      if !initialized {
        return null;
      }
      if cropId in cropCache {
        return cropCache[cropId];
      }
      crop := database.LoadCrop(cropId, worlds, fails);
      if crop != null {
        RowDecodes(database.cropRows[cropId]);
        cropCache := cropCache[cropId := crop];
      }
    }

    /** The loop putting each loaded crop into the cache under its id. */
    method CacheAll(crops: seq<Crop>)
      requires Valid()
      modifies this`cropCache
      ensures Valid()
      ensures cropCache == CacheCrops(old(cropCache), crops)
    {
      for i := 0 to |crops|
        invariant cropCache == CacheCrops(old(cropCache), crops[..i])
        invariant Valid()
      {
        assert crops[..i + 1][..i] == crops[..i];
        cropCache := cropCache[crops[i].id := crops[i]];
      }
      assert crops[..|crops|] == crops;
    }

    /** `loadAllCrops`: nothing when not initialized; otherwise the store's
        unharvested crops in loaded worlds (those read before an error, when
        one stops the result set), each then cached. */
    method LoadAllCrops(order: seq<Uuid>, worlds: set<string>, rowsRead: nat) returns (crops: seq<Crop>)
      requires Valid()
      requires ListsEachOnce(order, database.cropRows)
      modifies this`cropCache
      ensures Valid()
      ensures !initialized ==> crops == [] && cropCache == old(cropCache)
      ensures initialized && database.IsConnected() ==>
        HoldRecords(crops, LoadableRecords(database.cropRows, ReadPrefix(order, rowsRead), worlds, None))
      ensures initialized && database.IsConnected() && rowsRead >= |order| ==> forall id ::
        id in database.cropRows && Selected(database.cropRows[id], None) && database.cropRows[id].world in worlds ==>
        exists k :: 0 <= k < |crops| && crops[k].id == id
      ensures initialized && !database.IsConnected() ==> crops == []
      ensures initialized ==> cropCache == CacheCrops(old(cropCache), crops)
      ensures forall i :: 0 <= i < |crops| ==> fresh(crops[i])
    {
      if !initialized {
        return [];
      }
      crops := database.LoadAllCrops(order, worlds, rowsRead);
      CacheAll(crops);
    }

    /** `loadPlayerCrops`: as `loadAllCrops`, for one owner's crops. */
    method LoadPlayerCrops(playerId: Uuid, order: seq<Uuid>, worlds: set<string>, rowsRead: nat)
      returns (crops: seq<Crop>)
      requires Valid()
      requires ListsEachOnce(order, database.cropRows)
      modifies this`cropCache
      ensures Valid()
      ensures !initialized ==> crops == [] && cropCache == old(cropCache)
      ensures initialized && database.IsConnected() ==>
        HoldRecords(crops, LoadableRecords(database.cropRows, ReadPrefix(order, rowsRead), worlds, Some(playerId)))
      ensures initialized && database.IsConnected() && rowsRead >= |order| ==> forall id ::
        id in database.cropRows && Selected(database.cropRows[id], Some(playerId)) &&
        database.cropRows[id].world in worlds ==>
        exists k :: 0 <= k < |crops| && crops[k].id == id
      ensures initialized && !database.IsConnected() ==> crops == []
      ensures initialized ==> cropCache == CacheCrops(old(cropCache), crops)
      ensures forall i :: 0 <= i < |crops| ==> fresh(crops[i])
    {
      if !initialized {
        return [];
      }
      crops := database.LoadPlayerCrops(playerId, order, worlds, rowsRead);
      CacheAll(crops);
    }

    /** `deleteCrop`: the id leaves the cache and the pending set, then the
        row is deleted. */
    method DeleteCrop(cropId: Uuid, fails: bool) returns (ok: bool)
      requires Valid()
      modifies this`cropCache, this`pendingCropSaves, database`cropRows
      ensures Valid()
      ensures !old(initialized) ==> (!ok && cropCache == old(cropCache) &&
        pendingCropSaves == old(pendingCropSaves) && database.cropRows == old(database.cropRows))
      ensures old(initialized) ==> (cropCache == old(cropCache) - {cropId} &&
        pendingCropSaves == old(pendingCropSaves) - {cropId})
      ensures old(initialized) ==>
        (ok <==> database.IsConnected() && !fails && cropId in old(database.cropRows))
      ensures old(initialized) ==> (database.cropRows ==
        if database.IsConnected() && !fails then old(database.cropRows) - {cropId} else old(database.cropRows))
    {
      if !initialized {
        return false;
      }
      cropCache := cropCache - {cropId};
      pendingCropSaves := pendingCropSaves - {cropId};
      ok := database.DeleteCrop(cropId, fails);
    }

    /** `updateCropStatus`: the cached crop, if any, takes both flags; then
        the row is updated. */
    method UpdateCropStatus(cropId: Uuid, harvested: bool, decayed: bool, fails: bool) returns (ok: bool)
      requires Valid()
      modifies database`cropRows
      modifies if cropId in cropCache then {cropCache[cropId]} else {}
      ensures Valid()
      ensures !old(initialized) ==> !ok && database.cropRows == old(database.cropRows)
      ensures (!old(initialized) && cropId in cropCache) ==>
        cropCache[cropId].Record() == old(cropCache[cropId].Record())
      ensures (old(initialized) && cropId in cropCache) ==>
        cropCache[cropId].Record() == old(cropCache[cropId].Record()).(harvested := harvested, decayed := decayed)
      ensures old(initialized) ==>
        (ok <==> database.IsConnected() && !fails && cropId in old(database.cropRows))
      ensures (old(initialized) && ok) ==> (database.cropRows ==
        old(database.cropRows)[cropId := old(database.cropRows)[cropId].(harvested := harvested, decayed := decayed)])
      ensures !(old(initialized) && ok) ==> database.cropRows == old(database.cropRows)
    {
      if !initialized {
        return false;
      }
      if cropId in cropCache {
        var crop := cropCache[cropId];
        crop.SetHarvested(harvested);
        crop.SetDecayed(decayed);
      }
      ok := database.UpdateCropStatus(cropId, harvested, decayed, fails);
    }

    /** The first loop of `saveAllPendingData`: the cached player of each
        id in the snapshot `ids` is written; the ids whose write throws are
        `fails`. */
    method FlushPlayers(ids: set<Uuid>, fails: set<Uuid>)
      requires Valid()
      modifies database`playerRows
      ensures Valid()
      ensures database.playerRows == old(FlushedPlayers(database.playerRows, playerCache,
        if database.IsConnected() then ids - fails else {}))
    {
      ghost var live := database.IsConnected();
      var todo := ids;
      ghost var done: set<Uuid> := {};
      while todo != {}
        invariant todo <= ids && done == ids - todo
        invariant database.IsConnected() == live
        invariant database.playerRows == FlushedPlayers(old(database.playerRows), playerCache, if live then done - fails else {})
        invariant database.Valid()
        decreases todo
      {
        var playerId :| playerId in todo;
        ghost var before := if live then done - fails else {};
        ghost var after := if live then (done + {playerId}) - fails else {};
        if playerId in playerCache {
          var saved := database.SavePlayer(playerCache[playerId], playerId in fails);
          if saved {
            assert after == before + {playerId};
            FlushedPlayersAdd(old(database.playerRows), playerCache, before, playerId);
          } else {
            assert after == before;
          }
        } else {
          FlushedPlayersSkip(old(database.playerRows), playerCache, before, playerId);
          assert after == before || after == before + {playerId};
        }
        todo := todo - {playerId};
        done := done + {playerId};
      }
      assert ids - todo == ids;
    }

    /** The second loop of `saveAllPendingData`, for crops. */
    method FlushCrops(ids: set<Uuid>, fails: set<Uuid>)
      requires Valid()
      modifies database`cropRows
      ensures Valid()
      ensures database.cropRows == old(FlushedCrops(database.cropRows, cropCache,
        if database.IsConnected() then ids - fails else {}))
    {
      ghost var live := database.IsConnected();
      var todo := ids;
      ghost var done: set<Uuid> := {};
      while todo != {}
        invariant todo <= ids && done == ids - todo
        invariant database.IsConnected() == live
        invariant database.cropRows == FlushedCrops(old(database.cropRows), cropCache, if live then done - fails else {})
        invariant database.Valid()
        decreases todo
      {
        var cropId :| cropId in todo;
        ghost var before := if live then done - fails else {};
        ghost var after := if live then (done + {cropId}) - fails else {};
        if cropId in cropCache {
          var saved := database.SaveCrop(cropCache[cropId], cropId in fails);
          if saved {
            assert after == before + {cropId};
            FlushedCropsAdd(old(database.cropRows), cropCache, before, cropId);
          } else {
            assert after == before;
          }
        } else {
          FlushedCropsSkip(old(database.cropRows), cropCache, before, cropId);
          assert after == before || after == before + {cropId};
        }
        todo := todo - {cropId};
        done := done + {cropId};
      }
      assert ids - todo == ids;
    }

    /** `saveAllPendingData`: every pending id with a cached entry is
        written again, then both pending sets are emptied, whether or not
        the writes succeeded; the answer is true whenever initialized. The
        ids whose write throws are `playerFails` and `cropFails`. */
    method SaveAllPendingData(playerFails: set<Uuid>, cropFails: set<Uuid>) returns (ok: bool)
      requires Valid()
      modifies this`pendingPlayerSaves, this`pendingCropSaves, database`playerRows, database`cropRows
      ensures Valid()
      ensures ok == old(initialized)
      ensures !ok ==> (pendingPlayerSaves == old(pendingPlayerSaves) && pendingCropSaves == old(pendingCropSaves) &&
        database.playerRows == old(database.playerRows) && database.cropRows == old(database.cropRows))
      ensures ok ==> pendingPlayerSaves == {} && pendingCropSaves == {}
      ensures ok ==> database.playerRows == old(FlushedPlayers(database.playerRows, playerCache,
        if database.IsConnected() then pendingPlayerSaves - playerFails else {}))
      ensures ok ==> database.cropRows == old(FlushedCrops(database.cropRows, cropCache,
        if database.IsConnected() then pendingCropSaves - cropFails else {}))
    {
      if !initialized {
        return false;
      }
      FlushCrops(pendingCropSaves, cropFails);
      FlushPlayers(pendingPlayerSaves, playerFails);
      pendingPlayerSaves := {};
      pendingCropSaves := {};
      return true;
    }

    /** `shutdown`: when initialized, flush the pending saves, disconnect
        and clear the flag. */
    method Shutdown(playerFails: set<Uuid>, cropFails: set<Uuid>)
      requires Valid()
      modifies this`initialized, this`pendingPlayerSaves, this`pendingCropSaves
      modifies database`playerRows, database`cropRows, database`connected, database`poolOpen
      ensures Valid()
      ensures !old(initialized) ==> (initialized == old(initialized) && pendingPlayerSaves == old(pendingPlayerSaves) &&
        pendingCropSaves == old(pendingCropSaves) && database.playerRows == old(database.playerRows) &&
        database.cropRows == old(database.cropRows) && database.connected == old(database.connected) &&
        database.poolOpen == old(database.poolOpen))
      ensures !IsInitialized()
      ensures old(initialized) ==> (!initialized && !database.IsConnected() &&
        pendingPlayerSaves == {} && pendingCropSaves == {})
      ensures old(initialized) ==> database.playerRows == old(FlushedPlayers(database.playerRows, playerCache,
        if database.IsConnected() then pendingPlayerSaves - playerFails else {}))
      ensures old(initialized) ==> database.cropRows == old(FlushedCrops(database.cropRows, cropCache,
        if database.IsConnected() then pendingCropSaves - cropFails else {}))
    {
      if !initialized {
        return;
      }
      var _ := SaveAllPendingData(playerFails, cropFails);
      database.Disconnect();
      initialized := false;
    }

    /** `removePlayerFromCache`: the id leaves the cache and the pending set. */
    method RemovePlayerFromCache(playerId: Uuid)
      requires Valid()
      modifies this`playerCache, this`pendingPlayerSaves
      ensures Valid()
      ensures playerCache == old(playerCache) - {playerId}
      ensures pendingPlayerSaves == old(pendingPlayerSaves) - {playerId}
    {
      playerCache := playerCache - {playerId};
      pendingPlayerSaves := pendingPlayerSaves - {playerId};
    }

    /** `removeCropFromCache`: the id leaves the cache and the pending set. */
    method RemoveCropFromCache(cropId: Uuid)
      requires Valid()
      modifies this`cropCache, this`pendingCropSaves
      ensures Valid()
      ensures cropCache == old(cropCache) - {cropId}
      ensures pendingCropSaves == old(pendingCropSaves) - {cropId}
    {
      cropCache := cropCache - {cropId};
      pendingCropSaves := pendingCropSaves - {cropId};
    }
  }
}
