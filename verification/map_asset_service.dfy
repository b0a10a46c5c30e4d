/**
 * The map-asset service: create, list, read, update and delete images
 * placed on a map, publishing one event per committed write. There is no
 * permission check on any of these.
 */
module MapAssetService {

  import opened Wrappers
  import opened Entities
  import opened DomainEvents
  import Stores

  type AssetStore = map<AssetId, MapAsset>

  /** The column default for an asset's width and height. */
  const DefaultAssetSize: int := 100

  datatype CreateMapAssetDto = CreateMapAssetDto(
    url: string, x: int, y: int, width: Option<int>, height: Option<int>)

  /** Every field of the create payload, each optional. */
  datatype UpdateMapAssetDto = UpdateMapAssetDto(
    url: Option<string>, x: Option<int>, y: Option<int>, width: Option<int>, height: Option<int>)

  /** An asset's primary key, under which the repository files it. */
  function AssetKey(a: MapAsset): AssetId {
    a.id
  }

  /**
   * Build the record from the payload with the argument's map id, let the
   * database supply the id and the size defaults, save it and publish
   * `MapAssetCreated` with the saved record.
   */
  function Create(s: AssetStore, mapId: MapId, dto: CreateMapAssetDto, newId: AssetId)
    : (step: ServiceStep<AssetStore, MapAsset>)
    requires newId !in s
    ensures PublishesOnce(s, step) && step.result.Success?
    ensures var a := step.result.value;
      && a.id == newId && a.mapId == mapId
      && a.url == dto.url && a.x == dto.x && a.y == dto.y
      && a.width == (if dto.width.Some? then dto.width.value else DefaultAssetSize)
      && a.height == (if dto.height.Some? then dto.height.value else DefaultAssetSize)
      && step.store == s[newId := a]
      && step.events == [MapAssetCreated(a)]
    ensures Stores.KeyedBy(s, AssetKey) ==> Stores.KeyedBy(step.store, AssetKey)
  {
    var a := MapAsset(newId, mapId, dto.url, dto.x, dto.y,
                      dto.width.GetOr(DefaultAssetSize), dto.height.GetOr(DefaultAssetSize));
    ServiceStep(s[newId := a], Success(a), [MapAssetCreated(a)])
  }

  /** Every stored asset of one map, each exactly once, in no particular order. */
  method FindAllByMapId(s: AssetStore, mapId: MapId) returns (assets: seq<MapAsset>)
    ensures forall a :: a in assets ==> a in s.Values && a.mapId == mapId
    ensures forall id :: id in s && s[id].mapId == mapId ==> s[id] in assets
    ensures Stores.KeyedBy(s, AssetKey) ==> forall i, j :: 0 <= i < j < |assets| ==> assets[i] != assets[j]
  {
    var ids := Stores.Select(s, (a: MapAsset) => a.mapId == mapId);
    assets := seq(|ids|, i requires 0 <= i < |ids| => s[ids[i]]);
    forall id | id in s && s[id].mapId == mapId
      ensures s[id] in assets
    {
      var i :| 0 <= i < |ids| && ids[i] == id;
      assert assets[i] == s[id];
    }
    if Stores.KeyedBy(s, AssetKey) {
      forall i, j | 0 <= i < j < |assets|
        ensures assets[i] != assets[j]
      {
        assert assets[i].id == ids[i] && assets[j].id == ids[j];
      }
    }
  }

  /** Read one asset; an unknown id is `NotFound`. */
  function FindOne(s: AssetStore, id: AssetId): (r: Result<MapAsset, Fault>)
    ensures r.Success? <==> id in s
    ensures r.Success? ==> r.value == s[id]
    ensures r.Failure? ==> r.error == NotFound(id)
  {
    if id in s then Success(s[id]) else Failure(NotFound(id))
  }

  /** Load the record and overwrite the fields the payload carries. */
  function Merge(a: MapAsset, dto: UpdateMapAssetDto): (r: MapAsset)
    ensures r.id == a.id && r.mapId == a.mapId
    ensures r.url == (if dto.url.Some? then dto.url.value else a.url)
    ensures r.x == (if dto.x.Some? then dto.x.value else a.x)
    ensures r.y == (if dto.y.Some? then dto.y.value else a.y)
    ensures r.width == (if dto.width.Some? then dto.width.value else a.width)
    ensures r.height == (if dto.height.Some? then dto.height.value else a.height)
    ensures dto == UpdateMapAssetDto(None, None, None, None, None) ==> r == a
  {
    MapAsset(a.id, a.mapId, dto.url.GetOr(a.url), dto.x.GetOr(a.x), dto.y.GetOr(a.y),
             dto.width.GetOr(a.width), dto.height.GetOr(a.height))
  }

  /**
   * Merge the payload into the stored record, save it and publish
   * `MapAssetUpdated` with the merged record; an unknown id is `NotFound`
   * and nothing is saved or published.
   */
  function Update(s: AssetStore, id: AssetId, dto: UpdateMapAssetDto)
    : (step: ServiceStep<AssetStore, MapAsset>)
    ensures PublishesOnce(s, step)
    ensures step.result.Success? <==> id in s
    ensures step.result.Failure? ==> step.result.error == NotFound(id)
    ensures step.result.Success? ==>
      && step.result.value == Merge(s[id], dto)
      && step.store == s[id := step.result.value]
      && step.events == [MapAssetUpdated(step.result.value)]
    ensures Stores.KeyedBy(s, AssetKey) ==> Stores.KeyedBy(step.store, AssetKey)
  {
    if id !in s then ServiceStep(s, Failure(NotFound(id)), [])
    else
      var merged := Merge(s[id], dto);
      ServiceStep(s[id := merged], Success(merged), [MapAssetUpdated(merged)])
  }

  /**
   * Read the record (`NotFound` when absent), delete it, publish
   * `MapAssetDeleted` with the requested id and the record's map, and
   * return the record.
   */
  function Remove(s: AssetStore, id: AssetId): (step: ServiceStep<AssetStore, MapAsset>)
    ensures PublishesOnce(s, step)
    ensures step.result.Success? <==> id in s
    ensures step.result.Failure? ==> step.result.error == NotFound(id)
    ensures step.result.Success? ==>
      && step.result.value == s[id]
      && step.store == s - {id}
      && step.events == [MapAssetDeleted(id, s[id].mapId)]
    ensures Stores.KeyedBy(s, AssetKey) ==> Stores.KeyedBy(step.store, AssetKey)
  {
    match FindOne(s, id)
    case Failure(f) => ServiceStep(s, Failure(f), [])
    case Success(asset) =>
      ServiceStep(s - {id}, Success(asset), [MapAssetDeleted(id, asset.mapId)])
  }

  /** In a store keyed by id, the deletion event names the deleted record's own id. */
  lemma RemoveNamesDeletedRecord(s: AssetStore, id: AssetId)
    requires Stores.KeyedBy(s, AssetKey) && id in s
    ensures Remove(s, id).events == [MapAssetDeleted(Remove(s, id).result.value.id, s[id].mapId)]
  {
  }

  /**
   * An asset instance after the repository's `remove`: TypeORM clears the
   * primary key of the instance it deletes, so `id` is `undefined`.
   */
  datatype DetachedAsset = DetachedAsset(
    id: Option<AssetId>, mapId: MapId, url: string, x: int, y: int, width: int, height: int)

  /** The outcome of the deletion as the service builds it after the `remove`. */
  datatype RemovalAsWritten = RemovalAsWritten(
    store: AssetStore, returned: DetachedAsset, eventId: Option<AssetId>, eventMapId: MapId)

  /**
   * The deletion as written: the event's id and the returned record's id
   * are read from the instance after `remove` has cleared its key.
   */
  function RemoveAsWritten(s: AssetStore, id: AssetId): (r: Result<RemovalAsWritten, Fault>)
    ensures r.Success? <==> id in s
    ensures r.Failure? ==> r.error == NotFound(id)
    ensures r.Success? ==>
      && r.value.store == s - {id}
      && r.value.eventMapId == s[id].mapId
      && r.value.eventId.None? && r.value.returned.id.None?
      && var a := s[id]; var d := r.value.returned;
      && d.mapId == a.mapId && d.url == a.url && d.x == a.x && d.y == a.y
      && d.width == a.width && d.height == a.height
  {
    match FindOne(s, id)
    case Failure(f) => Failure(f)
    case Success(asset) =>
      var detached := DetachedAsset(None, asset.mapId, asset.url, asset.x, asset.y, asset.width, asset.height);
      Success(RemovalAsWritten(s - {id}, detached, detached.id, detached.mapId))
  }

  /**
   * As written, deleting any stored asset announces no id at all, where
   * the intended deletion announces the requested one; the store changes
   * the same way.
   */
  lemma RemoveAsWrittenLosesId(s: AssetStore, id: AssetId)
    requires id in s
    ensures RemoveAsWritten(s, id).Success?
    ensures RemoveAsWritten(s, id).value.eventId != Some(id)
    ensures RemoveAsWritten(s, id).value.store == Remove(s, id).store
    ensures Remove(s, id).events == [MapAssetDeleted(id, s[id].mapId)]
  {
  }

  /** An asset just created is what a read of its id returns. */
  lemma CreateThenFindOne(s: AssetStore, mapId: MapId, dto: CreateMapAssetDto, newId: AssetId)
    requires newId !in s
    ensures var step := Create(s, mapId, dto, newId);
      FindOne(step.store, newId) == step.result
  {
  }

  /** Deleting an asset just created restores the store. */
  lemma CreateThenRemove(s: AssetStore, mapId: MapId, dto: CreateMapAssetDto, newId: AssetId)
    requires newId !in s
    ensures Remove(Create(s, mapId, dto, newId).store, newId).store == s
  {
    var s' := Create(s, mapId, dto, newId).store;
    assert s' - {newId} == s;
  }

  /** Merging is idempotent: applying the same payload twice is applying it once. */
  lemma MergeIdempotent(a: MapAsset, dto: UpdateMapAssetDto)
    ensures Merge(Merge(a, dto), dto) == Merge(a, dto)
  {
  }
}
