/**
 * The events the persistence services publish after each committed write,
 * and the common shape of a service call: the new store, the value or
 * error, and the events published.
 */
module DomainEvents {

  import opened Wrappers
  import opened Entities
  import opened JsValues

  datatype DomainEvent =
    | TokenCreated(mapId: MapId, token: TokenResponse)        // token.created
    | TokenUpdated(mapId: MapId, token: TokenResponse)        // token.updated
    | TokenDeleted(mapId: MapId, tokenId: TokenId)            // token.deleted
    | MapAssetCreated(asset: MapAsset)                         // map_asset.created
    | MapAssetUpdated(asset: MapAsset)                         // map_asset.updated
    | MapAssetDeleted(id: AssetId, mapId: MapId)               // map_asset.deleted
    | MapCreated(roomId: RoomId, created: VttMap)              // map.created
    | MapUpdated(mapId: MapId, payload: map<string, JsValue>)  // map.updated
    | MapDeleted(roomId: RoomId, mapId: MapId)                 // map.deleted

  datatype EntityKind = TokenEntity | AssetEntity | MapEntity
  datatype ChangeKind = Created | Updated | Deleted

  function EntityOf(e: DomainEvent): EntityKind {
    match e
    case TokenCreated(_, _) | TokenUpdated(_, _) | TokenDeleted(_, _) => TokenEntity
    case MapAssetCreated(_) | MapAssetUpdated(_) | MapAssetDeleted(_, _) => AssetEntity
    case MapCreated(_, _) | MapUpdated(_, _) | MapDeleted(_, _) => MapEntity
  }

  function ChangeOf(e: DomainEvent): ChangeKind {
    match e
    case TokenCreated(_, _) | MapAssetCreated(_) | MapCreated(_, _) => Created
    case TokenUpdated(_, _) | MapAssetUpdated(_) | MapUpdated(_, _) => Updated
    case TokenDeleted(_, _) | MapAssetDeleted(_, _) | MapDeleted(_, _) => Deleted
  }

  /** The map an event concerns, when it names one. */
  function MapOf(e: DomainEvent): Option<MapId> {
    match e
    case TokenCreated(m, _) => Some(m)
    case TokenUpdated(m, _) => Some(m)
    case TokenDeleted(m, _) => Some(m)
    case MapAssetCreated(a) => Some(a.mapId)
    case MapAssetUpdated(a) => Some(a.mapId)
    case MapAssetDeleted(_, m) => Some(m)
    case MapCreated(_, created) => Some(created.id)
    case MapUpdated(m, _) => Some(m)
    case MapDeleted(_, m) => Some(m)
  }

  /** The room an event concerns, when it names one. */
  function RoomOf(e: DomainEvent): Option<RoomId> {
    match e
    case MapCreated(r, _) => Some(r)
    case MapDeleted(r, _) => Some(r)
    case _ => None
  }

  /**
   * A service call: the store after it, its value or error, and the events
   * published on the bus. A call publishes only after a committed write.
   */
  datatype ServiceStep<S, T> = ServiceStep(store: S, result: Result<T, Fault>, events: seq<DomainEvent>)

  /**
   * The publishing discipline: a failed call leaves the store as it was
   * and publishes nothing; a successful one publishes exactly one event.
   */
  predicate PublishesOnce<S(==), T>(before: S, step: ServiceStep<S, T>) {
    && (step.result.Failure? ==> step.store == before && step.events == [])
    && (step.result.Success? ==> |step.events| == 1)
  }
}
