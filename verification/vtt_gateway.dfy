/**
 * The table gateway (`/vtt` namespace): which users are present in which
 * rooms and maps, the commands that read and change that presence or are
 * gated on it, and the routing of domain events to room and map groups.
 *
 * Each handler runs as one atomic step once the results of the
 * collaborators it awaits are known; those results are parameters.
 */
module VttGateway {

  import opened Wrappers
  import opened Entities
  import opened DomainEvents
  import opened JsValues
  import opened Registry
  import MapAssetService

  /** A broadcast group: `room-<roomId>` or `map-<mapId>`. */
  datatype Group = RoomGroup(roomId: RoomId) | MapGroup(mapId: MapId)

  function GroupName(g: Group): string {
    match g
    case RoomGroup(r) => "room-" + r
    case MapGroup(m) => "map-" + m
  }

  /** Distinct groups have distinct names, so a room and a map never share a group. */
  lemma GroupNameInjective(a: Group, b: Group)
    ensures GroupName(a) == GroupName(b) ==> a == b
  {
    if GroupName(a) == GroupName(b) {
      assert GroupName(a)[0] == GroupName(b)[0];
      match a
      case RoomGroup(r) =>
        assert b.RoomGroup?;
        assert r == GroupName(a)[5..] == GroupName(b)[5..] == b.roomId;
      case MapGroup(m) =>
        assert b.MapGroup?;
        assert m == GroupName(a)[4..] == GroupName(b)[4..] == b.mapId;
    }
  }

  /** The map as sent on join: every entity field plus `backgroundUrl`, `imageUrl ?? null`. */
  datatype MapView = MapView(shown: VttMap, backgroundUrl: Option<string>)

  /** Server-to-client messages of this namespace. */
  datatype VttMsg =
    | JoinedRoom(roomId: RoomId)
    | LeftRoom(roomId: RoomId)
    | JoinedMap(view: MapView, tokens: seq<TokenResponse>, mapAssets: seq<MapAsset>)
    | LeftMap(mapId: MapId)
    | TokenCreatedMsg(token: TokenResponse)
    | TokenUpdatedMsg(token: TokenResponse)
    | TokenDeletedMsg(id: TokenId)
    | AssetCreatedMsg(asset: MapAsset)
    | AssetUpdatedMsg(asset: MapAsset)
    | AssetDeletedMsg(id: AssetId)
    | MapCreatedMsg(created: VttMap)
    | MapUpdatedMsg(fields: map<string, JsValue>)
    | MapDeletedMsg(id: MapId)
    | ErrorMsg(fault: Fault)

  /** The event name each message is emitted under. */
  function EventName(m: VttMsg): string {
    match m
    case JoinedRoom(_) => "joinedRoom"
    case LeftRoom(_) => "leftRoom"
    case JoinedMap(_, _, _) => "joinedMap"
    case LeftMap(_) => "leftMap"
    case TokenCreatedMsg(_) => "token:created"
    case TokenUpdatedMsg(_) => "token:updated"
    case TokenDeletedMsg(_) => "token:deleted"
    case AssetCreatedMsg(_) => "map_asset_created"
    case AssetUpdatedMsg(_) => "map_asset_updated"
    case AssetDeletedMsg(_) => "map_asset_deleted"
    case MapCreatedMsg(_) => "mapCreated"
    case MapUpdatedMsg(_) => "mapUpdated"
    case MapDeletedMsg(_) => "mapDeleted"
    case ErrorMsg(_) => "error"
  }

  type Out = Emission<Group, VttMsg>

  /** `connectedRooms` and `connectedMaps`. */
  datatype Presence = Presence(rooms: Registry<RoomId, UserId>, maps: Registry<MapId, UserId>)

  /** No room or map entry is left holding an empty set. */
  predicate Valid(p: Presence) {
    Pruned(p.rooms) && Pruned(p.maps)
  }

  /** Work delegated to the table service, which persists it and publishes the event. */
  datatype Call =
    | MoveTokenCall(tokenId: TokenId, x: int, y: int, userId: UserId)
    | UpdateMapCall(mapId: MapId, updates: JsValue, userId: UserId)

  /** One handler step: the presence after it, what it emitted, what it delegated. */
  datatype Step = Step(presence: Presence, out: seq<Out>, calls: seq<Call>)

  /** JavaScript's `message || fallback` on a thrown error's message. */
  function OrElse(message: string, fallback: string): string {
    if message == "" then fallback else message
  }

  /** The caller alone receives exactly one error message. */
  predicate SingleError(out: seq<Out>) {
    |out| == 1 && out[0].ToCaller? && out[0].msg.ErrorMsg?
  }

  // ---------------------------------------------------------------- presence

  /** Connection loss: the user leaves every map and every room. */
  function HandleDisconnect(p: Presence, user: UserId): (p': Presence)
    ensures forall k :: !Has(p'.rooms, k, user) && !Has(p'.maps, k, user)
    ensures forall k, v :: v != user ==> (Has(p'.rooms, k, v) <==> Has(p.rooms, k, v))
    ensures forall k, v :: v != user ==> (Has(p'.maps, k, v) <==> Has(p.maps, k, v))
    ensures p'.rooms.Keys <= p.rooms.Keys && p'.maps.Keys <= p.maps.Keys
    ensures Valid(p) ==> Valid(p')
  {
    Presence(Purge(p.rooms, user), Purge(p.maps, user))
  }

  /**
   * `joinRoom`: once the participant check passes the user is present in
   * the room and is told so; a failed check changes nothing and sends one
   * error.
   */
  function HandleJoinRoom(p: Presence, user: UserId, roomId: RoomId, access: Outcome<string>)
    : (r: Step)
    ensures r.presence.maps == p.maps && r.calls == []
    ensures access.Pass? ==>
      && (forall k, v :: Has(r.presence.rooms, k, v) <==> Has(p.rooms, k, v) || (k == roomId && v == user))
      && r.out == [ToCaller(JoinedRoom(roomId))]
    ensures access.Fail? ==> r.presence == p && r.out == Reply(ErrorMsg(Rejected("Cannot join room: " + access.error)))
    ensures Valid(p) ==> Valid(r.presence)
  {
    match access
    case Fail(e) => Step(p, Reply(ErrorMsg(Rejected("Cannot join room: " + e))), [])
    case Pass => Step(p.(rooms := Add(p.rooms, roomId, user)), [ToCaller(JoinedRoom(roomId))], [])
  }

  /** Joining the same room twice leaves the same presence as joining once. */
  lemma JoinRoomIdempotent(p: Presence, user: UserId, roomId: RoomId)
    ensures var once := HandleJoinRoom(p, user, roomId, Pass).presence;
      HandleJoinRoom(once, user, roomId, Pass).presence == once
  {
    AddIdempotent(p.rooms, roomId, user);
  }

  /**
   * `leaveRoom`: the user is no longer present in the room, an emptied
   * entry is dropped, maps are untouched, and the caller is told.
   */
  function HandleLeaveRoom(p: Presence, user: UserId, roomId: RoomId): (r: Step)
    ensures r.presence.maps == p.maps && r.calls == []
    ensures forall k, v :: Has(r.presence.rooms, k, v) <==> Has(p.rooms, k, v) && (k != roomId || v != user)
    ensures r.out == [ToCaller(LeftRoom(roomId))]
    ensures Valid(p) ==> Valid(r.presence)
  {
    Step(p.(rooms := Remove(p.rooms, roomId, user)), [ToCaller(LeftRoom(roomId))], [])
  }

  /** The fallback error text of `joinMap` ("joining the map failed"). */
  const JoinMapFailed: string := "맵 참가 실패"

  /**
   * `joinMap`: the map lookup (which also checks access) must succeed and
   * the user must be present in the map's room; otherwise nothing changes
   * and one error is sent. Once both hold the user is present on the map,
   * before the token and asset snapshots are fetched, so a failing
   * snapshot still leaves the user registered and sends an error instead
   * of the snapshot.
   */
  function HandleJoinMap(p: Presence, user: UserId, mapId: MapId,
                         lookup: Result<VttMap, string>,
                         tokens: Result<seq<TokenResponse>, string>,
                         assets: Result<seq<MapAsset>, string>): (r: Step)
    ensures r.presence.rooms == p.rooms && r.calls == []
    ensures var admitted := lookup.Success? && Has(p.rooms, lookup.value.roomId, user);
      && (admitted ==>
            forall k, v :: Has(r.presence.maps, k, v) <==> Has(p.maps, k, v) || (k == mapId && v == user))
      && (!admitted ==> r.presence == p && SingleError(r.out))
    ensures lookup.Failure? ==> r.out == Reply(ErrorMsg(Rejected(OrElse(lookup.error, JoinMapFailed))))
    ensures lookup.Success? && !Has(p.rooms, lookup.value.roomId, user) ==> r.out == Reply(ErrorMsg(EnterRoomFirst))
    ensures lookup.Success? && Has(p.rooms, lookup.value.roomId, user) ==>
      && (tokens.Failure? ==> r.out == Reply(ErrorMsg(Rejected(OrElse(tokens.error, JoinMapFailed)))))
      && (tokens.Success? && assets.Failure? ==> r.out == Reply(ErrorMsg(Rejected(OrElse(assets.error, JoinMapFailed)))))
      && (tokens.Success? && assets.Success? ==>
            r.out == [ToCaller(JoinedMap(MapView(lookup.value, lookup.value.imageUrl),
                                         tokens.value, assets.value))])
    ensures Valid(p) ==> Valid(r.presence)
  {
    match lookup
    case Failure(e) => Step(p, Reply(ErrorMsg(Rejected(OrElse(e, JoinMapFailed)))), [])
    case Success(vttMap) =>
      if !Has(p.rooms, vttMap.roomId, user) then Step(p, Reply(ErrorMsg(EnterRoomFirst)), [])
      else
        var p' := p.(maps := Add(p.maps, mapId, user));
        match (tokens, assets)
        case (Failure(e), _) => Step(p', Reply(ErrorMsg(Rejected(OrElse(e, JoinMapFailed)))), [])
        case (Success(_), Failure(e)) => Step(p', Reply(ErrorMsg(Rejected(OrElse(e, JoinMapFailed)))), [])
        case (Success(ts), Success(assetList)) =>
          Step(p', [ToCaller(JoinedMap(MapView(vttMap, vttMap.imageUrl), ts, assetList))], [])
  }

  /** `leaveMap`: symmetric to `leaveRoom`, on maps. */
  function HandleLeaveMap(p: Presence, user: UserId, mapId: MapId): (r: Step)
    ensures r.presence.rooms == p.rooms && r.calls == []
    ensures forall k, v :: Has(r.presence.maps, k, v) <==> Has(p.maps, k, v) && (k != mapId || v != user)
    ensures r.out == [ToCaller(LeftMap(mapId))]
    ensures Valid(p) ==> Valid(r.presence)
  {
    Step(p.(maps := Remove(p.maps, mapId, user)), [ToCaller(LeftMap(mapId))], [])
  }

  /** Leaving a room one is not in changes nothing. */
  lemma LeaveRoomWhenAbsent(p: Presence, user: UserId, roomId: RoomId)
    requires Valid(p) && !Has(p.rooms, roomId, user)
    ensures HandleLeaveRoom(p, user, roomId).presence == p
  {
    RemoveAbsentIsIdentity(p.rooms, roomId, user);
  }

  /** Leaving a map one is not on changes nothing. */
  lemma LeaveMapWhenAbsent(p: Presence, user: UserId, mapId: MapId)
    requires Valid(p) && !Has(p.maps, mapId, user)
    ensures HandleLeaveMap(p, user, mapId).presence == p
  {
    RemoveAbsentIsIdentity(p.maps, mapId, user);
  }

  /** Joining a map the user was not on and leaving it again restores the presence. */
  lemma JoinMapThenLeaveMap(p: Presence, user: UserId, mapId: MapId, lookup: Result<VttMap, string>,
                            tokens: Result<seq<TokenResponse>, string>,
                            assets: Result<seq<MapAsset>, string>)
    requires Valid(p) && !Has(p.maps, mapId, user)
    ensures var joined := HandleJoinMap(p, user, mapId, lookup, tokens, assets).presence;
      HandleLeaveMap(joined, user, mapId).presence == p
  {
    if lookup.Success? && Has(p.rooms, lookup.value.roomId, user) {
      AddThenRemove(p.maps, mapId, user);
    } else {
      RemoveAbsentIsIdentity(p.maps, mapId, user);
    }
  }

  // ------------------------------------------------------ room-before-map

  /**
   * Every map presence is backed by presence in the map's room, with
   * `roomOf` the room each map belongs to.
   */
  ghost predicate MapsBackedByRooms(p: Presence, roomOf: map<MapId, RoomId>) {
    forall m, u :: Has(p.maps, m, u) ==> m in roomOf && Has(p.rooms, roomOf[m], u)
  }

  /** The map lookup reports the map's real room. */
  predicate LookupAgrees(lookup: Result<VttMap, string>, mapId: MapId, roomOf: map<MapId, RoomId>) {
    lookup.Success? ==> mapId in roomOf && roomOf[mapId] == lookup.value.roomId
  }

  lemma JoinRoomKeepsBacking(p: Presence, roomOf: map<MapId, RoomId>, user: UserId, roomId: RoomId,
                             access: Outcome<string>)
    requires MapsBackedByRooms(p, roomOf)
    ensures MapsBackedByRooms(HandleJoinRoom(p, user, roomId, access).presence, roomOf)
  {
  }

  lemma JoinMapKeepsBacking(p: Presence, roomOf: map<MapId, RoomId>, user: UserId, mapId: MapId,
                            lookup: Result<VttMap, string>,
                            tokens: Result<seq<TokenResponse>, string>,
                            assets: Result<seq<MapAsset>, string>)
    requires MapsBackedByRooms(p, roomOf)
    requires LookupAgrees(lookup, mapId, roomOf)
    ensures MapsBackedByRooms(HandleJoinMap(p, user, mapId, lookup, tokens, assets).presence, roomOf)
  {
  }

  lemma LeaveMapKeepsBacking(p: Presence, roomOf: map<MapId, RoomId>, user: UserId, mapId: MapId)
    requires MapsBackedByRooms(p, roomOf)
    ensures MapsBackedByRooms(HandleLeaveMap(p, user, mapId).presence, roomOf)
  {
  }

  lemma DisconnectKeepsBacking(p: Presence, roomOf: map<MapId, RoomId>, user: UserId)
    requires MapsBackedByRooms(p, roomOf)
    ensures MapsBackedByRooms(HandleDisconnect(p, user), roomOf)
  {
  }

  /**
   * Leaving a room does not cascade to its maps, so the backing is lost:
   * a user on map "m" of room "r" who leaves "r" stays on "m".
   */
  lemma LeaveRoomBreaksBacking()
    ensures var p := Presence(map["r" := {1}], map["m" := {1}]);
      && MapsBackedByRooms(p, map["m" := "r"])
      && !MapsBackedByRooms(HandleLeaveRoom(p, 1, "r").presence, map["m" := "r"])
  {
    var p := Presence(map["r" := {1}], map["m" := {1}]);
    var after := HandleLeaveRoom(p, 1, "r").presence;
    assert Has(after.maps, "m", 1);
    assert !Has(after.rooms, "r", 1);
  }

  // ------------------------------------------------------------- commands

  /**
   * `moveToken`: the move check must pass and the user must be present on
   * the token's map; only then is the move delegated. Otherwise the caller
   * gets one error (`NotInRoom` for the presence check) and nothing moves.
   */
  function HandleMoveToken(p: Presence, user: UserId, tokenId: TokenId, x: int, y: int,
                           located: Result<Token, string>, moved: Outcome<string>): (r: Step)
    ensures r.presence == p
    ensures r.calls != [] <==> located.Success? && Has(p.maps, located.value.mapId, user)
    ensures r.calls != [] ==> r.calls == [MoveTokenCall(tokenId, x, y, user)]
    ensures located.Failure? ==> r.out == Reply(ErrorMsg(Rejected(located.error)))
    ensures located.Success? && !Has(p.maps, located.value.mapId, user) ==> r.out == Reply(ErrorMsg(NotInRoom))
    ensures r.calls != [] && moved.Fail? ==> r.out == Reply(ErrorMsg(Rejected(moved.error)))
    ensures r.calls != [] && moved.Pass? ==> r.out == []
  {
    match located
    case Failure(e) => Step(p, Reply(ErrorMsg(Rejected(e))), [])
    case Success(token) =>
      if !Has(p.maps, token.mapId, user) then Step(p, Reply(ErrorMsg(NotInRoom)), [])
      else
        var calls := [MoveTokenCall(tokenId, x, y, user)];
        match moved
        case Pass => Step(p, [], calls)
        case Fail(e) => Step(p, Reply(ErrorMsg(Rejected(e))), calls)
  }

  /** The transform an `updateMapAsset` payload must carry. */
  datatype AssetTransform = AssetTransform(assetId: AssetId, x: int, y: int, width: int, height: int)

  /** The shape check of `updateMapAsset`. */
  function ParseAssetUpdate(raw: JsValue): (r: Result<AssetTransform, Fault>)
    ensures r.Success? <==>
      && Truthy(raw) && TypeOf(Get(raw, "assetId")) == "string"
      && TypeOf(Get(raw, "x")) == "number" && TypeOf(Get(raw, "y")) == "number"
      && TypeOf(Get(raw, "width")) == "number" && TypeOf(Get(raw, "height")) == "number"
    ensures r.Success? ==>
      && Get(raw, "assetId") == Str(r.value.assetId)
      && Get(raw, "x") == Number(r.value.x) && Get(raw, "y") == Number(r.value.y)
      && Get(raw, "width") == Number(r.value.width) && Get(raw, "height") == Number(r.value.height)
    ensures r.Failure? ==>
      r.error == (if !Truthy(raw) || TypeOf(Get(raw, "assetId")) != "string" then InvalidAssetId
                  else InvalidTransform)
  {
    if !Truthy(raw) || StringField(raw, "assetId").None? then Failure(InvalidAssetId)
    else
      match (NumberField(raw, "x"), NumberField(raw, "y"), NumberField(raw, "width"), NumberField(raw, "height"))
      case (Some(x), Some(y), Some(w), Some(h)) =>
        Success(AssetTransform(StringField(raw, "assetId").value, x, y, w, h))
      case _ => Failure(InvalidTransform)
  }

  /** The shape check of `deleteMapAsset`. */
  function ParseAssetDelete(raw: JsValue): (r: Result<AssetId, Fault>)
    ensures r.Success? <==> Truthy(raw) && TypeOf(Get(raw, "assetId")) == "string"
    ensures r.Success? ==> Get(raw, "assetId") == Str(r.value)
    ensures r.Failure? ==> r.error == InvalidAssetId
  {
    if !Truthy(raw) then Failure(InvalidAssetId)
    else match StringField(raw, "assetId")
      case Some(id) => Success(id)
      case None => Failure(InvalidAssetId)
  }

  /** The shape check of `updateMap`: a string `mapId` and a truthy object `updates`. */
  function ParseMapUpdate(raw: JsValue): (r: Result<(MapId, JsValue), Fault>)
    ensures r.Success? <==>
      && Truthy(raw) && TypeOf(Get(raw, "mapId")) == "string"
      && Truthy(Get(raw, "updates")) && TypeOf(Get(raw, "updates")) == "object"
    ensures r.Success? ==> Get(raw, "mapId") == Str(r.value.0) && r.value.1 == Get(raw, "updates")
    ensures r.Failure? ==>
      r.error == (if !Truthy(raw) || TypeOf(Get(raw, "mapId")) != "string" then InvalidMapId
                  else InvalidUpdates)
  {
    if !Truthy(raw) || StringField(raw, "mapId").None? then Failure(InvalidMapId)
    else
      var updates := Get(raw, "updates");
      if !Truthy(updates) || TypeOf(updates) != "object" then Failure(InvalidUpdates)
      else Success((StringField(raw, "mapId").value, updates))
  }

  /** `null`, arrays and objects all have `typeof` "object"; only the truthiness test rules out `null`. */
  lemma NullUpdatesRejected(mapId: string)
    ensures ParseMapUpdate(Object(map["mapId" := Str(mapId), "updates" := Null])) == Failure(InvalidUpdates)
    ensures ParseMapUpdate(Object(map["mapId" := Str(mapId), "updates" := Array([])])).Success?
  {
    var raw := Object(map["mapId" := Str(mapId), "updates" := Null]);
    assert Get(raw, "mapId") == Str(mapId);
    var raw' := Object(map["mapId" := Str(mapId), "updates" := Array([])]);
    assert Get(raw', "mapId") == Str(mapId) && Get(raw', "updates") == Array([]);
  }

  const UpdateMapFailed: string := "Invalid updateMap payload"

  /**
   * `updateMap`: a well-shaped payload is delegated to the map service
   * (which checks that the caller is the GM and publishes the event); a
   * malformed one, or a failing service call, sends one error.
   */
  function HandleUpdateMap(p: Presence, user: UserId, raw: JsValue, updated: Outcome<string>)
    : (r: Step)
    ensures r.presence == p
    ensures r.calls != [] <==> ParseMapUpdate(raw).Success?
    ensures r.calls != [] ==>
      r.calls == [UpdateMapCall(ParseMapUpdate(raw).value.0, ParseMapUpdate(raw).value.1, user)]
    ensures ParseMapUpdate(raw).Failure? ==> r.out == Reply(ErrorMsg(ParseMapUpdate(raw).error))
    ensures r.calls != [] && updated.Fail? ==> r.out == Reply(ErrorMsg(Rejected(OrElse(updated.error, UpdateMapFailed))))
    ensures r.calls != [] && updated.Pass? ==> r.out == []
  {
    match ParseMapUpdate(raw)
    case Failure(f) => Step(p, Reply(ErrorMsg(f)), [])
    case Success((mapId, updates)) =>
      var calls := [UpdateMapCall(mapId, updates, user)];
      match updated
      case Pass => Step(p, [], calls)
      case Fail(e) => Step(p, Reply(ErrorMsg(Rejected(OrElse(e, UpdateMapFailed)))), calls)
  }

  // -------------------------------------------------------------- routing

  /** The group an event is meant for: room-scoped for map creation and deletion, map-scoped otherwise. */
  function IntendedGroup(e: DomainEvent): Group {
    if EntityOf(e) == MapEntity && ChangeOf(e) != Updated then RoomGroup(RoomOf(e).GetOr(""))
    else MapGroup(MapOf(e).GetOr(""))
  }

  /** The `@OnEvent` listeners: each event becomes one message to one group. */
  function Route(e: DomainEvent): (r: Out)
    ensures r.ToGroup? && r.group == IntendedGroup(e)
    ensures EntityOf(e) == MapEntity && ChangeOf(e) != Updated ==> RoomOf(e).Some?
  {
    match e
    case TokenCreated(m, t) => ToGroup(MapGroup(m), TokenCreatedMsg(t))
    case TokenUpdated(m, t) => ToGroup(MapGroup(m), TokenUpdatedMsg(t))
    case TokenDeleted(m, id) => ToGroup(MapGroup(m), TokenDeletedMsg(id))
    case MapAssetCreated(a) => ToGroup(MapGroup(a.mapId), AssetCreatedMsg(a))
    case MapAssetUpdated(a) => ToGroup(MapGroup(a.mapId), AssetUpdatedMsg(a))
    case MapAssetDeleted(id, m) => ToGroup(MapGroup(m), AssetDeletedMsg(id))
    case MapCreated(room, created) => ToGroup(RoomGroup(room), MapCreatedMsg(created))
    case MapUpdated(m, payload) => ToGroup(MapGroup(m), MapUpdatedMsg(map["id" := Str(m)] + payload))
    case MapDeleted(room, m) => ToGroup(RoomGroup(room), MapDeletedMsg(m))
  }

  /**
   * `mapUpdated` carries `{ id: mapId, ...payload }`: every payload field,
   * and `id` is the map id unless the payload itself has an `id`, which
   * then wins.
   */
  lemma MapUpdatedFields(mapId: MapId, payload: map<string, JsValue>)
    ensures var fields := Route(MapUpdated(mapId, payload)).msg.fields;
      && fields.Keys == payload.Keys + {"id"}
      && (forall k :: k in payload ==> fields[k] == payload[k])
      && ("id" !in payload ==> fields["id"] == Str(mapId))
  {
  }

  /** Deletions carry only the deleted record's id. */
  lemma DeletionsCarryId(e: DomainEvent)
    requires ChangeOf(e) == Deleted
    ensures Route(e).msg == (match e
      case TokenDeleted(_, id) => TokenDeletedMsg(id)
      case MapAssetDeleted(id, _) => AssetDeletedMsg(id)
      case _ => MapDeletedMsg(MapOf(e).GetOr("")))
  {
  }

  /** Creations and updates of tokens and assets, and map creations, carry the event's record unchanged. */
  lemma RecordsCarriedUnchanged(e: DomainEvent)
    ensures e.TokenCreated? ==> Route(e).msg == TokenCreatedMsg(e.token)
    ensures e.TokenUpdated? ==> Route(e).msg == TokenUpdatedMsg(e.token)
    ensures e.MapAssetCreated? ==> Route(e).msg == AssetCreatedMsg(e.asset)
    ensures e.MapAssetUpdated? ==> Route(e).msg == AssetUpdatedMsg(e.asset)
    ensures e.MapCreated? ==> Route(e).msg == MapCreatedMsg(e.created)
  {
  }

  /** Every published event, in order, becomes its one routed message. */
  function Dispatch(events: seq<DomainEvent>): (out: seq<Out>)
    ensures |out| == |events|
    ensures forall i :: 0 <= i < |events| ==> out[i] == Route(events[i])
  {
    if events == [] then [] else [Route(events[0])] + Dispatch(events[1..])
  }

  // ------------------------------------------------------ map-asset commands

  /** A map-asset command's step: the asset store after it and what it emitted. */
  datatype AssetStep = AssetStep(assets: MapAssetService.AssetStore, out: seq<Out>)

  /**
   * `updateMapAsset`: a well-shaped payload updates the asset's transform
   * through the asset service, whose `MapAssetUpdated` event reaches the
   * asset's map group synchronously; a malformed payload or an unknown
   * asset sends one error and changes nothing. No presence is required.
   */
  function HandleUpdateMapAsset(assets: MapAssetService.AssetStore, raw: JsValue): (r: AssetStep)
    ensures ParseAssetUpdate(raw).Failure? ==>
      r.assets == assets && r.out == Reply(ErrorMsg(ParseAssetUpdate(raw).error))
    ensures ParseAssetUpdate(raw).Success? && ParseAssetUpdate(raw).value.assetId !in assets ==>
      r.assets == assets && r.out == Reply(ErrorMsg(NotFound(ParseAssetUpdate(raw).value.assetId)))
    ensures ParseAssetUpdate(raw).Success? && ParseAssetUpdate(raw).value.assetId in assets ==>
      var t := ParseAssetUpdate(raw).value;
      var before := assets[t.assetId];
      var updated := MapAsset(before.id, before.mapId, before.url, t.x, t.y, t.width, t.height);
      && r.assets == assets[t.assetId := updated]
      && r.out == [ToGroup(MapGroup(before.mapId), AssetUpdatedMsg(updated))]
  {
    match ParseAssetUpdate(raw)
    case Failure(f) => AssetStep(assets, Reply(ErrorMsg(f)))
    case Success(t) =>
      var dto := MapAssetService.UpdateMapAssetDto(None, Some(t.x), Some(t.y), Some(t.width), Some(t.height));
      var step := MapAssetService.Update(assets, t.assetId, dto);
      match step.result
      case Failure(f) => AssetStep(step.store, Dispatch(step.events) + Reply(ErrorMsg(f)))
      case Success(_) => AssetStep(step.store, Dispatch(step.events))
  }

  /**
   * `deleteMapAsset`: a string `assetId` deletes the asset through the
   * asset service, whose `MapAssetDeleted` event reaches the asset's map
   * group; otherwise one error and no change.
   */
  function HandleDeleteMapAsset(assets: MapAssetService.AssetStore, raw: JsValue): (r: AssetStep)
    ensures ParseAssetDelete(raw).Failure? ==> r.assets == assets && r.out == Reply(ErrorMsg(InvalidAssetId))
    ensures ParseAssetDelete(raw).Success? && ParseAssetDelete(raw).value !in assets ==>
      r.assets == assets && r.out == Reply(ErrorMsg(NotFound(ParseAssetDelete(raw).value)))
    ensures ParseAssetDelete(raw).Success? && ParseAssetDelete(raw).value in assets ==>
      var id := ParseAssetDelete(raw).value;
      && r.assets == assets - {id}
      && r.out == [ToGroup(MapGroup(assets[id].mapId), AssetDeletedMsg(id))]
  {
    match ParseAssetDelete(raw)
    case Failure(f) => AssetStep(assets, Reply(ErrorMsg(f)))
    case Success(id) =>
      var step := MapAssetService.Remove(assets, id);
      match step.result
      case Failure(f) => AssetStep(step.store, Dispatch(step.events) + Reply(ErrorMsg(f)))
      case Success(_) => AssetStep(step.store, Dispatch(step.events))
  }

  // --------------------------------------------------- commands and presence

  /** After leaving a map, no move of a token on that map is delegated. */
  lemma NoMoveAfterLeaveMap(p: Presence, user: UserId, token: Token, x: int, y: int, moved: Outcome<string>)
    ensures var r := HandleMoveToken(HandleLeaveMap(p, user, token.mapId).presence, user, token.id, x, y,
                                     Success(token), moved);
      r.calls == [] && r.out == Reply(ErrorMsg(NotInRoom))
  {
  }

  /** After a disconnect, no move is delegated, whatever token it names. */
  lemma NoMoveAfterDisconnect(p: Presence, user: UserId, tokenId: TokenId, x: int, y: int,
                              located: Result<Token, string>, moved: Outcome<string>)
    ensures HandleMoveToken(HandleDisconnect(p, user), user, tokenId, x, y, located, moved).calls == []
  {
  }

  /** Joining the room alone does not let the user move tokens on a map they have not joined. */
  lemma JoinRoomAloneGivesNoMoves(p: Presence, user: UserId, roomId: RoomId, access: Outcome<string>,
                                  token: Token, x: int, y: int, moved: Outcome<string>)
    requires !Has(p.maps, token.mapId, user)
    ensures var r := HandleMoveToken(HandleJoinRoom(p, user, roomId, access).presence, user, token.id, x, y,
                                     Success(token), moved);
      r.calls == [] && r.out == Reply(ErrorMsg(NotInRoom))
  {
  }

  /** Once a map join is admitted, moves of that map's tokens are delegated. */
  lemma JoinMapEnablesMoves(p: Presence, user: UserId, lookup: Result<VttMap, string>,
                            tokens: Result<seq<TokenResponse>, string>,
                            assets: Result<seq<MapAsset>, string>,
                            token: Token, x: int, y: int, moved: Outcome<string>)
    requires lookup.Success? && Has(p.rooms, lookup.value.roomId, user)
    ensures var joined := HandleJoinMap(p, user, token.mapId, lookup, tokens, assets).presence;
      HandleMoveToken(joined, user, token.id, x, y, Success(token), moved).calls
        == [MoveTokenCall(token.id, x, y, user)]
  {
  }

  /** `updateMap` has no presence gate: its outcome does not depend on the presence at all. */
  lemma UpdateMapIgnoresPresence(p: Presence, q: Presence, user: UserId, raw: JsValue, updated: Outcome<string>)
    ensures HandleUpdateMap(p, user, raw, updated).calls == HandleUpdateMap(q, user, raw, updated).calls
    ensures HandleUpdateMap(p, user, raw, updated).out == HandleUpdateMap(q, user, raw, updated).out
  {
  }

  /** Sending the same `updateMapAsset` payload again repeats the same step: same store, same messages. */
  lemma UpdateMapAssetIdempotent(assets: MapAssetService.AssetStore, raw: JsValue)
    ensures var first := HandleUpdateMapAsset(assets, raw);
      HandleUpdateMapAsset(first.assets, raw) == first
  {
    var first := HandleUpdateMapAsset(assets, raw);
    if ParseAssetUpdate(raw).Success? && ParseAssetUpdate(raw).value.assetId in assets {
      var t := ParseAssetUpdate(raw).value;
      assert first.assets[t.assetId := first.assets[t.assetId]] == first.assets;
    }
  }

  /** Deleting the same asset a second time finds nothing and changes nothing. */
  lemma DeleteMapAssetTwice(assets: MapAssetService.AssetStore, raw: JsValue)
    requires ParseAssetDelete(raw).Success?
    ensures var first := HandleDeleteMapAsset(assets, raw);
      var second := HandleDeleteMapAsset(first.assets, raw);
      second.assets == first.assets && second.out == Reply(ErrorMsg(NotFound(ParseAssetDelete(raw).value)))
  {
  }

  /**
   * What a client learns from the name of a routed message: the kind of
   * record and the kind of change, for each of the nine names the domain
   * events are emitted under; any other name tells nothing. The names are
   * grouped by record kind, whose three names share one length.
   */
  function KindOfName(n: string): Option<(EntityKind, ChangeKind)> {
    if |n| == 13 then
      if n == "token:created" then Some((TokenEntity, Created))
      else if n == "token:updated" then Some((TokenEntity, Updated))
      else if n == "token:deleted" then Some((TokenEntity, Deleted))
      else None
    else if |n| == 17 then
      if n == "map_asset_created" then Some((AssetEntity, Created))
      else if n == "map_asset_updated" then Some((AssetEntity, Updated))
      else if n == "map_asset_deleted" then Some((AssetEntity, Deleted))
      else None
    else
      if n == "mapCreated" then Some((MapEntity, Created))
      else if n == "mapUpdated" then Some((MapEntity, Updated))
      else if n == "mapDeleted" then Some((MapEntity, Deleted))
      else None
  }

  /** No two names decode to the same kinds. */
  lemma KindOfNameInjective(n: string, m: string)
    requires KindOfName(n).Some? && KindOfName(n) == KindOfName(m)
    ensures n == m
  {
  }

  /** The name of every routed message gives back its event's kinds. */
  lemma RoutedNameDecodes(e: DomainEvent)
    ensures KindOfName(EventName(Route(e).msg)) == Some((EntityOf(e), ChangeOf(e)))
  {
  }

  /** Each kind of change to each kind of record reaches clients under its own event name. */
  lemma EventNamesIdentifyKind(a: DomainEvent, b: DomainEvent)
    ensures EventName(Route(a).msg) == EventName(Route(b).msg)
        <==> EntityOf(a) == EntityOf(b) && ChangeOf(a) == ChangeOf(b)
  {
    RoutedNameDecodes(a);
    RoutedNameDecodes(b);
    if EntityOf(a) == EntityOf(b) && ChangeOf(a) == ChangeOf(b) {
      KindOfNameInjective(EventName(Route(a).msg), EventName(Route(b).msg));
    }
  }
}
