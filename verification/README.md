# Real-time core of the TRPG server

This project models the real-time layer of the TRPG server (a NestJS
application in `trpg_server`):

- The **table gateway** (`/vtt` namespace). It keeps two presence registries:
  the users present in each room and the users present on each map. It runs
  the client commands that read or change them (`joinRoom`, `leaveRoom`,
  `joinMap`, `leaveMap`, disconnect). It gates `moveToken` on presence. It
  checks the shape of the `updateMapAsset`, `deleteMapAsset` and `updateMap`
  payloads. It routes every domain event to the `room-<id>` or `map-<id>`
  group.
- The **chat gateway** (`/chat` namespace). It keeps its own room registry
  and gates `sendMessage` on presence in that registry.
- The **connection authenticator** both gateways install. It takes the
  token from the auth payload, then the query, then the second word of the
  `Authorization` header. It then resolves the token to an identity or
  refuses the connection.
- The **token service** and the **map-asset service**. They create, update,
  list and delete records, and publish exactly one domain event per
  committed write.

Each handler is a pure function. It takes the state before the step, the
command and the results of the collaborators it awaits. It returns the state
after the step, the messages it emits, and the calls it delegates. A message
goes either to the caller (`ToCaller`) or to a group (`ToGroup`).

Collaborators whose code is not part of this model appear as parameters:
- the participant and room-access checks;
- the token validator;
- the map lookup and the table service's `moveToken` / `updateMap`;
- the chat service's message store;
- the identity resolver of the authenticator;
- the database-generated ids.

Files:
- `wrappers.dfy`: Option, Result, Outcome and Emission.
- `text.dfy`: JavaScript `split` on one character, and its inverse `join`.
- `js_values.dfy`: untyped socket payloads, `typeof` and truthiness.
- `entities.dfy`: the records and the error kinds.
- `domain_events.dfy`: domain events and the "publishes once" discipline.
- `registry.dfy`: the presence registry, a map from a key to a set of users in which emptied entries are dropped.
- `stores.dfy`: the by-field query over a table.
- `token_service.dfy` and `map_asset_service.dfy`: the two services.
- `ws_auth.dfy`: the authenticator.
- `vtt_gateway.dfy` and `chat_gateway.dfy`: the two gateways.

Where the code departs from the intended behaviour, the model follows the code:

- **`joinMap`.** The intended join is all or nothing. The code adds the
  user to the map's registry *before* it fetches the token and asset
  snapshots. So when a fetch fails, the user stays registered on the map and
  gets an error instead of the snapshot (`HandleJoinMap`).
- **`mapUpdated`.** The message is built as `{ id: mapId, ...payload }`, so
  an `id` field inside the payload replaces the map id (`MapUpdatedFields`).
- **`leaveRoom`.** It does not remove the user from the room's maps. The
  invariant "every map presence is backed by presence in the map's room"
  therefore holds across every operation except `leaveRoom`.
  `LeaveRoomBreaksBacking` gives a concrete state where `leaveRoom` breaks it.
- **Disconnect.** The two gateways drop emptied entries differently. The
  table gateway drops an entry only when this user's removal emptied it. The
  chat gateway drops every empty entry. On registries with no empty entries
  the two behave the same (`ChatGateway.DisconnectAgreesWithTable`).

## Model

| member | source | states |
|---|---|---|
| Registry.Add | trpg_server/src/vtt/vtt.gateway.ts:104-107 | after registration the user is present under the key; presence elsewhere is unchanged; the key set grows by that key; no empty entry appears |
| Registry.Remove | trpg_server/src/vtt/vtt.gateway.ts:131-137 | after removal the user is absent under the key and every other membership is kept; other entries are untouched; an emptied entry is dropped, so a registry without empty entries stays that way |
| Registry.Purge | trpg_server/src/vtt/vtt.gateway.ts:74-85 | the table disconnect removes the user from every entry, keeps every other user's memberships, and never adds an entry |
| Registry.PurgeAll | trpg_server/src/chat/chat.gateway.ts:82-87 | the chat disconnect removes the user everywhere, keeps every other membership, and leaves no empty entry at all |
| Registry.AddIdempotent | trpg_server/src/vtt/vtt.gateway.ts:104-107 | registering the same user under the same key twice has the same effect as once |
| Registry.RemoveAbsentIsIdentity | trpg_server/src/vtt/vtt.gateway.ts:131-137 | removing a user who is not under the key changes nothing, when the registry has no empty entries |
| Registry.AddThenRemove | trpg_server/src/vtt/vtt.gateway.ts:131-137 | removing a user right after adding them restores the registry, when the user was absent and no entry was empty |
| Registry.PurgeAgreesWithPurgeAll | trpg_server/src/chat/chat.gateway.ts:82-87 | on a registry without empty entries, the table and chat disconnect loops give the same registry |
| Registry.PurgeIdempotent | trpg_server/src/vtt/vtt.gateway.ts:74-85 | running the disconnect loop a second time changes nothing |
| Registry.RemoveEverywhere | trpg_server/src/vtt/vtt.gateway.ts:74-78 | the loop over the entries, deleting the user and dropping the entries this emptied, computes the disconnect's result |
| Text.Split | trpg_server/src/auth/ws-auth.middleware.ts:34 | `split(' ')` always yields at least one piece, exactly one when the string has no separator, and no piece contains the separator |
| Text.JoinSplit | trpg_server/src/auth/ws-auth.middleware.ts:34 | joining the pieces of a split with the separator gives back the original string |
| Text.SplitJoin | trpg_server/src/auth/ws-auth.middleware.ts:34 | splitting a join of separator-free pieces gives back exactly those pieces |
| Stores.Select | trpg_server/src/token/token.service.ts:128 | the by-field query returns every id whose record matches, each exactly once, and no other id |
| JsValues.StringField | trpg_server/src/vtt/vtt.gateway.ts:296 | a payload field reads as a string exactly when its `typeof` is "string", and then it is that string |
| JsValues.NumberField | trpg_server/src/vtt/vtt.gateway.ts:299-304 | a payload field reads as a number exactly when its `typeof` is "number", and then it is that number |
| WsAuth.FirstTruthy | trpg_server/src/auth/ws-auth.middleware.ts:22-36 | the first present, non-empty source is chosen; nothing is chosen only when every source is absent or empty |
| WsAuth.ExtractToken | trpg_server/src/auth/ws-auth.middleware.ts:22-36 | a found token is never empty; a non-empty auth field wins; otherwise a non-empty query field wins over the header |
| WsAuth.ExtractTokenIsFirstTruthy | trpg_server/src/auth/ws-auth.middleware.ts:22-36 | the lookup is exactly "first truthy of auth field, query field, header token", in that order |
| WsAuth.HeaderToken | trpg_server/src/auth/ws-auth.middleware.ts:34 | the header gives a token exactly when it contains a space, and that token contains no space |
| WsAuth.HeaderWithoutSpace | trpg_server/src/auth/ws-auth.middleware.ts:32-35 | a header with no space yields no token |
| WsAuth.HeaderSecondPiece | trpg_server/src/auth/ws-auth.middleware.ts:34 | for a header laid out as word, space, token, then nothing or more space-led text, the token is the extracted piece, whatever the first word is |
| WsAuth.HeaderTokenShape | trpg_server/src/auth/ws-auth.middleware.ts:34 | conversely, any token taken from the header has exactly that layout |
| WsAuth.Authenticate | trpg_server/src/auth/ws-auth.middleware.ts:39-48 | the connection is admitted exactly when a token is found and resolves, with the resolved identity attached; no token refuses with "No token provided"; a thrown Error keeps its message; anything else thrown becomes "Authentication failed" |
| WsAuth.NoTokenNeverResolves | trpg_server/src/auth/ws-auth.middleware.ts:39 | without a token the verdict is the same for every resolver |
| WsAuth.HeaderOnlyMatchesAuthField | trpg_server/src/auth/ws-auth.middleware.ts:30-36 | a token sent only as `Bearer <token>` authenticates exactly as the same token in the auth payload |
| TokenService.ToResponseDto | trpg_server/src/token/token.service.ts:29-45 | the response copies every token field to the field of the same name, width and height included |
| TokenService.ToResponseDtoInjective | trpg_server/src/token/token.service.ts:29-45 | no token information is lost in the response: distinct tokens give distinct responses |
| TokenService.CreateToken | trpg_server/src/token/token.service.ts:47-83 | the ownership check runs first, then the access check; on success the new token takes the argument's map and the payload's fields, width and height default to 50 and scale to 1, and exactly one `TokenCreated` carries the response; on failure nothing is stored or published |
| TokenService.ApplyUpdate | trpg_server/src/token/token.service.ts:99-105 | each of name, x, y, width, height, scale and imageUrl is overwritten exactly when the payload carries it; an image sent as `null` clears the image, an image left out keeps it; id, map, character-sheet and NPC links never change |
| TokenService.ApplyUpdateIdempotent | trpg_server/src/token/token.service.ts:99-105 | applying the same update twice is the same as once |
| TokenService.LinkOnlyUpdateIsIdentity | trpg_server/src/token/token.service.ts:95-105 | an update carrying only character-sheet or NPC links changes nothing |
| TokenService.UpdateToken | trpg_server/src/token/token.service.ts:85-121 | succeeds exactly when the token exists and access passes (a missing token is taken to be `NotFound`, see Left out); the merged token replaces the old one, and one `TokenUpdated` carries its map and response |
| TokenService.DeleteToken | trpg_server/src/token/token.service.ts:139-150 | succeeds exactly when the token exists and access passes (a missing token is taken to be `NotFound`, see Left out); the token leaves the live store, and one `TokenDeleted` carries its map and id |
| TokenService.GetTokensByMap | trpg_server/src/token/token.service.ts:123-137 | after the access check, lists the response of every stored token of the map, each once, and nothing from other maps |
| TokenService.CreateThenDelete | trpg_server/src/token/token.service.ts:139-150 | deleting a token just created restores the store and publishes its map and id |
| MapAssetService.Create | trpg_server/src/map-asset/map-asset.service.ts:33-53 | the new asset takes the argument's map and the payload's fields, width and height default to 100, and exactly one `MapAssetCreated` carries it |
| MapAssetService.FindAllByMapId | trpg_server/src/map-asset/map-asset.service.ts:58-63 | lists every stored asset of the map, each once, and nothing from other maps |
| MapAssetService.FindOne | trpg_server/src/map-asset/map-asset.service.ts:68-74 | finds the asset exactly when its id is stored, else `NotFound` with that id |
| MapAssetService.Merge | trpg_server/src/map-asset/map-asset.service.ts:86-90 | the loaded record keeps its id and map, and each field the payload carries overwrites it; an empty payload is the identity |
| MapAssetService.Update | trpg_server/src/map-asset/map-asset.service.ts:80-105 | succeeds exactly when the id is stored, else `NotFound` with nothing saved or published; the merged record is saved and carried by one `MapAssetUpdated` |
| MapAssetService.Remove | trpg_server/src/map-asset/map-asset.service.ts:110-126 | succeeds exactly when the id is stored, else `NotFound`; the record is deleted and returned, and one `MapAssetDeleted` carries the requested id and the record's map (the intended deletion, see Findings) |
| MapAssetService.RemoveNamesDeletedRecord | trpg_server/src/map-asset/map-asset.service.ts:119-125 | in a store keyed by id, the deletion event names the id of the record that was deleted and returned |
| MapAssetService.RemoveAsWritten | trpg_server/src/map-asset/map-asset.service.ts:113-125 | the deletion as written: the store loses the record exactly as intended, and the returned record keeps its map, url, position and size, but both the event's id and the returned record's id are absent, read after `remove` has cleared it |
| MapAssetService.RemoveAsWrittenLosesId | trpg_server/src/map-asset/map-asset.service.ts:116-121 | for every stored asset, the deletion as written does not announce the requested id, where the intended deletion announces it with the asset's map; both leave the same store |
| MapAssetService.CreateThenFindOne | trpg_server/src/map-asset/map-asset.service.ts:68-74 | reading an asset just created returns it |
| MapAssetService.CreateThenRemove | trpg_server/src/map-asset/map-asset.service.ts:110-126 | deleting an asset just created restores the store |
| MapAssetService.MergeIdempotent | trpg_server/src/map-asset/map-asset.service.ts:86-90 | merging the same payload twice is the same as once |
| VttGateway.GroupNameInjective | trpg_server/src/vtt/vtt.gateway.ts:109 | `room-<id>` (built here) and `map-<id>` (built the same way at line 178) names never collide: equal names mean the same group |
| VttGateway.HandleDisconnect | trpg_server/src/vtt/vtt.gateway.ts:69-86 | after a disconnect the user is on no map and in no room; everyone else's presence is unchanged; no entry appears; no empty entry appears |
| VttGateway.HandleJoinRoom | trpg_server/src/vtt/vtt.gateway.ts:90-120 | a passing participant check adds exactly this user to the room and acknowledges; a failing one changes nothing and sends "Cannot join room: " plus the reason; maps are never touched |
| VttGateway.JoinRoomIdempotent | trpg_server/src/vtt/vtt.gateway.ts:104-107 | joining the same room twice leaves the same presence as once |
| VttGateway.HandleLeaveRoom | trpg_server/src/vtt/vtt.gateway.ts:122-140 | exactly this user leaves the room; map presence is untouched; the caller is always acknowledged |
| VttGateway.LeaveRoomWhenAbsent | trpg_server/src/vtt/vtt.gateway.ts:131-137 | leaving a room one is not in changes nothing |
| VttGateway.HandleJoinMap | trpg_server/src/vtt/vtt.gateway.ts:145-209 | the user is added to the map exactly when the lookup succeeds and the user is present in the map's room; otherwise nothing changes and one error is sent (the lookup's, or "enter the room first"); a failing snapshot fetch still leaves the user registered and sends one error; otherwise the caller gets the map with `backgroundUrl` set to its image, the tokens and the assets |
| VttGateway.HandleLeaveMap | trpg_server/src/vtt/vtt.gateway.ts:234-253 | exactly this user leaves the map; room presence is untouched; the caller is always acknowledged |
| VttGateway.LeaveMapWhenAbsent | trpg_server/src/vtt/vtt.gateway.ts:243-249 | leaving a map one is not on changes nothing |
| VttGateway.JoinMapThenLeaveMap | trpg_server/src/vtt/vtt.gateway.ts:170-173 | joining a map one was not on and leaving it again restores the presence, whatever the join's outcome |
| VttGateway.JoinRoomKeepsBacking | trpg_server/src/vtt/vtt.gateway.ts:104-107 | joining a room preserves "every map presence is backed by presence in the map's room" |
| VttGateway.JoinMapKeepsBacking | trpg_server/src/vtt/vtt.gateway.ts:158-173 | joining a map preserves the backing invariant, given that the lookup reports the map's real room |
| VttGateway.LeaveMapKeepsBacking | trpg_server/src/vtt/vtt.gateway.ts:243-249 | leaving a map preserves the backing invariant |
| VttGateway.DisconnectKeepsBacking | trpg_server/src/vtt/vtt.gateway.ts:69-86 | a disconnect preserves the backing invariant |
| VttGateway.LeaveRoomBreaksBacking | trpg_server/src/vtt/vtt.gateway.ts:131-137 | a user on map "m" of room "r" who leaves "r" is still on "m": leaving a room can break the backing invariant |
| VttGateway.HandleMoveToken | trpg_server/src/vtt/vtt.gateway.ts:255-285 | the move is delegated exactly when the token check succeeds and the user is present on the token's map; a found token whose map the user is not on gives `NotInRoom` and no move; presence never changes; every failure is one error |
| VttGateway.ParseAssetUpdate | trpg_server/src/vtt/vtt.gateway.ts:295-306 | accepts exactly a truthy payload with a string `assetId` and numeric x, y, width and height, and returns those values; rejects with "invalid asset id" when the payload or id is bad, else "invalid transform" |
| VttGateway.ParseAssetDelete | trpg_server/src/vtt/vtt.gateway.ts:332-335 | accepts exactly a truthy payload with a string `assetId`, and returns it; else "invalid asset id" |
| VttGateway.ParseMapUpdate | trpg_server/src/vtt/vtt.gateway.ts:414-420 | accepts exactly a truthy payload with a string `mapId` and a truthy `updates` whose `typeof` is "object"; "invalid map id" is checked before "invalid updates" |
| VttGateway.NullUpdatesRejected | trpg_server/src/vtt/vtt.gateway.ts:418 | `updates: null` is rejected although `typeof null` is "object", while an array passes |
| VttGateway.HandleUpdateMap | trpg_server/src/vtt/vtt.gateway.ts:405-433 | a well-shaped payload is delegated with its map id and updates; otherwise one error; a failing service call sends its reason, or "Invalid updateMap payload" when the reason is empty; presence never changes |
| VttGateway.Route | trpg_server/src/vtt/vtt.gateway.ts:212-400 | every domain event goes to one group: the room group for map creation and deletion, the map group for everything else; the message each kind carries is stated by `RecordsCarriedUnchanged`, `MapUpdatedFields` and `DeletionsCarryId` |
| VttGateway.MapUpdatedFields | trpg_server/src/vtt/vtt.gateway.ts:217-225 | `mapUpdated` carries every payload field plus `id`, which is the map id unless the payload has its own `id` |
| VttGateway.RecordsCarriedUnchanged | trpg_server/src/vtt/vtt.gateway.ts:212-400 | a token creation or update, an asset creation or update, and a map creation are broadcast with the event's record unchanged |
| VttGateway.DeletionsCarryId | trpg_server/src/vtt/vtt.gateway.ts:366-400 | a deletion message carries only the deleted record's id |
| VttGateway.Dispatch | trpg_server/src/vtt/vtt.gateway.ts:355-400 | each published event, in order, becomes its one routed message |
| VttGateway.HandleUpdateMapAsset | trpg_server/src/vtt/vtt.gateway.ts:289-324 | a bad payload or an unknown asset changes nothing and sends one error; otherwise the asset keeps its id, map and url, takes the new transform, and its map group receives the updated asset; no presence is required |
| VttGateway.HandleDeleteMapAsset | trpg_server/src/vtt/vtt.gateway.ts:326-349 | a bad payload or an unknown asset changes nothing and sends one error; otherwise the asset is deleted and its map group receives the requested id (the intended deletion, see Findings; as written the message has no id) |
| VttGateway.NoMoveAfterLeaveMap | trpg_server/src/vtt/vtt.gateway.ts:272-278 | after leaving a map, a move of a token on that map gets `NotInRoom` and is not delegated |
| VttGateway.NoMoveAfterDisconnect | trpg_server/src/vtt/vtt.gateway.ts:272-278 | after a disconnect, no move is delegated, whatever token it names |
| VttGateway.JoinRoomAloneGivesNoMoves | trpg_server/src/vtt/vtt.gateway.ts:272-278 | joining a room without joining the token's map still gives `NotInRoom` and no move |
| VttGateway.JoinMapEnablesMoves | trpg_server/src/vtt/vtt.gateway.ts:272-281 | once a map join is admitted, a move of one of that map's tokens that passes the token check is delegated |
| VttGateway.UpdateMapIgnoresPresence | trpg_server/src/vtt/vtt.gateway.ts:405-433 | `updateMap` has no presence gate: what it delegates and emits does not depend on the presence |
| VttGateway.UpdateMapAssetIdempotent | trpg_server/src/vtt/vtt.gateway.ts:289-324 | sending the same `updateMapAsset` payload again repeats the same step: same store and same messages |
| VttGateway.DeleteMapAssetTwice | trpg_server/src/vtt/vtt.gateway.ts:326-349 | deleting the same asset a second time gets `NotFound` and changes nothing |
| VttGateway.RoutedNameDecodes | trpg_server/src/vtt/vtt.gateway.ts:212-400 | the event name a routed message is emitted under tells which kind of record changed and whether it was created, updated or deleted |
| VttGateway.KindOfNameInjective | trpg_server/src/vtt/vtt.gateway.ts:212-400 | no two of the nine domain-event names stand for the same kind of record and change |
| VttGateway.EventNamesIdentifyKind | trpg_server/src/vtt/vtt.gateway.ts:212-400 | two routed messages share an event name exactly when their events change the same kind of record in the same way |
| ChatGateway.HandleConnection | trpg_server/src/chat/chat.gateway.ts:48-75 | a connection is dropped exactly when no user was attached, and is then sent one "authentication data missing" error |
| ChatGateway.AdmittedConnectionAccepted | trpg_server/src/chat/chat.gateway.ts:51-57 | a connection the authenticator admitted is accepted silently |
| ChatGateway.DroppedConnectionLeavesNoTrace | trpg_server/src/chat/chat.gateway.ts:77-88 | a connection dropped for missing user data is dropped, and its disconnect leaves the registry unchanged |
| ChatGateway.HandleDisconnect | trpg_server/src/chat/chat.gateway.ts:77-88 | a disconnect removes the user from every room, keeps every other membership, and leaves no empty entry; without a user the handler fails before touching the registry |
| ChatGateway.DisconnectAgreesWithTable | trpg_server/src/chat/chat.gateway.ts:82-87 | on a registry without empty entries the chat disconnect equals the table gateway's |
| ChatGateway.HandleJoinRoom | trpg_server/src/chat/chat.gateway.ts:90-117 | a passing access check adds exactly this user to the room and acknowledges; a failing one changes nothing and sends "Cannot join room: " plus the reason |
| ChatGateway.HandleLeaveRoom | trpg_server/src/chat/chat.gateway.ts:119-139 | exactly this user leaves the room; the caller is always acknowledged |
| ChatGateway.JoinThenLeave | trpg_server/src/chat/chat.gateway.ts:128-134 | joining a room one was not in and leaving it again restores the registry |
| ChatGateway.HandleSendMessage | trpg_server/src/chat/chat.gateway.ts:141-172 | the save is attempted exactly when the access check passes and the user is present in the room; a user who is absent gets `InvalidParticipant` and no save is attempted; a failed save sends its reason to the caller; a successful save broadcasts the first saved message (or nothing) to that room; presence never changes |
| ChatGateway.NoMessagesAfterDisconnect | trpg_server/src/chat/chat.gateway.ts:154-159 | after a disconnect the user's messages are refused in every room |
| ChatGateway.JoinEnablesMessages | trpg_server/src/chat/chat.gateway.ts:104-107 | after a successful join, a message that passes the access check reaches the save attempt |

## Left out

- Socket.IO transport. `client.join` / `client.leave` and the delivery of a group message to its members are not modelled. An emission names its addressee (the caller, or a group name) and nothing more.
- Sockets. The registries hold user ids, as in the code. The model has no notion of connections, so a user with two connections loses every presence when either disconnects. This matches the code.
- Interleaving of concurrent handlers. Every handler is one atomic step over the results it awaits. The race between a join and a dispatch is therefore not modelled.
- The table gateway's `handleConnection`. It only logs.
- Logging. Every `console` call is left out.
- The collaborators whose code is not part of this model. They are passed in as their results:
  - the table service (`validateParticipantAccess`, `getVttMapForUser`, `getTokensByMap`, `validateTokenMoveAccess`, `moveToken`, `updateMap`);
  - the chat service;
  - the token validator;
  - the auth service's token resolution;
  - the database's id generation.
- VttGateway.HandleDeleteMapAsset: it is built on the corrected deletion, so it promises the requested id to the map group. As written the service reads the id after TypeORM has cleared it, and `map_asset_deleted` goes out without one (see Findings).
- TokenService.UpdateToken: a missing token is reported as `NotFound`. The validator's `validateMoveOrDeleteAccess` is not part of this model, so only the failure itself is certain; its error kind is an assumption.
- TokenService.DeleteToken: a missing token is reported as `NotFound`, for the same reason as `TokenService.UpdateToken`.
- Malformed ids. Token and asset ids are Postgres `uuid` columns, so a lookup with a string that is not a uuid throws a query error instead of finding nothing. Ids are taken to be well-formed, and an unknown id is `NotFound`.
- Failing database writes. The repository's `save` and `remove` are taken to succeed.
- TokenService.ApplyUpdate: an explicit `null` for name, x, y, width, height or scale is not modelled. The merge would write it through, but those columns are not nullable, so the save would fail, and failing saves are left out. Only the nullable image takes `null`, and clears it.
- The error texts `TOKEN_ERROR_MESSAGES[NOT_IN_ROOM]`, `CHAT_ERRORS.INVALID_PARTICIPANT` and the "enter the room first" text of `joinMap`. They are the error kinds `NotInRoom`, `InvalidParticipant` and `EnterRoomFirst`. The constants files are not part of this model.
- The shape-check messages ("Invalid assetId", "Invalid asset transform data", "Invalid mapId", "Invalid updates") and the map-asset not-found message. They are the error kinds `InvalidAssetId`, `InvalidTransform`, `InvalidMapId`, `InvalidUpdates` and `NotFound(id)`.
- The "update failed" and "delete failed" fallbacks of the map-asset handlers. They apply only to an empty thrown message, and the only error the modelled service throws is `NotFound`.
- Floating-point coordinates, sizes and scales. They are integers. NaN and infinities are left out.
- Timestamps (`created_at`, `updated_at`) and the soft-delete column. A soft-deleted token is simply absent from the live store, because no modelled query sees it.
- Map fields beyond id, room, name, image and size (`gridType`, `gridSize`, `showGrid`, `imageScale`, `imageX`, `imageY`). `joinMap` copies them through unchanged, and the model carries only the fields it reads.
- The token create payload. Its class is not part of this model. Its fields are the ones `createToken` reads.
- Non-string handshake values. A query token sent as an array, or an auth token that is not a string, is not modelled: each source is an optional string.
- `getTokensByMapForUser`. It is line-for-line the same as `getTokensByMap` and is covered by `TokenService.GetTokensByMap`.
- Room, map and character-sheet entities, the controllers, S3 and the application bootstrap. They are context only.
- TokenService.GetTokensByMap: the order of the list is not stated, because the query has no ordering.
- MapAssetService.FindAllByMapId: the order of the list is not stated, because the query has no ordering.

## Findings

| source | as written | input that shows it | evidently intended | confidence | as-written member | corrected member |
|---|---|---|---|---|---|---|
| trpg_server/src/map-asset/map-asset.service.ts:116-125 | `remove` reads `asset.id` after `mapAssetRepository.remove(asset)`. TypeORM clears the primary key of the entity instance it removes, so `MapAssetDeletedEvent` carries `id: undefined`, and clients receive `map_asset_deleted` as `{}` (vtt.gateway.ts:397-399). The returned asset has no id either. | deleting any stored asset, say "a" of map "m" | the event names the deleted asset, `MapAssetDeleted("a", "m")`, using the `id` argument | medium; not executed, rests on TypeORM's documented `remove` behaviour | MapAssetService.RemoveAsWritten, MapAssetService.RemoveAsWrittenLosesId | MapAssetService.Remove, VttGateway.HandleDeleteMapAsset |
