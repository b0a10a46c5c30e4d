/**
 * The persisted records the real-time layer carries: tokens, map assets
 * and maps, as the TypeORM entities declare them, plus the error
 * taxonomy the gateways report. Float columns are integers here;
 * timestamps and relations are not modelled.
 */
module Entities {

  import opened Wrappers

  type UserId = int
  type RoomId = string
  type MapId = string
  type TokenId = string
  type AssetId = string

  /** A token placed on a map (`Token` entity). */
  datatype Token = Token(
    id: TokenId,
    mapId: MapId,
    name: string,
    x: int,
    y: int,
    width: int,
    height: int,
    scale: int,
    imageUrl: Option<string>,
    characterSheetId: Option<int>,
    npcId: Option<int>)

  /** What the token service hands out for a token (`TokenResponseDto`). */
  datatype TokenResponse = TokenResponse(
    id: TokenId,
    mapId: MapId,
    name: string,
    x: int,
    y: int,
    width: int,
    height: int,
    scale: int,
    imageUrl: Option<string>,
    characterSheetId: Option<int>,
    npcId: Option<int>)

  /** An image placed on a map (`MapAsset` entity). */
  datatype MapAsset = MapAsset(
    id: AssetId,
    mapId: MapId,
    url: string,
    x: int,
    y: int,
    width: int,
    height: int)

  /** A map of a room (`VttMap` entity), the fields the gateway reads or forwards. */
  datatype VttMap = VttMap(
    id: MapId,
    roomId: RoomId,
    name: Option<string>,
    imageUrl: Option<string>,
    width: int,
    height: int)

  /** Why a command or service call failed. */
  datatype Fault =
    | Rejected(cause: string)   // a collaborator threw; its message is forwarded
    | EnterRoomFirst            // map join without presence in the map's room
    | NotInRoom                 // token move without presence on the token's map
    | InvalidAssetId
    | InvalidTransform
    | InvalidMapId
    | InvalidUpdates
    | NotFound(id: string)
    | InvalidParticipant        // chat message from a user not present in the room
    | AuthDataMissing           // connection reached the chat gateway without `data.user`

  /** A validated identity attached to a connection (`jwtValidatedOutputDto`). */
  datatype Identity = Identity(id: UserId, email: string)
}
