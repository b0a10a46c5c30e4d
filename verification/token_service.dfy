/**
 * The token service: create, update, list and (soft-)delete tokens on a
 * map. Permission checks belong to the token validator and arrive here as
 * their outcomes; every committed write publishes exactly one event.
 */
module TokenService {

  import opened Wrappers
  import opened Entities
  import opened DomainEvents
  import Stores

  /**
   * The live tokens by id. A soft-deleted row is invisible to every query
   * the service makes, so deleting removes it from this map.
   */
  type TokenStore = map<TokenId, Token>

  const DefaultTokenSize: int := 50
  const DefaultTokenScale: int := 1

  datatype CreateTokenDto = CreateTokenDto(
    name: string, x: int, y: int,
    width: Option<int>, height: Option<int>, scale: Option<int>,
    imageUrl: Option<string>, characterSheetId: Option<int>, npcId: Option<int>)

  /**
   * A nullable field of an update payload: left out (`undefined`), sent as
   * `null`, or sent with a value.
   */
  datatype Patch<+T> = Keep | Clear | Set(value: T)

  /**
   * Every field of the create payload, each optional. The image may also
   * be sent as `null`, which clears it, since the merge tests only for
   * `undefined`.
   */
  datatype UpdateTokenDto = UpdateTokenDto(
    name: Option<string>, x: Option<int>, y: Option<int>,
    width: Option<int>, height: Option<int>, scale: Option<int>,
    imageUrl: Patch<string>, characterSheetId: Option<int>, npcId: Option<int>)

  /** A token's primary key, under which the repository files it. */
  function TokenKey(t: Token): TokenId {
    t.id
  }

  /** The response shape of a token: a copy of every field, width and height included. */
  function ToResponseDto(t: Token): (r: TokenResponse)
    ensures r.id == t.id && r.mapId == t.mapId && r.name == t.name
    ensures r.x == t.x && r.y == t.y && r.width == t.width && r.height == t.height
    ensures r.scale == t.scale && r.imageUrl == t.imageUrl
    ensures r.characterSheetId == t.characterSheetId && r.npcId == t.npcId
  {
    TokenResponse(t.id, t.mapId, t.name, t.x, t.y, t.width, t.height, t.scale,
                  t.imageUrl, t.characterSheetId, t.npcId)
  }

  /** Nothing is lost in the projection: distinct tokens give distinct responses. */
  lemma ToResponseDtoInjective(a: Token, b: Token)
    ensures ToResponseDto(a) == ToResponseDto(b) ==> a == b
  {
  }

  /**
   * Create a token on `mapId`: the ownership check and then the access
   * check must pass; the record takes the map from the argument, defaults
   * width and height to 50 and scale to 1, and is saved under the id the
   * database generates. `TokenCreated` carries the response.
   */
  function CreateToken(s: TokenStore, mapId: MapId, dto: CreateTokenDto,
                       ownership: Outcome<string>, access: Outcome<string>, newId: TokenId)
    : (step: ServiceStep<TokenStore, TokenResponse>)
    requires newId !in s
    ensures PublishesOnce(s, step)
    ensures step.result.Success? <==> ownership.Pass? && access.Pass?
    ensures ownership.Fail? ==> step.result == Failure(Rejected(ownership.error))
    ensures ownership.Pass? && access.Fail? ==> step.result == Failure(Rejected(access.error))
    ensures step.result.Success? ==> newId in step.store
    ensures step.result.Success? ==>
      var t := step.store[newId];
      && step.store == s[newId := t]
      && t.id == newId && t.mapId == mapId
      && t.name == dto.name && t.x == dto.x && t.y == dto.y
      && t.width == (if dto.width.Some? then dto.width.value else DefaultTokenSize)
      && t.height == (if dto.height.Some? then dto.height.value else DefaultTokenSize)
      && t.scale == (if dto.scale.Some? then dto.scale.value else DefaultTokenScale)
      && t.imageUrl == dto.imageUrl
      && t.characterSheetId == dto.characterSheetId && t.npcId == dto.npcId
      && step.result.value == ToResponseDto(t)
      && step.events == [TokenCreated(mapId, step.result.value)]
    ensures Stores.KeyedBy(s, TokenKey) ==> Stores.KeyedBy(step.store, TokenKey)
  {
    if ownership.Fail? then ServiceStep(s, Failure(Rejected(ownership.error)), [])
    else if access.Fail? then ServiceStep(s, Failure(Rejected(access.error)), [])
    else
      var t := Token(newId, mapId, dto.name, dto.x, dto.y,
                     dto.width.GetOr(DefaultTokenSize), dto.height.GetOr(DefaultTokenSize),
                     dto.scale.GetOr(DefaultTokenScale),
                     dto.imageUrl, dto.characterSheetId, dto.npcId);
      var response := ToResponseDto(t);
      ServiceStep(s[newId := t], Success(response), [TokenCreated(mapId, response)])
  }

  /**
   * The selective merge of an update: name, x, y, width, height, scale and
   * imageUrl are overwritten when the payload carries them (a `null` image
   * clears it); id, map, character sheet and NPC links are never touched,
   * even when the payload carries them.
   */
  function ApplyUpdate(t: Token, dto: UpdateTokenDto): (r: Token)
    ensures r.id == t.id && r.mapId == t.mapId
    ensures r.characterSheetId == t.characterSheetId && r.npcId == t.npcId
    ensures r.name == (if dto.name.Some? then dto.name.value else t.name)
    ensures r.x == (if dto.x.Some? then dto.x.value else t.x)
    ensures r.y == (if dto.y.Some? then dto.y.value else t.y)
    ensures r.width == (if dto.width.Some? then dto.width.value else t.width)
    ensures r.height == (if dto.height.Some? then dto.height.value else t.height)
    ensures r.scale == (if dto.scale.Some? then dto.scale.value else t.scale)
    ensures dto.imageUrl.Keep? ==> r.imageUrl == t.imageUrl
    ensures dto.imageUrl.Clear? ==> r.imageUrl == None
    ensures dto.imageUrl.Set? ==> r.imageUrl == Some(dto.imageUrl.value)
  {
    t.(name := dto.name.GetOr(t.name),
       x := dto.x.GetOr(t.x),
       y := dto.y.GetOr(t.y),
       width := dto.width.GetOr(t.width),
       height := dto.height.GetOr(t.height),
       scale := dto.scale.GetOr(t.scale),
       imageUrl := match dto.imageUrl
         case Keep => t.imageUrl
         case Clear => None
         case Set(url) => Some(url))
  }

  /** Applying the same update twice is applying it once. */
  lemma ApplyUpdateIdempotent(t: Token, dto: UpdateTokenDto)
    ensures ApplyUpdate(ApplyUpdate(t, dto), dto) == ApplyUpdate(t, dto)
  {
  }

  /** An update carrying only link fields changes nothing. */
  lemma LinkOnlyUpdateIsIdentity(t: Token, sheet: Option<int>, npc: Option<int>)
    ensures ApplyUpdate(t, UpdateTokenDto(None, None, None, None, None, None, Keep, sheet, npc)) == t
  {
  }

  /**
   * Update a token: the validator must find it and allow the caller; the
   * merged record is saved over the old one and `TokenUpdated` carries the
   * token's map and the response.
   */
  function UpdateToken(s: TokenStore, tokenId: TokenId, dto: UpdateTokenDto, access: Outcome<string>)
    : (step: ServiceStep<TokenStore, TokenResponse>)
    ensures PublishesOnce(s, step)
    ensures step.result.Success? <==> tokenId in s && access.Pass?
    ensures tokenId !in s ==> step.result == Failure(NotFound(tokenId))
    ensures step.result.Success? ==>
      var t := ApplyUpdate(s[tokenId], dto);
      && step.store == s[tokenId := t]
      && step.result.value == ToResponseDto(t)
      && step.events == [TokenUpdated(s[tokenId].mapId, step.result.value)]
    ensures Stores.KeyedBy(s, TokenKey) ==> Stores.KeyedBy(step.store, TokenKey)
  {
    if tokenId !in s then ServiceStep(s, Failure(NotFound(tokenId)), [])
    else if access.Fail? then ServiceStep(s, Failure(Rejected(access.error)), [])
    else
      var t := ApplyUpdate(s[tokenId], dto);
      var response := ToResponseDto(t);
      ServiceStep(s[tokenId := t], Success(response), [TokenUpdated(t.mapId, response)])
  }

  /**
   * Delete a token: the validator must find it and allow the caller; the
   * row is soft-removed and `TokenDeleted` carries its map and id.
   */
  function DeleteToken(s: TokenStore, tokenId: TokenId, access: Outcome<string>)
    : (step: ServiceStep<TokenStore, ()>)
    ensures PublishesOnce(s, step)
    ensures step.result.Success? <==> tokenId in s && access.Pass?
    ensures tokenId !in s ==> step.result == Failure(NotFound(tokenId))
    ensures step.result.Success? ==>
      && step.store == s - {tokenId}
      && step.events == [TokenDeleted(s[tokenId].mapId, tokenId)]
    ensures Stores.KeyedBy(s, TokenKey) ==> Stores.KeyedBy(step.store, TokenKey)
  {
    if tokenId !in s then ServiceStep(s, Failure(NotFound(tokenId)), [])
    else if access.Fail? then ServiceStep(s, Failure(Rejected(access.error)), [])
    else ServiceStep(s - {tokenId}, Success(()), [TokenDeleted(s[tokenId].mapId, tokenId)])
  }

  /**
   * The tokens of one map, as responses, after the map-access check; each
   * stored token of the map appears exactly once.
   */
  method GetTokensByMap(s: TokenStore, mapId: MapId, access: Outcome<string>)
    returns (r: Result<seq<TokenResponse>, Fault>)
    ensures r.Failure? <==> access.Fail?
    ensures access.Fail? ==> r.error == Rejected(access.error)
    ensures r.Success? ==> forall t :: t in r.value ==> t.mapId == mapId
    ensures r.Success? ==> forall t :: t in r.value ==> exists id :: id in s && t == ToResponseDto(s[id])
    ensures r.Success? ==> forall id :: id in s && s[id].mapId == mapId ==> ToResponseDto(s[id]) in r.value
    ensures r.Success? && Stores.KeyedBy(s, TokenKey) ==>
      forall i, j :: 0 <= i < j < |r.value| ==> r.value[i] != r.value[j]
  {
    if access.Fail? {
      return Failure(Rejected(access.error));
    }
    var ids := Stores.Select(s, (t: Token) => t.mapId == mapId);
    var list := seq(|ids|, i requires 0 <= i < |ids| => ToResponseDto(s[ids[i]]));
    forall id | id in s && s[id].mapId == mapId
      ensures ToResponseDto(s[id]) in list
    {
      var i :| 0 <= i < |ids| && ids[i] == id;
      assert list[i] == ToResponseDto(s[id]);
    }
    forall t | t in list
      ensures t.mapId == mapId && exists id :: id in s && t == ToResponseDto(s[id])
    {
      var i :| 0 <= i < |list| && list[i] == t;
      assert t == ToResponseDto(s[ids[i]]);
    }
    if Stores.KeyedBy(s, TokenKey) {
      forall i, j | 0 <= i < j < |list|
        ensures list[i] != list[j]
      {
        assert list[i].id == ids[i] && list[j].id == ids[j];
      }
    }
    return Success(list);
  }

  /** Deleting a token just created restores the store. */
  lemma CreateThenDelete(s: TokenStore, mapId: MapId, dto: CreateTokenDto, newId: TokenId,
                         access: Outcome<string>)
    requires newId !in s
    requires access.Pass?
    ensures var created := CreateToken(s, mapId, dto, Pass, Pass, newId);
      var deleted := DeleteToken(created.store, newId, access);
      && deleted.store == s
      && deleted.events == [TokenDeleted(mapId, newId)]
  {
    var s' := CreateToken(s, mapId, dto, Pass, Pass, newId).store;
    assert s' - {newId} == s;
  }
}
