/**
 * The connection authenticator run by both gateways before any handler:
 * find a token in the handshake, resolve it to an identity, and either
 * attach the identity to the connection or refuse the connection.
 */
module WsAuth {

  import opened Wrappers
  import opened Entities
  import Text

  /** The three places a handshake may carry the token. */
  datatype Handshake = Handshake(
    authToken: Option<string>,       // handshake.auth.token
    queryToken: Option<string>,      // handshake.query.token
    authorization: Option<string>)   // handshake.headers.authorization

  /** What the identity resolver may throw: an `Error` object, or any other value. */
  datatype Thrown = ErrorObject(message: string) | NonError

  /** The middleware's verdict: `next()` with `data.user` set, or `next(err)`. */
  datatype AuthResult = Admitted(user: Identity) | Refused(message: string)

  const NoTokenMessage: string := "No token provided"
  const AuthFailedMessage: string := "Authentication failed"

  /** A string source is truthy when present and non-empty. */
  predicate Truthy(s: Option<string>) {
    s.Some? && s.value != ""
  }

  /** `header.split(' ')[1]`: the second space-separated piece, if any. */
  function HeaderToken(header: string): (r: Option<string>)
    ensures r.Some? <==> ' ' in header
    ensures r.Some? ==> ' ' !in r.value
  {
    var parts := Text.Split(header, ' ');
    if |parts| >= 2 then Some(parts[1]) else None
  }

  /** The first truthy source in the given order, if any. */
  function FirstTruthy(sources: seq<Option<string>>): (r: Option<string>)
    ensures r.Some? ==> r.value != "" && r in sources
    ensures r.Some? ==>
      exists i :: 0 <= i < |sources| && sources[i] == r && forall j :: 0 <= j < i ==> !Truthy(sources[j])
    ensures r.None? ==> forall i :: 0 <= i < |sources| ==> !Truthy(sources[i])
  {
    if |sources| == 0 then None
    else if Truthy(sources[0]) then sources[0]
    else
      var r := FirstTruthy(sources[1..]);
      if r.Some? then
        var i :| 0 <= i < |sources| - 1 && sources[1..][i] == r
                 && forall j :: 0 <= j < i ==> !Truthy(sources[1..][j]);
        assert sources[i + 1] == r;
        assert forall j :: 0 <= j < i + 1 ==> !Truthy(sources[j]) by {
          forall j | 0 <= j < i + 1 ensures !Truthy(sources[j]) {
            if j > 0 { assert sources[j] == sources[1..][j - 1]; }
          }
        }
        r
      else
        r
  }

  /**
   * The token lookup: the auth payload field, else the query field, else
   * — when the header is non-empty — the header's second piece; a source
   * that is absent or empty passes to the next.
   */
  function ExtractToken(h: Handshake): (t: Option<string>)
    ensures t.Some? ==> t.value != ""
    ensures Truthy(h.authToken) ==> t == h.authToken
    ensures !Truthy(h.authToken) && Truthy(h.queryToken) ==> t == h.queryToken
  {
    var token := h.authToken;
    var token := if !Truthy(token) then h.queryToken else token;
    var token :=
      if !Truthy(token) && Truthy(h.authorization) then HeaderToken(h.authorization.value) else token;
    if Truthy(token) then token else None
  }

  /** The header as a token source: its second piece when the header is non-empty. */
  function HeaderSource(authorization: Option<string>): Option<string> {
    if Truthy(authorization) then HeaderToken(authorization.value) else None
  }

  /** The lookup takes the first truthy source in the order auth, query, header. */
  lemma ExtractTokenIsFirstTruthy(h: Handshake)
    ensures ExtractToken(h) == FirstTruthy([h.authToken, h.queryToken, HeaderSource(h.authorization)])
  {
    var header := HeaderSource(h.authorization);
    assert FirstTruthy([header]) == (if Truthy(header) then header else None) by {
      assert [header][1..] == [];
    }
    assert FirstTruthy([h.queryToken, header])
        == (if Truthy(h.queryToken) then h.queryToken else FirstTruthy([header])) by {
      assert [h.queryToken, header][1..] == [header];
    }
    assert [h.authToken, h.queryToken, header][1..] == [h.queryToken, header];
  }

  /** A header without a space carries no token. */
  lemma HeaderWithoutSpace(header: string)
    requires ' ' !in header
    ensures HeaderToken(header) == None
  {
  }

  /**
   * `header` is a first word, one space, `token`, and then either nothing
   * or more text starting with a space; neither the word nor the token
   * contains a space.
   */
  predicate HeaderLayout(header: string, scheme: string, token: string, rest: string) {
    && ' ' !in scheme && ' ' !in token
    && (rest == [] || rest[0] == ' ')
    && header == scheme + [' '] + token + rest
  }

  /**
   * The header's token is the piece after the first space up to the next
   * one, whatever the first word is (not only `Bearer`).
   */
  lemma HeaderSecondPiece(header: string, scheme: string, token: string, rest: string)
    requires HeaderLayout(header, scheme, token, rest)
    ensures HeaderToken(header) == Some(token)
  {
    var tail := token + rest;
    assert header == scheme + [' '] + tail;
    Text.SplitCons(scheme, ' ', tail);
    Text.SplitFirst(token, ' ', rest);
  }

  /** And conversely, any token the header gives is laid out that way. */
  lemma HeaderTokenShape(header: string, token: string)
    requires HeaderToken(header) == Some(token)
    ensures exists scheme, rest :: HeaderLayout(header, scheme, token, rest)
  {
    var parts := Text.Split(header, ' ');
    Text.JoinSplit(header, ' ');
    var rest := Text.JoinShape(parts, ' ');
    assert HeaderLayout(header, parts[0], token, rest);
  }

  /**
   * The middleware: no token refuses with "No token provided" before the
   * resolver is consulted; otherwise the resolver's identity is attached,
   * and anything it throws refuses the connection, with a thrown non-Error
   * replaced by "Authentication failed".
   */
  function Authenticate(h: Handshake, resolve: string -> Result<Identity, Thrown>): (r: AuthResult)
    ensures r.Admitted? <==> ExtractToken(h).Some? && resolve(ExtractToken(h).value).Success?
    ensures r.Admitted? ==> r.user == resolve(ExtractToken(h).value).value
    ensures ExtractToken(h).None? ==> r == Refused(NoTokenMessage)
    ensures ExtractToken(h).Some? && resolve(ExtractToken(h).value) == Failure(NonError) ==>
      r == Refused(AuthFailedMessage)
    ensures forall m :: ExtractToken(h).Some? && resolve(ExtractToken(h).value) == Failure(ErrorObject(m)) ==>
      r == Refused(m)
  {
    match ExtractToken(h)
    case None => Refused(NoTokenMessage)
    case Some(token) =>
      match resolve(token)
      case Success(payload) => Admitted(payload)
      case Failure(ErrorObject(m)) => Refused(m)
      case Failure(NonError) => Refused(AuthFailedMessage)
  }

  /** Without a token the verdict does not depend on the resolver at all. */
  lemma NoTokenNeverResolves(h: Handshake, r1: string -> Result<Identity, Thrown>,
                             r2: string -> Result<Identity, Thrown>)
    requires !Truthy(h.authToken) && !Truthy(h.queryToken) && !Truthy(HeaderSource(h.authorization))
    ensures Authenticate(h, r1) == Authenticate(h, r2) == Refused(NoTokenMessage)
  {
  }

  /**
   * A token carried only in the header authenticates exactly as the same
   * token carried in the auth payload.
   */
  lemma HeaderOnlyMatchesAuthField(token: string, resolve: string -> Result<Identity, Thrown>)
    requires token != "" && ' ' !in token
    ensures Authenticate(Handshake(None, None, Some("Bearer " + token)), resolve)
         == Authenticate(Handshake(Some(token), None, None), resolve)
  {
    assert HeaderLayout("Bearer " + token, "Bearer", token, "");
    HeaderSecondPiece("Bearer " + token, "Bearer", token, "");
  }
}
