/** The API gateway's bearer-token check for gRPC calls
    (`AuthInterceptor` in gateway/authentication.py). The interceptor turns
    the call's metadata pairs into a dictionary, takes the `authorization`
    value, keeps what follows the last `"Bearer "`, and lets the call go on
    only when that token names a user; otherwise it answers with a handler
    that aborts the call as UNAUTHENTICATED. */
module Authentication {
  import opened Strings

  const VALID_TOKEN: string := "valid_token"
  const BEARER: string := "Bearer "
  const AUTHORIZATION: string := "authorization"
  const INVALID_TOKEN_MESSAGE: string := "Invalid token"

  /** The user record `get_user_from_token` answers with. */
  datatype UserInfo = UserInfo(id: int, username: string)

  const ADMIN: UserInfo := UserInfo(1, "admin")

  /** gRPC invocation metadata: (key, value) pairs in the order sent. */
  type Metadata = seq<(string, string)>

  datatype CallDetails = CallDetails(rpcMethod: string, invocationMetadata: Metadata)

  datatype StatusCode = Unauthenticated

  /** What `intercept_service` returns: the abort handler built once in the
      constructor, or whatever the continuation gives for these details. */
  datatype Handler =
    | Abortion(code: StatusCode, message: string)
    | Continuation(details: CallDetails)

  /** The handler built in `__init__`; it never changes afterwards. */
  const ABORTION: Handler := Abortion(Unauthenticated, INVALID_TOKEN_MESSAGE)

  /** The stub user lookup: only the fixed token is known. */
  function GetUserFromToken(token: string): (r: Option<UserInfo>)
    ensures r.Some? <==> token == VALID_TOKEN
    ensures r.Some? ==> r.value.id == 1 && r.value.username == "admin"
  {
    if token == VALID_TOKEN then Some(ADMIN) else None
  }

  /** Python's `dict(pairs)`: pairs are stored in order, so a later pair
      overwrites an earlier one with the same key. */
  function ToDict(md: Metadata): (d: map<string, string>)
    ensures d.Keys == set i | 0 <= i < |md| :: md[i].0
    decreases |md|
  {
    if |md| == 0 then map[]
    else
      var init := md[..|md| - 1];
      assert forall i | 0 <= i < |init| :: init[i] == md[i];
      ToDict(init)[md[|md| - 1].0 := md[|md| - 1].1]
  }

  /** `i` is the position of the last pair whose key is `key`. */
  predicate IsLastWithKey(md: Metadata, key: string, i: int) {
    0 <= i < |md| && md[i].0 == key &&
    forall j | i < j < |md| :: md[j].0 != key
  }

  /** Duplicate keys: the dictionary keeps the value of the last pair. */
  lemma {:induction false} LastPairWins(md: Metadata, key: string, i: int)
    requires IsLastWithKey(md, key, i)
    ensures key in ToDict(md) && ToDict(md)[key] == md[i].1
    decreases |md|
  {
    if i < |md| - 1 {
      var init := md[..|md| - 1];
      assert IsLastWithKey(init, key, i);
      LastPairWins(init, key, i);
    }
  }

  /** `metadata['authorization'].split('Bearer ')[-1]`: the text after the
      last `"Bearer "`, or the whole value when there is none. */
  function ExtractToken(header: string): (token: string)
    ensures !Contains(token, BEARER)
    ensures !Contains(header, BEARER) ==> token == header
    ensures Contains(header, BEARER) ==> EndsWith(header, BEARER + token)
  {
    LastPieceHasNoSeparator(header, BEARER);
    LastPiece(header, BEARER)
  }

  /** `intercept_service`: abort unless the last `authorization` pair
      carries the valid token after its last `"Bearer "`. */
  function InterceptService(details: CallDetails): (h: Handler)
    ensures h == ABORTION || h == Continuation(details)
    ensures h.Continuation? ==> AUTHORIZATION in ToDict(details.invocationMetadata)
  {
    var metadata := ToDict(details.invocationMetadata);
    if AUTHORIZATION !in metadata then ABORTION
    else
      var token := ExtractToken(metadata[AUTHORIZATION]);
      var user := GetUserFromToken(token);
      if user.None? then ABORTION
      else Continuation(details)
  }

  /** A call without an `authorization` pair is aborted before any token
      is looked at. */
  lemma NoHeaderAborts(details: CallDetails)
    requires forall i | 0 <= i < |details.invocationMetadata| ::
      details.invocationMetadata[i].0 != AUTHORIZATION
    ensures InterceptService(details) == ABORTION
  {
  }

  /** The call goes on exactly when the last `authorization` pair yields
      the valid token; every other outcome is the abort handler. */
  lemma AcceptedIffLastHeaderValid(details: CallDetails, i: int)
    requires IsLastWithKey(details.invocationMetadata, AUTHORIZATION, i)
    ensures InterceptService(details) ==
      (if ExtractToken(details.invocationMetadata[i].1) == VALID_TOKEN
       then Continuation(details) else ABORTION)
  {
    LastPairWins(details.invocationMetadata, AUTHORIZATION, i);
  }

  /** The metadata the gateway's service clients send: one
      `authorization` pair carrying `"Bearer " + token`, or none at all
      when the token is empty (falsy). */
  function ClientMetadata(token: string): (md: Metadata)
    ensures md == [] <==> token == ""
    ensures |md| <= 1
    ensures forall i | 0 <= i < |md| :: md[i] == (AUTHORIZATION, BEARER + token)
  {
    if token == "" then [] else [(AUTHORIZATION, BEARER + token)]
  }

  /** The header a client builds hands back exactly its token, as long as
      the token does not itself hold `"Bearer "`. */
  lemma ClientHeaderRoundTrip(token: string)
    requires !Contains(token, BEARER)
    ensures ExtractToken(BEARER + token) == token
    ensures forall i | 0 <= i < |ClientMetadata(token)| ::
      ExtractToken(ClientMetadata(token)[i].1) == token
  {
    LastPieceAfterLeadingSeparator(BEARER, token);
  }

  /** A call carrying the client-built metadata goes on iff its token is
      the valid one; without a token no header is sent and the call is
      aborted. */
  lemma ClientCallAccepted(rpcMethod: string, token: string)
    requires !Contains(token, BEARER)
    ensures var details := CallDetails(rpcMethod, ClientMetadata(token));
      InterceptService(details) ==
        (if token == VALID_TOKEN then Continuation(details) else ABORTION)
  {
    var details := CallDetails(rpcMethod, ClientMetadata(token));
    if token == "" {
      NoHeaderAborts(details);
    } else {
      ClientHeaderRoundTrip(token);
      assert IsLastWithKey(details.invocationMetadata, AUTHORIZATION, 0);
      AcceptedIffLastHeaderValid(details, 0);
    }
  }

  /** The valid token sent bare, without any scheme, is accepted. */
  lemma BareTokenAccepted(rpcMethod: string)
    ensures var details := CallDetails(rpcMethod, [(AUTHORIZATION, VALID_TOKEN)]);
      InterceptService(details) == Continuation(details)
  {
    MissingCharNoContains(VALID_TOKEN, BEARER, 'B');
    var details := CallDetails(rpcMethod, [(AUTHORIZATION, VALID_TOKEN)]);
    assert IsLastWithKey(details.invocationMetadata, AUTHORIZATION, 0);
    AcceptedIffLastHeaderValid(details, 0);
  }

  /** The valid token under another scheme is kept whole, so it is refused. */
  lemma BasicSchemeRejected(rpcMethod: string)
    ensures InterceptService(
      CallDetails(rpcMethod, [(AUTHORIZATION, "Basic " + VALID_TOKEN)])) == ABORTION
  {
    var header := "Basic " + VALID_TOKEN;
    MissingCharNoContains(header, BEARER, 'r');
    var details := CallDetails(rpcMethod, [(AUTHORIZATION, header)]);
    assert IsLastWithKey(details.invocationMetadata, AUTHORIZATION, 0);
    AcceptedIffLastHeaderValid(details, 0);
  }
}
