/**
 * `Auth::from_request`: the extractor that turns an `Authorization: Bearer
 * <token>` header (section 2.1 of RFC 6750) into the authenticated
 * principal. It runs in two parts. First it checks the request
 * synchronously: the application data must be present, and the header must
 * be present, readable, start with `Bearer ` and carry a base58 token of
 * sixteen bytes. Then it decides against the database and the
 * `Authenticated` cache, in a future.
 */
module AuthExtractor {
  import opened Wrappers
  import opened Text
  import Cache
  import opened Catalog
  import opened AuthSessions

  datatype AuthError =
    | InternalServerError(message: string)
    | BadRequest(message: string)
    | Unauthorized(message: string)
    | DatabaseError       // a `DbErr` passed on by `?`
    | Panicked            // `unwrap` on a token that has no user row

  // Messages, word for word.
  const NoDatabaseMessage: string := "Failed to get database connection"
  const NoAuthenticatedMessage: string := "Failed to get authenticated user"
  const MissingHeaderMessage: string := "Missing authorization header"
  const NotStringMessage: string := "Failed to convert header to string"
  const InvalidHeaderMessage: string := "Invalid authorization header"
  const DecodeMessage: string := "Failed to decode token"
  const UuidMessage: string := "Failed to convert token to uuid"
  const NotFoundMessage: string := "Token not found"
  const ExpiredMessage: string := "Token expired"

  /** The authentication scheme prefix, case-sensitive, with its one space. */
  const BearerPrefix: string := "Bearer "

  /** Entries cached on a miss are scheduled for removal after five minutes. */
  const CacheLifetime: nat := 60 * 5

  /** What the extractor reads from the request. */
  datatype Request = Request(hasDatabase: bool, hasAuthenticated: bool, authorization: Option<Cache.Bytes>)

  /** A byte `HeaderValue::to_str` accepts: visible ASCII or tab. */
  predicate IsVisibleByte(b: Cache.Byte)
  {
    (32 <= b < 127) || b == 9
  }

  /** `HeaderValue::to_str`: the bytes as characters, if every byte is visible ASCII. */
  function HeaderToStr(raw: Cache.Bytes): (r: Option<string>)
    ensures r.Some? <==> forall i :: 0 <= i < |raw| ==> IsVisibleByte(raw[i])
    ensures r.Some? ==> |r.value| == |raw| && forall i :: 0 <= i < |raw| ==> r.value[i] as int == raw[i]
  {
    if forall i :: 0 <= i < |raw| ==> IsVisibleByte(raw[i]) then Some(seq(|raw|, i requires 0 <= i < |raw| => raw[i] as char))
    else None
  }

  /**
   * `header.trim_start_matches("Bearer ")`: the token text, which is the
   * header after some number of leading `Bearer ` prefixes and no longer
   * starts with one.
   */
  function TokenText(header: string): (r: string)
    ensures exists k: nat :: header == Repeat(BearerPrefix, k) + r
    ensures !StartsWith(r, BearerPrefix)
  {
    TrimStartMatches(header, BearerPrefix)
  }

  /**
   * The synchronous checks, in source order. `decode` is `base58::decode`,
   * which is not part of this model; it yields the decoded bytes or fails.
   */
  function TokenId(request: Request, decode: string -> Option<Cache.Bytes>): (r: Result<Uuid, AuthError>)
    ensures r.Ok? <==>
      (request.hasDatabase && request.hasAuthenticated && request.authorization.Some?
       && HeaderToStr(request.authorization.value).Some?
       && StartsWith(HeaderToStr(request.authorization.value).value, BearerPrefix)
       && decode(TokenText(HeaderToStr(request.authorization.value).value)).Some?
       && |decode(TokenText(HeaderToStr(request.authorization.value).value)).value| == 16)
    ensures r.Ok? ==> r.value == decode(TokenText(HeaderToStr(request.authorization.value).value)).value
    ensures r.Err? ==> r.error.InternalServerError? || r.error.BadRequest?
    ensures request.hasDatabase && request.hasAuthenticated && r.Err? ==> r.error.BadRequest?
  {
    if !request.hasDatabase then Err(InternalServerError(NoDatabaseMessage))
    else if !request.hasAuthenticated then Err(InternalServerError(NoAuthenticatedMessage))
    else if request.authorization.None? then Err(BadRequest(MissingHeaderMessage))
    else
      var header := HeaderToStr(request.authorization.value);
      if header.None? then Err(BadRequest(NotStringMessage))
      else if !StartsWith(header.value, BearerPrefix) then Err(BadRequest(InvalidHeaderMessage))
      else
        var bytes := decode(TokenText(header.value));
        if bytes.None? then Err(BadRequest(DecodeMessage))
        else if |bytes.value| != 16 then Err(BadRequest(UuidMessage))
        else Ok(bytes.value)
  }

  /** The token row found by id, with its related user rows (none, or the one owner). */
  datatype TokenRow = TokenRow(id: Uuid, expiredAt: Option<int>, user: Option<User>)

  /** The outcome of `tokens::Entity::find_by_id(id).find_with_related(users::Entity)`. */
  datatype TokenLookup = QueryFailed | NotFound | Found(row: TokenRow)

  /** `expired_at < now()`; a token without an expiry never expires. */
  predicate Expired(row: TokenRow, now: int)
  {
    row.expiredAt.Some? && row.expiredAt.value < now
  }

  /** `user.permissions(db)` and `user.roles(db)`: the rows, or None on a database error. */
  datatype Related = Related(permissions: Option<seq<Entry>>, roles: Option<seq<Entry>>)

  /** The result of the future, and the cache after it. */
  datatype Decision = Decision(result: Result<Auth, AuthError>, users: map<Uuid, Auth>, scheduled: seq<Removal>)

  /**
   * The asynchronous part, as a function of the cache before it: the cache
   * is consulted first, the database always.
   */
  function Decide(users: map<Uuid, Auth>, scheduled: seq<Removal>, id: Uuid, lookup: TokenLookup, now: int, related: Related)
    : (d: Decision)
    ensures lookup.QueryFailed? ==> d == Decision(Err(DatabaseError), users, scheduled)
    ensures lookup.NotFound? ==> d == Decision(Err(Unauthorized(NotFoundMessage)), users - {id}, scheduled)
    ensures lookup.Found? && Expired(lookup.row, now) ==>
      d == Decision(Err(Unauthorized(ExpiredMessage)), users - {id}, scheduled)
    ensures lookup.Found? && !Expired(lookup.row, now) && id in users ==>
      d == Decision(Ok(users[id]), users, scheduled)
    ensures lookup.Found? && lookup.row.expiredAt.None? ==> d.result != Err(Unauthorized(ExpiredMessage))
    ensures d.result.Ok? && id !in users ==>
      && d.result.value.id == lookup.row.id
      && d.users == users[id := d.result.value]
      && d.scheduled == scheduled + [Removal(id, CacheLifetime)]
    ensures d.result.Err? ==> d.scheduled == scheduled && (d.users == users || d.users == users - {id})
  {
    var cached := Lookup(users, id);
    match lookup
    case QueryFailed => Decision(Err(DatabaseError), users, scheduled)
    case NotFound =>
      Decision(Err(Unauthorized(NotFoundMessage)), if cached.Some? then users - {id} else users, scheduled)
    case Found(row) =>
      if Expired(row, now) then Decision(Err(Unauthorized(ExpiredMessage)), users - {id}, scheduled)
      else if cached.Some? then Decision(Ok(cached.value), users, scheduled)
      else if row.user.None? then Decision(Err(Panicked), users, scheduled)
      else if related.permissions.None? || related.roles.None? then Decision(Err(DatabaseError), users, scheduled)
      else
        var auth := Auth(row.id, row.user.value, related.permissions.value, related.roles.value);
        Decision(Ok(auth), users[id := auth], scheduled + [Removal(id, CacheLifetime)])
  }

  /**
   * The future itself, against the shared cache. The cache operations of
   * `Authenticated` do not fail, so the source's error arms around them
   * never run.
   */
  method Resolve(cache: Authenticated, id: Uuid, lookup: TokenLookup, now: int, related: Related)
    returns (r: Result<Auth, AuthError>)
    modifies cache
    ensures var d := Decide(old(cache.users), old(cache.scheduled), id, lookup, now, related);
            r == d.result && cache.users == d.users && cache.scheduled == d.scheduled
  {
    var cached := cache.Get(id);
    if lookup.QueryFailed? {
      return Err(DatabaseError);
    }
    if lookup.NotFound? {
      if cached.Some? {
        cache.Remove(id);
      }
      return Err(Unauthorized(NotFoundMessage));
    }
    var row := lookup.row;
    if Expired(row, now) {
      cache.Remove(id);
      return Err(Unauthorized(ExpiredMessage));
    }
    if cached.Some? {
      return Ok(cached.value);
    }
    if row.user.None? {
      return Err(Panicked);
    }
    if related.permissions.None? || related.roles.None? {
      return Err(DatabaseError);
    }
    var auth := Auth(row.id, row.user.value, related.permissions.value, related.roles.value);
    cache.Set(id, auth);
    cache.RemoveDelay(id, CacheLifetime);
    return Ok(auth);
  }

  /**
   * `from_request` as a whole: the synchronous checks, then the future for
   * the id they produced. `lookup` is the database's answer for that id.
   */
  method FromRequest(request: Request, decode: string -> Option<Cache.Bytes>, cache: Authenticated,
                     lookup: TokenLookup, now: int, related: Related)
    returns (r: Result<Auth, AuthError>)
    modifies cache
    ensures TokenId(request, decode).Err? ==>
      r == Err(TokenId(request, decode).error) && cache.users == old(cache.users) && cache.scheduled == old(cache.scheduled)
    ensures TokenId(request, decode).Ok? ==>
      var d := Decide(old(cache.users), old(cache.scheduled), TokenId(request, decode).value, lookup, now, related);
      r == d.result && cache.users == d.users && cache.scheduled == d.scheduled
  {
    var id := TokenId(request, decode);
    if id.Err? {
      return Err(id.error);
    }
    r := Resolve(cache, id.value, lookup, now, related);
  }

  /** An empty header is a bad request: it does not start with the prefix. */
  lemma EmptyHeaderIsBadRequest(request: Request, decode: string -> Option<Cache.Bytes>)
    requires request.hasDatabase && request.hasAuthenticated && request.authorization == Some([])
    ensures TokenId(request, decode) == Err(BadRequest(InvalidHeaderMessage))
  {
    assert HeaderToStr([]) == Some([]);
  }

  /** A header with no `Bearer ` prefix, a lower-case `bearer ` included, is a bad request. */
  lemma NonBearerIsBadRequest(request: Request, decode: string -> Option<Cache.Bytes>)
    requires request.hasDatabase && request.hasAuthenticated && request.authorization.Some?
    requires HeaderToStr(request.authorization.value).Some?
    requires !StartsWith(HeaderToStr(request.authorization.value).value, BearerPrefix)
    ensures TokenId(request, decode) == Err(BadRequest(InvalidHeaderMessage))
  {
  }

  /** `trim_start_matches` strips every leading `Bearer `, so repeating the prefix changes nothing. */
  lemma {:induction false} RepeatedPrefix(token: string)
    ensures TokenText(BearerPrefix + BearerPrefix + token) == TokenText(BearerPrefix + token)
  {
    var once := BearerPrefix + token;
    var twice := BearerPrefix + once;
    assert BearerPrefix + BearerPrefix + token == twice;
    assert twice[..|BearerPrefix|] == BearerPrefix;
    assert twice[|BearerPrefix|..] == once;
  }

  /** The token is the header with the prefix removed, unless it starts with the prefix again. */
  lemma {:induction false} TokenAfterPrefix(token: string)
    requires !StartsWith(token, BearerPrefix)
    ensures TokenText(BearerPrefix + token) == token
  {
    var h := BearerPrefix + token;
    assert h[..|BearerPrefix|] == BearerPrefix;
    assert h[|BearerPrefix|..] == token;
    assert TokenText(token) == token;
  }

  /** Any number of prefixes in front of a token that does not start with one are all removed. */
  lemma {:induction false} PrefixesRemoved(n: nat, token: string)
    requires !StartsWith(token, BearerPrefix)
    ensures TokenText(Repeat(BearerPrefix, n) + token) == token
  {
    if n == 0 {
      assert Repeat(BearerPrefix, 0) + token == token;
    } else {
      var rest := Repeat(BearerPrefix, n - 1) + token;
      var h := Repeat(BearerPrefix, n) + token;
      assert h == BearerPrefix + rest;
      assert h[..|BearerPrefix|] == BearerPrefix;
      assert h[|BearerPrefix|..] == rest;
      PrefixesRemoved(n - 1, token);
    }
  }

  /** The id the principal carries is the token's when the database found the token by that id. */
  lemma MissStoresUnderTokenId(users: map<Uuid, Auth>, scheduled: seq<Removal>, id: Uuid, row: TokenRow, now: int, related: Related)
    requires row.id == id && id !in users && !Expired(row, now)
    requires row.user.Some? && related.permissions.Some? && related.roles.Some?
    ensures var d := Decide(users, scheduled, id, Found(row), now, related);
            && d.result.Ok? && d.result.value.id == id
            && Lookup(d.users, id) == Some(d.result.value)
            && d.result.value.user == row.user.value
  {
  }

  /** A cache hit is returned only after the database confirms the token: a deleted or expired token evicts it. */
  lemma HitNeedsLiveToken(users: map<Uuid, Auth>, scheduled: seq<Removal>, id: Uuid, lookup: TokenLookup, now: int, related: Related)
    requires id in users
    ensures var d := Decide(users, scheduled, id, lookup, now, related);
            d.result == Ok(users[id]) <==> lookup.Found? && !Expired(lookup.row, now)
    ensures var d := Decide(users, scheduled, id, lookup, now, related);
            (lookup.NotFound? || (lookup.Found? && Expired(lookup.row, now))) ==> id !in d.users
  {
  }
}
