/**
 * Bearer-token authentication against the API key table, and the shape of
 * newly generated keys. SHA-256 and the random source are parameters; keys
 * are stored only as the hex SHA-256 of the full key.
 */
module Auth {
  import opened Wrappers
  import opened Models
  import opened Errors
  import opened Digests

  /** A row of `api_keys`, keyed by its integer id. Timestamps are stored in whole seconds. */
  datatype ApiKeyRow = ApiKeyRow(
    keyHash: string,
    keyPrefix: Option<string>,
    name: Option<string>,
    createdAt: int,
    lastUsedAt: Option<int>,
    isActive: bool)

  type KeyTable = map<int, ApiKeyRow>

  type Sha256 = string -> seq<Byte>

  const BearerPrefix := "Bearer "
  const DefaultKeyPrefix := "sk-"

  /** `key_hash` is UNIQUE: no two rows share a hash. */
  predicate UniqueHashes(keys: KeyTable)
  {
    forall a, b :: a in keys && b in keys && keys[a].keyHash == keys[b].keyHash ==> a == b
  }

  /** `hashApiKey`: the lower-case hex SHA-256 of the key, 64 characters for a 32-byte digest. */
  function HashApiKey(key: string, sha256: Sha256): (h: string)
    ensures |h| == 2 * |sha256(key)|
    ensures forall i :: 0 <= i < |h| ==> h[i] in HexDigits
  {
    Hex(sha256(key))
  }

  /** With an injective SHA-256, different keys have different stored hashes. */
  lemma HashApiKeyInjective(sha256: Sha256, a: string, b: string)
    requires forall x, y :: sha256(x) == sha256(y) ==> x == y
    requires HashApiKey(a, sha256) == HashApiKey(b, sha256)
    ensures a == b
  {
    HexInjective(sha256(a), sha256(b));
  }

  /** `authHeader?.startsWith('Bearer ') ? authHeader.substring(7) : null`. */
  function ExtractToken(header: Option<string>): (token: Option<string>)
    ensures token.Some? <==> header.Some? && |header.value| >= |BearerPrefix| && header.value[..|BearerPrefix|] == BearerPrefix
    ensures token.Some? ==> header.value == BearerPrefix + token.value
  {
    if header.Some? && |header.value| >= |BearerPrefix| && header.value[..|BearerPrefix|] == BearerPrefix
    then
      var token := header.value[|BearerPrefix|..];
      assert header.value == header.value[..|BearerPrefix|] + token;
      Some(token)
    else None
  }

  lemma ExtractBearerToken(token: string)
    ensures ExtractToken(Some(BearerPrefix + token)) == Some(token)
  {
    var header := BearerPrefix + token;
    assert header[..|BearerPrefix|] == BearerPrefix;
    assert header[|BearerPrefix|..] == token;
  }

  /** Row `id` is an active key with this hash. */
  predicate Matches(keys: KeyTable, id: int, keyHash: string)
  {
    id in keys && keys[id].keyHash == keyHash && keys[id].isActive
  }

  datatype AuthReply =
    | Authenticated(apiKey: string)
    | Rejected(status: int, body: ErrorBody)

  const MissingToken := Rejected(401, ErrorBody("UNAUTHORIZED", "Missing or invalid Authorization header", None))
  const InvalidApiKey := Rejected(401, ErrorBody("INVALID_API_KEY", "Invalid API key", None))

  /**
   * The middleware's verdict: no (or an empty) bearer token is 401 UNAUTHORIZED;
   * a token whose hash no active row has is 401 INVALID_API_KEY; otherwise the
   * request proceeds carrying the token.
   */
  function Decide(keys: KeyTable, header: Option<string>, sha256: Sha256): (r: AuthReply)
    ensures r == MissingToken <==> OrNull(ExtractToken(header)).None?
    ensures r.Authenticated? <==>
      OrNull(ExtractToken(header)).Some? && exists id | id in keys :: Matches(keys, id, HashApiKey(ExtractToken(header).value, sha256))
    ensures r.Authenticated? ==> header == Some(BearerPrefix + r.apiKey) && r.apiKey != ""
    ensures !r.Authenticated? ==> r == MissingToken || r == InvalidApiKey
  {
    var token := OrNull(ExtractToken(header));
    if token.None? then MissingToken
    else if exists id | id in keys :: Matches(keys, id, HashApiKey(token.value, sha256)) then Authenticated(token.value)
    else InvalidApiKey
  }

  /** The `last_used_at` update of one row, in seconds; every other row and column is kept. */
  function Touch(keys: KeyTable, id: int, nowMs: int): (r: KeyTable)
    requires id in keys
    ensures r.Keys == keys.Keys
    ensures forall k :: k in keys && k != id ==> r[k] == keys[k]
    ensures r[id] == keys[id].(lastUsedAt := Some(nowMs / 1000))
    ensures UniqueHashes(keys) ==> UniqueHashes(r)
  {
    keys[id := keys[id].(lastUsedAt := Some(nowMs / 1000))]
  }

  /** A bearer header with nothing after the prefix is treated as missing. */
  lemma EmptyBearerIsMissing(keys: KeyTable, sha256: Sha256)
    ensures Decide(keys, Some(BearerPrefix), sha256) == MissingToken
  {
    ExtractBearerToken("");
    assert BearerPrefix + "" == BearerPrefix;
  }

  /** A key whose row has been deactivated no longer authenticates. */
  lemma DeactivatedKeyRejected(keys: KeyTable, id: int, token: string, sha256: Sha256)
    requires UniqueHashes(keys) && token != ""
    requires id in keys && keys[id].keyHash == HashApiKey(token, sha256) && !keys[id].isActive
    ensures Decide(keys, Some(BearerPrefix + token), sha256) == InvalidApiKey
  {
    ExtractBearerToken(token);
  }

  /**
   * With an injective SHA-256, a key row is reached by one token only: two
   * authenticated requests that matched the same row carried the same key.
   */
  lemma {:induction false} OneTokenPerKey(keys: KeyTable, id: int, h1: Option<string>, h2: Option<string>, sha256: Sha256)
    requires forall x, y :: sha256(x) == sha256(y) ==> x == y
    requires Decide(keys, h1, sha256).Authenticated? && Decide(keys, h2, sha256).Authenticated?
    requires Matches(keys, id, HashApiKey(Decide(keys, h1, sha256).apiKey, sha256))
    requires Matches(keys, id, HashApiKey(Decide(keys, h2, sha256).apiKey, sha256))
    ensures h1 == h2
  {
    HashApiKeyInjective(sha256, Decide(keys, h1, sha256).apiKey, Decide(keys, h2, sha256).apiKey);
  }

  /** The value `createApiKey` returns. */
  datatype NewApiKey = NewApiKey(key: string, hash: string, prefix: string)

  /**
   * `createApiKey(prefix)`: the prefix followed by the 64 hex digits of 32 random
   * bytes, its stored hash, and its first eight characters for display.
   */
  function CreateApiKey(prefix: string, random: seq<Byte>, sha256: Sha256): (r: NewApiKey)
    requires |random| == 32
    ensures |r.key| == |prefix| + 64 && r.key[..|prefix|] == prefix
    ensures forall i :: |prefix| <= i < |r.key| ==> r.key[i] in HexDigits
    ensures r.hash == HashApiKey(r.key, sha256)
    ensures |r.prefix| == 8 && r.prefix == r.key[..8]
  {
    var key := prefix + Hex(random);
    assert forall i :: |prefix| <= i < |key| ==> key[i] == Hex(random)[i - |prefix|];
    NewApiKey(key, HashApiKey(key, sha256), key[..8])
  }

  /** The default key looks like `sk-` and 64 hex digits, and shows as `sk-` and its first five digits. */
  lemma DefaultKeyShape(random: seq<Byte>, sha256: Sha256)
    requires |random| == 32
    ensures var r := CreateApiKey(DefaultKeyPrefix, random, sha256);
      && |r.key| == 67 && r.key[..3] == "sk-"
      && r.prefix == "sk-" + Hex(random)[..5]
  {
    var r := CreateApiKey(DefaultKeyPrefix, random, sha256);
    assert r.key == DefaultKeyPrefix + Hex(random);
    assert r.key[..8] == r.key[..3] + r.key[3..8];
    assert r.key[3..8] == Hex(random)[..5];
  }

  /** A created key authenticates once a row holding its hash is active. */
  lemma CreatedKeyAuthenticates(prefix: string, random: seq<Byte>, sha256: Sha256, keys: KeyTable, id: int)
    requires |random| == 32
    requires Matches(keys, id, CreateApiKey(prefix, random, sha256).hash)
    ensures var key := CreateApiKey(prefix, random, sha256).key;
      Decide(keys, Some(BearerPrefix + key), sha256) == Authenticated(key)
  {
    var key := CreateApiKey(prefix, random, sha256).key;
    ExtractBearerToken(key);
  }

  class ApiKeyTable {
    var keys: KeyTable

    ghost predicate Valid()
      reads this
    {
      UniqueHashes(keys)
    }

    constructor (keys: KeyTable)
      requires UniqueHashes(keys)
      ensures Valid() && this.keys == keys
    {
      this.keys := keys;
    }

    /**
     * `authenticateToken`: decides the request, and on success stamps
     * `last_used_at` on the matched row and changes nothing else.
     */
    method AuthenticateToken(header: Option<string>, sha256: Sha256, nowMs: int) returns (reply: AuthReply)
      requires Valid()
      modifies this
      ensures Valid()
      ensures reply == Decide(old(keys), header, sha256)
      ensures !reply.Authenticated? ==> keys == old(keys)
      ensures reply.Authenticated? ==>
        exists id | id in old(keys) :: Matches(old(keys), id, HashApiKey(reply.apiKey, sha256)) && keys == Touch(old(keys), id, nowMs)
    {
      var token := ExtractToken(header);
      if token.None? || token.value == "" {
        return MissingToken;
      }
      var keyHash := HashApiKey(token.value, sha256);
      var matching := set id | id in keys && Matches(keys, id, keyHash);
      if matching == {} {
        assert forall id :: id in keys && Matches(keys, id, keyHash) ==> id in matching;
        return InvalidApiKey;
      }
      var id :| id in matching;
      keys := Touch(keys, id, nowMs);
      reply := Authenticated(token.value);
    }
  }
}
