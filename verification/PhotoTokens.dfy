/** Signed photo download tokens (`backend/app/api/photo_tokens.py`): printing,
    parsing, checking, and the one-time store in Redis. */
module PhotoTokens {
  import opened Collections
  import opened Text
  import opened Base64Url

  datatype Uuid = Uuid(text: string)

  type Payload = map<string, Json>

  /** What the module gets from its libraries and settings. `mac` is the hex HMAC
      under the signing secret, `agentHash` the hex SHA-256 of a user agent;
      `parseUuid`, `strOf` and `intOf` are `uuid.UUID`, `str` and `int`, where None
      stands for an exception. */
  datatype Env = Env(
    mac: seq<Byte> -> string,
    agentHash: string -> string,
    dumps: Payload -> seq<Byte>,
    loads: seq<Byte> -> Option<Json>,
    parseUuid: string -> Option<Uuid>,
    strOf: Json -> string,
    intOf: Json -> Option<int>,
    oneTime: bool,
    bindAgent: bool,
    defaultTtl: int)

  /** JSON parsing undoes printing, digests are hexadecimal, and `str` and `int` leave
      strings and integers as they are. */
  ghost predicate Sound(env: Env) {
    && (forall p: Payload :: env.loads(env.dumps(p)) == Some(JDict(p)))
    && (forall raw: seq<Byte> :: Hex(env.mac(raw)))
    && (forall agent: string :: Hex(env.agentHash(agent)))
    && (forall s: string :: env.strOf(JStr(s)) == s)
    && (forall n: int :: env.intOf(JInt(n)) == Some(n))
  }

  /** No two payloads share a signature. */
  ghost predicate MacInjective(env: Env) {
    forall a: seq<Byte>, b: seq<Byte> :: env.mac(a) == env.mac(b) ==> a == b
  }

  predicate Hex(s: string) {
    forall c :: c in s ==> '0' <= c <= '9' || 'a' <= c <= 'f'
  }

  datatype Claims = Claims(
    org: Uuid, orderId: string, photoId: string, exp: int,
    agentHash: Option<Json>, variant: Option<Json>, resource: string)

  /** A value, or the status of the HTTP error that ends the request; 500 stands for
      an exception that the module does not catch. */
  datatype Result<+T> = Ok(value: T) | Err(status: int)

  const UNAUTHORIZED := 401
  const UNCAUGHT := 500

  // ------------------------------------------------------------------- variants

  predicate VariantChar(c: char) {
    'A' <= c <= 'Z' || 'a' <= c <= 'z' || '0' <= c <= '9' || c == '_' || c == '.' || c == '-'
  }

  function NormalizeVariant(value: Option<Json>): Result<Option<string>> {
    match value
    case None => Ok(None)
    case Some(JNull) => Ok(None)
    case Some(JStr(s)) =>
      var candidate := Strip(s);
      if candidate == "" then Ok(None)
      else if forall c :: c in candidate ==> VariantChar(c) then Ok(Some(candidate))
      else Err(400)
    case Some(_) => Err(UNCAUGHT)
  }

  function JsonVariant(variant: Option<string>): Option<Json> {
    match variant
    case None => None
    case Some(s) => Some(JStr(s))
  }

  /** Normalising twice is normalising once. */
  lemma NormalizeTwice(value: Option<Json>)
    requires NormalizeVariant(value).Ok?
    ensures NormalizeVariant(JsonVariant(NormalizeVariant(value).value)) == NormalizeVariant(value)
  {
    if value.Some? && value.value.JStr? {
      StripTrims(value.value.s);
    }
  }

  // ------------------------------------------------------------------ the printer

  function EncodePayload(env: Env, payload: Payload): string {
    var raw := env.dumps(payload);
    Encode(raw) + "." + env.mac(raw)
  }

  /** `int(...)` on a timestamp truncates toward zero. */
  function Truncate(t: real): int {
    if t >= 0.0 then t.Floor else -((-t).Floor)
  }

  predicate KnownResource(resource: string) {
    resource == "order_photo" || resource == "booking_photo"
  }

  /** `None` and 0 seconds both mean the configured lifetime. */
  function Lifetime(env: Env, ttl: Option<int>): int {
    if ttl.Some? && ttl.value != 0 then ttl.value else env.defaultTtl
  }

  function PayloadOf(env: Env, org: Uuid, orderId: string, photoId: string, agent: Option<string>,
                     exp: int, variant: Option<string>, resource: string, jti: string): Payload
  {
    var base: Payload := map[
      "org_id" := JStr(org.text), "order_id" := JStr(orderId), "photo_id" := JStr(photoId),
      "exp" := JInt(exp), "typ" := JStr("photo_download"), "jti" := JStr(jti), "resource" := JStr(resource)];
    var withVariant := if variant.Some? then base["variant" := JStr(variant.value)] else base;
    if env.bindAgent then withVariant["ua" := JStr(AgentHash(env, agent))] else withVariant
  }

  function AgentHash(env: Env, agent: Option<string>): string {
    env.agentHash(if agent.Some? then agent.value else "")
  }

  function BuildToken(env: Env, now: real, jti: string, org: Uuid, orderId: string, photoId: string,
                      agent: Option<string>, ttl: Option<int>, variant: Option<string>, resource: string): Result<string>
  {
    if !KnownResource(resource) then Err(400)
    else
      match NormalizeVariant(JsonVariant(variant))
      case Err(status) => Err(status)
      case Ok(normalized) =>
        var exp := Truncate(now + Lifetime(env, ttl) as real);
        Ok(EncodePayload(env, PayloadOf(env, org, orderId, photoId, agent, exp, normalized, resource, jti)))
  }

  // ------------------------------------------------------------------- the parser

  /** Where `rsplit(".", 1)` cuts. */
  function LastDot(s: string): (at: Option<nat>)
    ensures at.Some? ==> at.value < |s| && s[at.value] == '.' && '.' !in s[at.value + 1..]
    ensures at.None? <==> '.' !in s
  {
    if s == "" then None
    else if s[|s| - 1] == '.' then Some(|s| - 1)
    else
      assert s == s[..|s| - 1] + [s[|s| - 1]];
      LastDot(s[..|s| - 1])
  }

  /** The payload and the signature. Comparing with a signature that is not ASCII
      raises `TypeError`. */
  function DecodePayload(env: Env, token: string): Result<(Json, string)> {
    match LastDot(token)
    case None => Err(UNAUTHORIZED)
    case Some(at) =>
      var encoded, provided := token[..at], token[at + 1..];
      match Decode(Repad(encoded))
      case None => Err(UNAUTHORIZED)
      case Some(raw) =>
        if !Ascii(provided) then Err(UNCAUGHT)
        else if env.mac(raw) != provided then Err(UNAUTHORIZED)
        else
          match env.loads(raw)
          case None => Err(UNAUTHORIZED)
          case Some(payload) => Ok((payload, provided))
  }

  /** `payload.get(key)`: JSON null and a missing key are both None. */
  function Get(payload: Payload, key: string): Option<Json> {
    if key in payload && payload[key] != JNull then Some(payload[key]) else None
  }

  function ParseClaims(env: Env, payload: Payload): Result<Claims> {
    if "org_id" !in payload || "order_id" !in payload || "photo_id" !in payload || "exp" !in payload then Err(UNAUTHORIZED)
    else if !payload["org_id"].JStr? || env.parseUuid(payload["org_id"].s) == None then Err(UNAUTHORIZED)
    else if env.intOf(payload["exp"]) == None then Err(UNAUTHORIZED)
    else
      var orderId, photoId := Strip(env.strOf(payload["order_id"])), Strip(env.strOf(payload["photo_id"]));
      var resource := if "resource" in payload then payload["resource"] else JStr("order_photo");
      if orderId == "" || photoId == "" then Err(UNAUTHORIZED)
      else if resource.JList? || resource.JDict? then Err(UNCAUGHT)
      else if !resource.JStr? || !KnownResource(resource.s) then Err(UNAUTHORIZED)
      else Ok(Claims(env.parseUuid(payload["org_id"].s).value, orderId, photoId, env.intOf(payload["exp"]).value,
                     Get(payload, "ua"), Get(payload, "variant"), resource.s))
  }

  /** The user agent the token is bound to, if any, is the one presenting it. */
  function CheckAgent(env: Env, claims: Claims, agent: Option<string>): Result<()> {
    match claims.agentHash
    case None => Ok(())
    case Some(JStr(hash)) =>
      if !Ascii(hash) then Err(UNCAUGHT)
      else if hash == AgentHash(env, agent) then Ok(()) else Err(UNAUTHORIZED)
    case Some(_) => Err(UNCAUGHT)
  }

  /** Everything `verify_photo_download_token` checks before it reads the clock: the
      claims and the signature. */
  function Check(env: Env, token: string, agent: Option<string>): Result<(Claims, string)> {
    match DecodePayload(env, token)
    case Err(status) => Err(status)
    case Ok((json, signature)) =>
      if !json.JDict? then Err(UNCAUGHT)
      else
        match CheckFields(env, json.fields, agent)
        case Err(status) => Err(status)
        case Ok(claims) => Ok((claims, signature))
  }

  function CheckFields(env: Env, payload: Payload, agent: Option<string>): Result<Claims> {
    if "typ" !in payload || payload["typ"] != JStr("photo_download") then Err(UNAUTHORIZED)
    else
      match ParseClaims(env, payload)
      case Err(status) => Err(status)
      case Ok(claims) =>
        match CheckAgent(env, claims, agent)
        case Err(status) => Err(status)
        case Ok(_) =>
          match NormalizeVariant(claims.variant)
          case Err(status) => Err(status)
          case Ok(variant) => Ok(claims.(variant := JsonVariant(variant)))
  }

  // -------------------------------------------------------------------- the store

  /** Keys with the time at which they expire. */
  type Store = map<string, real>

  function Live(store: Store, now: real): Store {
    map key | key in store && now < store[key] :: store[key]
  }

  function Key(signature: string): string {
    "photo-token:" + signature
  }

  /** `SET key 1 EX seconds NX`: expired keys are gone, and a key that is still there
      is left alone. */
  function SetIfAbsent(store: Store, key: string, seconds: int, now: real): (bool, Store) {
    var live := Live(store, now);
    if key in live then (false, live) else (true, live[key := now + seconds as real])
  }

  function Max(a: int, b: int): int {
    if a < b then b else a
  }

  /** One verification at clock reading `now`: its result and the store after it. */
  function Verify(env: Env, store: Store, now: real, token: string, agent: Option<string>): (Result<Claims>, Store) {
    match Check(env, token, agent)
    case Err(status) => (Err(status), store)
    case Ok((claims, signature)) =>
      var ttl := claims.exp - Truncate(now);
      if ttl <= 0 then (Err(UNAUTHORIZED), store)
      else if !env.oneTime then (Ok(claims), store)
      else
        var (created, next) := SetIfAbsent(store, Key(signature), Max(ttl, 1), now);
        (if created then Ok(claims) else Err(410), next)
  }

  class RedisStore {
    var entries: Store

    constructor ()
      ensures entries == map[]
    {
      entries := map[];
    }

    method Set(key: string, seconds: int, now: real) returns (created: bool)
      modifies this
      ensures (created, entries) == SetIfAbsent(old(entries), key, seconds, now)
    {
      entries := Live(entries, now);
      created := key !in entries;
      if created {
        entries := entries[key := now + seconds as real];
      }
    }
  }

  method EnforceOneTime(env: Env, redis: RedisStore, signature: string, ttl: int, now: real) returns (r: Result<()>)
    modifies redis
    ensures !env.oneTime ==> r == Ok(()) && redis.entries == old(redis.entries)
    ensures env.oneTime ==>
      var (created, next) := SetIfAbsent(old(redis.entries), Key(signature), Max(ttl, 1), now);
      redis.entries == next && r == if created then Ok(()) else Err(410)
  {
    if !env.oneTime {
      return Ok(());
    }
    var created := redis.Set(Key(signature), Max(ttl, 1), now);
    r := if created then Ok(()) else Err(410);
  }

  method VerifyPhotoDownloadToken(env: Env, redis: RedisStore, now: real, token: string, agent: Option<string>)
    returns (r: Result<Claims>)
    modifies redis
    ensures (r, redis.entries) == Verify(env, old(redis.entries), now, token, agent)
  {
    hide Check, SetIfAbsent;
    var checked := Check(env, token, agent);
    if checked.Err? {
      return Err(checked.status);
    }
    var (claims, signature) := checked.value;
    var ttl := claims.exp - Truncate(now);
    if ttl <= 0 {
      return Err(UNAUTHORIZED);
    }
    var once := EnforceOneTime(env, redis, signature, ttl, now);
    r := if once.Err? then Err(once.status) else Ok(claims);
  }
}
