/** What the photo tokens are for: a link opens what it was built for, only for the
    agent it was built for, and in one-time mode only once. */
module PhotoTokenProofs {
  import opened Collections
  import opened Text
  import opened Base64Url
  import opened PhotoTokens

  // -------------------------------------------------------------- print and parse

  lemma {:induction false} LastDotAt(a: string, b: string)
    requires '.' !in b
    ensures LastDot(a + "." + b) == Some(|a|)
    decreases |b|
  {
    var s := a + "." + b;
    if b != "" {
      var init := b[..|b| - 1];
      LastDotAt(a, init);
      assert s[..|s| - 1] == a + "." + init;
      assert s[|s| - 1] == b[|b| - 1] && b[|b| - 1] in b;
    }
  }

  /** Parsing a printed payload gives it back, with the signature it carries. */
  lemma DecodeUndoesEncode(env: Env, payload: Payload)
    requires Sound(env)
    ensures DecodePayload(env, EncodePayload(env, payload)) == Ok((JDict(payload), env.mac(env.dumps(payload))))
  {
    var raw := env.dumps(payload);
    var token, sig := EncodePayload(env, payload), env.mac(raw);
    assert Hex(sig);
    LastDotAt(Encode(raw), sig);
    assert token[..|Encode(raw)|] == Encode(raw) && token[|Encode(raw)| + 1..] == sig;
    RoundTrip(raw);
  }

  /** Whatever is accepted carries the MAC of the bytes its payload was read from. */
  lemma OnlySignedPayloads(env: Env, token: string) returns (raw: seq<Byte>)
    requires DecodePayload(env, token).Ok?
    ensures env.mac(raw) == DecodePayload(env, token).value.1
    ensures env.loads(raw) == Some(DecodePayload(env, token).value.0)
  {
    raw := Decode(Repad(token[..LastDot(token).value])).value;
  }

  // ------------------------------------------------------------- build and check

  lemma PayloadFields(env: Env, org: Uuid, orderId: string, photoId: string, agent: Option<string>,
                      exp: int, variant: Option<string>, resource: string, jti: string)
    ensures var p := PayloadOf(env, org, orderId, photoId, agent, exp, variant, resource, jti);
      && "org_id" in p && p["org_id"] == JStr(org.text)
      && "order_id" in p && p["order_id"] == JStr(orderId)
      && "photo_id" in p && p["photo_id"] == JStr(photoId)
      && "exp" in p && p["exp"] == JInt(exp)
      && "typ" in p && p["typ"] == JStr("photo_download")
      && "resource" in p && p["resource"] == JStr(resource)
      && Get(p, "variant") == JsonVariant(variant)
      && Get(p, "ua") == if env.bindAgent then Some(JStr(AgentHash(env, agent))) else None
  {
    assert "variant" != "ua";
  }

  /** The claims a built token stands for. */
  function Intended(env: Env, org: Uuid, orderId: string, photoId: string, agent: Option<string>,
                    exp: int, variant: Option<string>, resource: string): Claims
  {
    Claims(org, Strip(orderId), Strip(photoId), exp,
           if env.bindAgent then Some(JStr(AgentHash(env, agent))) else None, JsonVariant(variant), resource)
  }

  lemma ParsePayload(env: Env, org: Uuid, orderId: string, photoId: string, agent: Option<string>,
                     exp: int, variant: Option<string>, resource: string, jti: string)
    requires Sound(env) && env.parseUuid(org.text) == Some(org) && KnownResource(resource)
    ensures ParseClaims(env, PayloadOf(env, org, orderId, photoId, agent, exp, variant, resource, jti)) ==
      if Strip(orderId) == "" || Strip(photoId) == "" then Err(UNAUTHORIZED)
      else Ok(Intended(env, org, orderId, photoId, agent, exp, variant, resource))
  {
    PayloadFields(env, org, orderId, photoId, agent, exp, variant, resource, jti);
    hide PayloadOf;
  }

  lemma HexIsAscii(s: string)
    requires Hex(s)
    ensures Ascii(s)
  {
  }

  lemma CheckBuiltFields(env: Env, org: Uuid, orderId: string, photoId: string, agent: Option<string>, exp: int,
                         variant: Option<string>, resource: string, jti: string, presenter: Option<string>)
    requires Sound(env) && env.parseUuid(org.text) == Some(org) && KnownResource(resource)
    requires NormalizeVariant(JsonVariant(variant)) == Ok(variant)
    ensures CheckFields(env, PayloadOf(env, org, orderId, photoId, agent, exp, variant, resource, jti), presenter) ==
      if Strip(orderId) == "" || Strip(photoId) == "" then Err(UNAUTHORIZED)
      else if env.bindAgent && AgentHash(env, agent) != AgentHash(env, presenter) then Err(UNAUTHORIZED)
      else Ok(Intended(env, org, orderId, photoId, agent, exp, variant, resource))
  {
    PayloadFields(env, org, orderId, photoId, agent, exp, variant, resource, jti);
    ParsePayload(env, org, orderId, photoId, agent, exp, variant, resource, jti);
    assert Hex(AgentHash(env, agent));
    HexIsAscii(AgentHash(env, agent));
    hide PayloadOf, ParseClaims, NormalizeVariant, Sound, Ascii;
  }

  lemma BuiltToken(env: Env, now: real, jti: string, org: Uuid, orderId: string, photoId: string, agent: Option<string>,
                   ttl: Option<int>, variant: Option<string>, resource: string, token: string)
    requires BuildToken(env, now, jti, org, orderId, photoId, agent, ttl, variant, resource) == Ok(token)
    ensures KnownResource(resource) && NormalizeVariant(JsonVariant(variant)).Ok?
    ensures token == EncodePayload(env, PayloadOf(env, org, orderId, photoId, agent,
      Truncate(now + Lifetime(env, ttl) as real), NormalizeVariant(JsonVariant(variant)).value, resource, jti))
  {
    hide PayloadOf, EncodePayload, Truncate, NormalizeVariant;
  }

  /** Checking what was built, for all arguments: the ids come back stripped, empty
      ones are refused, and a bound token is refused to an agent with another hash. */
  lemma CheckUndoesBuild(env: Env, now: real, jti: string, org: Uuid, orderId: string, photoId: string,
                         agent: Option<string>, ttl: Option<int>, variant: Option<string>, resource: string,
                         token: string, presenter: Option<string>)
    requires Sound(env) && env.parseUuid(org.text) == Some(org)
    requires BuildToken(env, now, jti, org, orderId, photoId, agent, ttl, variant, resource) == Ok(token)
    ensures NormalizeVariant(JsonVariant(variant)).Ok?
    ensures
      var normalized := NormalizeVariant(JsonVariant(variant)).value;
      var exp := Truncate(now + Lifetime(env, ttl) as real);
      var payload := PayloadOf(env, org, orderId, photoId, agent, exp, normalized, resource, jti);
      Check(env, token, presenter) ==
        if Strip(orderId) == "" || Strip(photoId) == "" then Err(UNAUTHORIZED)
        else if env.bindAgent && AgentHash(env, agent) != AgentHash(env, presenter) then Err(UNAUTHORIZED)
        else Ok((Intended(env, org, orderId, photoId, agent, exp, normalized, resource), env.mac(env.dumps(payload))))
  {
    hide PayloadOf, DecodePayload, EncodePayload, CheckFields, BuildToken, NormalizeVariant, Intended, Sound, Truncate;
    BuiltToken(env, now, jti, org, orderId, photoId, agent, ttl, variant, resource, token);
    var normalized := NormalizeVariant(JsonVariant(variant)).value;
    var exp := Truncate(now + Lifetime(env, ttl) as real);
    var payload := PayloadOf(env, org, orderId, photoId, agent, exp, normalized, resource, jti);
    DecodeUndoesEncode(env, payload);
    NormalizeTwice(JsonVariant(variant));
    CheckBuiltFields(env, org, orderId, photoId, agent, exp, normalized, resource, jti, presenter);
  }

  /** Building fails exactly on an unknown resource or a malformed variant. */
  lemma BuildFails(env: Env, now: real, jti: string, org: Uuid, orderId: string, photoId: string,
                   agent: Option<string>, ttl: Option<int>, variant: Option<string>, resource: string)
    ensures BuildToken(env, now, jti, org, orderId, photoId, agent, ttl, variant, resource).Err? <==>
      !KnownResource(resource) || (variant.Some? && exists c :: c in Strip(variant.value) && !VariantChar(c))
  {
  }

  /** A built link opens for its agent before it expires and returns what it was built
      for; from `exp` on it is refused. */
  lemma BuiltLinkOpens(env: Env, built: real, jti: string, org: Uuid, orderId: string, photoId: string,
                       agent: Option<string>, ttl: Option<int>, variant: Option<string>, resource: string,
                       token: string, now: real)
    requires Sound(env) && env.parseUuid(org.text) == Some(org)
    requires BuildToken(env, built, jti, org, orderId, photoId, agent, ttl, variant, resource) == Ok(token)
    requires Trimmed(orderId) && Trimmed(photoId) && orderId != "" && photoId != ""
    ensures
      var exp := Truncate(built + Lifetime(env, ttl) as real);
      var normalized := NormalizeVariant(JsonVariant(variant)).value;
      Verify(env, map[], now, token, agent).0 ==
        if Truncate(now) < exp
        then Ok(Claims(org, orderId, photoId, exp, if env.bindAgent then Some(JStr(AgentHash(env, agent))) else None,
                       JsonVariant(normalized), resource))
        else Err(UNAUTHORIZED)
  {
    CheckUndoesBuild(env, built, jti, org, orderId, photoId, agent, ttl, variant, resource, token, agent);
    StripTrims(orderId);
    StripTrims(photoId);
    hide Check, BuildToken, NormalizeVariant;
  }

  // ------------------------------------------------------------------ one time only

  /** One verification request. */
  datatype Event = Event(now: real, token: string, agent: Option<string>)

  /** A clock that never goes back, read after the epoch. */
  ghost predicate Clock(events: seq<Event>) {
    && (forall i :: 0 <= i < |events| ==> events[i].now >= 0.0)
    && (forall i, j :: 0 <= i <= j < |events| ==> events[i].now <= events[j].now)
  }

  /** The store after the first `n` requests, starting empty. */
  function StoreAt(env: Env, events: seq<Event>, n: nat): Store
    requires n <= |events|
  {
    if n == 0 then map[]
    else
      var e := events[n - 1];
      Verify(env, StoreAt(env, events, n - 1), e.now, e.token, e.agent).1
  }

  function ResultAt(env: Env, events: seq<Event>, n: nat): Result<Claims>
    requires n < |events|
  {
    Verify(env, StoreAt(env, events, n), events[n].now, events[n].token, events[n].agent).0
  }

  /** The request passes every check that needs neither clock nor store. */
  predicate Genuine(env: Env, e: Event) {
    Check(env, e.token, e.agent).Ok?
  }

  function Signature(env: Env, e: Event): string
    requires Genuine(env, e)
  {
    Check(env, e.token, e.agent).value.1
  }

  function Expiry(env: Env, e: Event): int
    requires Genuine(env, e)
  {
    Check(env, e.token, e.agent).value.0.exp
  }

  /** Request `n` was let through with the given signature. */
  predicate Opened(env: Env, events: seq<Event>, n: nat, signature: string)
    requires n < |events|
  {
    Genuine(env, events[n]) && Signature(env, events[n]) == signature && ResultAt(env, events, n).Ok?
  }

  /** The signature fixes the expiry: both come from the same signed bytes. */
  lemma SignatureFixesExpiry(env: Env, e: Event, f: Event)
    requires MacInjective(env) && Genuine(env, e) && Genuine(env, f) && Signature(env, e) == Signature(env, f)
    ensures Expiry(env, e) == Expiry(env, f)
  {
    var a := OnlySignedPayloads(env, e.token);
    var b := OnlySignedPayloads(env, f.token);
    assert DecodePayload(env, e.token) == DecodePayload(env, f.token);
  }

  /** The key is held at least until `exp`, or `exp` has passed. */
  predicate Held(store: Store, key: string, exp: real, now: real) {
    (key in store && store[key] >= exp) || now >= exp
  }

  /** A held key stays held until it expires, whatever is verified meanwhile. */
  lemma HeldStaysHeld(env: Env, store: Store, e: Event, key: string, exp: real)
    requires env.oneTime && Held(store, key, exp, e.now)
    ensures Held(Verify(env, store, e.now, e.token, e.agent).1, key, exp, e.now)
  {
    hide Check;
  }

  /** Letting a request through holds its key for the rest of its token's life. */
  lemma OpeningHolds(env: Env, store: Store, e: Event)
    requires env.oneTime && e.now >= 0.0 && Genuine(env, e)
    requires Verify(env, store, e.now, e.token, e.agent).0.Ok?
    ensures Held(Verify(env, store, e.now, e.token, e.agent).1, Key(Signature(env, e)), Expiry(env, e) as real, e.now)
  {
    hide Check;
    assert e.now >= e.now.Floor as real;
  }

  /** After request j was let through, its key is held until the token has expired. */
  lemma {:induction false} HeldUntilExpiry(env: Env, events: seq<Event>, j: nat, n: nat)
    requires env.oneTime && Clock(events) && j < n <= |events|
    requires Genuine(env, events[j]) && ResultAt(env, events, j).Ok?
    ensures Held(StoreAt(env, events, n), Key(Signature(env, events[j])), Expiry(env, events[j]) as real, events[n - 1].now)
    decreases n
  {
    hide Check, Verify, Genuine, Signature, Expiry, Key;
    if n - 1 > j {
      HeldUntilExpiry(env, events, j, n - 1);
      assert events[n - 2].now <= events[n - 1].now;
      HeldStaysHeld(env, StoreAt(env, events, n - 1), events[n - 1], Key(Signature(env, events[j])), Expiry(env, events[j]) as real);
    } else {
      OpeningHolds(env, StoreAt(env, events, j), events[j]);
    }
  }

  /** A key in the store was put there by a request that was let through. */
  lemma {:induction false} HeldMeansOpened(env: Env, events: seq<Event>, n: nat, signature: string) returns (j: nat)
    requires env.oneTime && n <= |events| && Key(signature) in StoreAt(env, events, n)
    ensures j < n && Opened(env, events, j, signature)
    decreases n
  {
    var e := events[n - 1];
    if Key(signature) in StoreAt(env, events, n - 1) {
      j := HeldMeansOpened(env, events, n - 1, signature);
    } else {
      j := n - 1;
      assert Key(Signature(env, e)) == Key(signature);
      assert Key(signature)[12..] == signature && Key(Signature(env, e))[12..] == Signature(env, e);
    }
  }

  /** One-time mode, exactly: in every run of requests a genuine one is let through if
      and only if its token has not expired and no earlier request with the same
      signature was let through. */
  lemma OpensExactlyOnce(env: Env, events: seq<Event>, n: nat)
    requires MacInjective(env) && env.oneTime && Clock(events) && n < |events| && Genuine(env, events[n])
    ensures ResultAt(env, events, n).Ok? <==>
      && events[n].now.Floor < Expiry(env, events[n])
      && !exists j :: 0 <= j < n && Opened(env, events, j, Signature(env, events[n]))
  {
    var e, store := events[n], StoreAt(env, events, n);
    var signature := Signature(env, e);
    if j :| 0 <= j < n && Opened(env, events, j, signature) {
      HeldUntilExpiry(env, events, j, n);
      SignatureFixesExpiry(env, events[j], e);
      assert events[n - 1].now <= e.now;
    } else if Key(signature) in store {
      var j := HeldMeansOpened(env, events, n, signature);
    }
  }
}
