/**
 * Verification of edge fallback capabilities (workers/shared/edge-capability.js).
 *
 * Decoding of a JWT segment, key import, signature checking and URL parsing are
 * library behaviour, held in `Library`. Errors are the codes of
 * `EdgeCapabilityError`.
 */
module EdgeCapability {
  import opened Common
  import opened Values
  import opened Routes
  import opened Urls
  import opened Multisets
  import Strings = Text

  type Claimset = map<string, Value>

  datatype Library = Library(
    decodeJson: string -> Option<Value>,
    isBase64: string -> bool,
    importable: Value -> bool,
    signed: (Value, string, string, string) -> bool,
    parse: Parser)

  const MAX_TTL := 300
  const SKEW := 30
  const MAX_TOKEN := 24 * 1024
  const AUDIENCE := "zed-edge-fallback"

  datatype Policy = Policy(issuer: string, audience: string, now: int, maxTtl: int, skew: int)

  /** Verifier settings; `None` or `Null` leaves a setting at its default. */
  datatype Options = Options(issuer: string, jwks: Option<Value>, audience: Option<string>, now: int,
                             maxTtl: Option<Value>, skew: Option<Value>, outage: Option<Value>)

  datatype Lineage = Lineage(sid: string, parentJti: string)

  datatype Provenance = Provenance(assurance: int, sessionEpoch: int, policyEpoch: int, revocationCheckedAt: int)

  datatype Grant = Grant(provider: string, package: string, resource: string, origin: Option<string>,
                         credentialRef: string)

  datatype Claims = Claims(version: int, issuer: string, audience: string, subject: string,
                           lineage: Option<Lineage>, provenance: Option<Provenance>,
                           iat: int, nbf: int, exp: int, jti: string, grants: seq<Grant>)

  // ----- grammars -----

  /** `s.length`: characters beyond the basic plane take two units. */
  function UnitLength(s: string): nat {
    if s == "" then 0 else (if s[0] as int < 0x1_0000 then 1 else 2) + UnitLength(s[1..])
  }

  predicate Identifier(s: string, max: nat, extra: string) {
    1 <= |s| <= max && AlnumChar(s[0]) && forall i | 0 <= i < |s| :: AlnumChar(s[i]) || s[i] in extra
  }

  predicate Jti(s: string) { |s| >= 8 && Identifier(s, 192, "._:-") }

  predicate LineageId(s: string) { Identifier(s, 256, ":._/-") }

  predicate CredentialRef(s: string) { Identifier(s, 192, ":._/-") }

  predicate CargoCrate(s: string) { Identifier(s, 128, "_-") }

  predicate RepositoryPart(s: string) {
    s != "" && forall i | 0 <= i < |s| :: AlnumChar(s[i]) || s[i] in "_.-"
  }

  predicate GithubRepository(s: string) {
    var parts := Strings.Split(s, '/');
    |parts| == 2 && RepositoryPart(parts[0]) && RepositoryPart(parts[1])
  }

  predicate ScopedPart(s: string) {
    s != "" && LowerDigit(s[0]) && forall i | 0 <= i < |s| :: LowerDigit(s[i]) || s[i] in "._-"
  }

  predicate NpmScopedPackage(s: string) {
    var parts := Strings.Split(s, '/');
    |parts| == 2 && parts[0] != "" && parts[0][0] == '@' && ScopedPart(parts[0][1..]) && ScopedPart(parts[1])
  }

  predicate PackageCoordinate(s: string) {
    |s| <= 257
    && var parts := Strings.Split(s, '/'); |parts| == 2 && IsSlug(parts[0]) && IsSlug(parts[1])
  }

  // ----- grants -----

  function Get(m: Claimset, key: string): Option<Value> { if key in m then Some(m[key]) else None }

  const GRANT_KEYS := {"provider", "operation", "package", "resource", "origin", "credential_ref"}

  /** `url.origin` of an `https:` URL. */
  function OriginOf(url: Url): string {
    url.protocol + "//" + url.hostname + if url.port == "" then "" else ":" + url.port
  }

  function ValidateOrigin(lib: Library, origin: Option<Value>): Result<Option<string>, string> {
    var text := TextOf(origin);
    if text.None? then Err("invalid_origin")
    else
      var url := lib.parse(text.value);
      if url.None? || url.value.protocol != "https:" || url.value.username != "" || url.value.password != ""
         || url.value.pathname != "/" || url.value.search != "" || url.value.hash != ""
      then Err("invalid_origin")
      else Ok(Some(OriginOf(url.value)))
  }

  function ValidateResource(lib: Library, provider: string, resource: Option<Value>, origin: Option<Value>)
    : Result<Option<string>, string>
  {
    var text := TextOf(resource);
    if text.None? || text.value == "" || UnitLength(text.value) > 256 then Err("invalid_resource")
    else if provider == "github" then
      if !GithubRepository(text.value) then Err("invalid_resource")
      else if origin.Some? then Err("invalid_origin") else Ok(None)
    else if provider == "npm" then
      if !NpmScopedPackage(text.value) then Err("invalid_resource")
      else if origin.Some? then Err("invalid_origin") else Ok(None)
    else if !CargoCrate(text.value) then Err("invalid_resource")
    else ValidateOrigin(lib, origin)
  }

  function ValidateGrant(lib: Library, raw: Value): Result<Grant, string> {
    if !raw.Record? then Err("invalid_grant")
    else
      var m := Properties(raw.entries);
      var provider, package := TextOf(Get(m, "provider")), TextOf(Get(m, "package"));
      var ref := TextOf(Get(m, "credential_ref"));
      if !(m.Keys <= GRANT_KEYS) then Err("unknown_field")
      else if provider.None? || provider.value !in {"github", "npm", "cargo-registry"} then Err("invalid_provider")
      else if Get(m, "operation") != Some(Text("read")) then Err("invalid_operation")
      else if package.None? || !PackageCoordinate(package.value) then Err("invalid_package")
      else if ref.None? || !CredentialRef(ref.value) then Err("invalid_credential_ref")
      else
        var origin := ValidateResource(lib, provider.value, Get(m, "resource"), Get(m, "origin"));
        if origin.Err? then Err(origin.error)
        else Ok(Grant(provider.value, package.value, TextOf(Get(m, "resource")).value, origin.value, ref.value))
  }

  function ValidateGrants(lib: Library, raw: seq<Value>): Result<seq<Grant>, string> {
    if raw == [] then Ok([])
    else
      var first := ValidateGrant(lib, raw[0]);
      if first.Err? then Err(first.error)
      else
        var rest := ValidateGrants(lib, raw[1..]);
        if rest.Err? then rest else Ok([first.value] + rest.value)
  }

  /** What a grant is chosen by. */
  function Tuple(): Grant -> (string, string, string) { (g: Grant) => (g.provider, g.package, g.resource) }

  /** The loop that fills a set of keys seen so far. */
  method HasDuplicate<T(==)>(keys: seq<T>) returns (duplicate: bool)
    ensures duplicate <==> !Distinct(keys)
  {
    var seen: set<T> := {};
    for i := 0 to |keys|
      invariant seen == set j | 0 <= j < i :: keys[j]
      invariant forall j, k | 0 <= j < k < i :: keys[j] != keys[k]
    {
      if keys[i] in seen { return true; }
      seen := seen + {keys[i]};
    }
    return false;
  }

  // ----- claims -----

  const KEYS_V1 := {"zed_edge_capability", "iss", "aud", "sub", "iat", "nbf", "exp", "jti", "grants"}
  const KEYS_V2 := KEYS_V1 + {"sid", "parent_jti"}
  const KEYS_V3 := KEYS_V2 + {"assurance", "session_epoch", "policy_epoch", "revocation_checked_at"}

  function AllowedKeys(version: int): set<string> {
    if version == 3 then KEYS_V3 else if version == 2 then KEYS_V2 else KEYS_V1
  }

  function ValidateLineage(m: Claimset, version: int): Result<Option<Lineage>, string> {
    if version == 1 then Ok(None)
    else
      var sid, parent := TextOf(Get(m, "sid")), TextOf(Get(m, "parent_jti"));
      if sid.None? || !LineageId(sid.value) || parent.None? || !LineageId(parent.value) then Err("invalid_lineage")
      else Ok(Some(Lineage(sid.value, parent.value)))
  }

  /** `integerClaim` */
  function Count(m: Claimset, key: string): Option<int> {
    var n := IntegerOf(Get(m, key));
    if n.Some? && n.value >= 0 then n else None
  }

  datatype Times = Times(iat: int, nbf: int, exp: int)

  function ReadTimes(m: Claimset): Result<Times, string> {
    var iat, exp := Count(m, "iat"), Count(m, "exp");
    if iat.None? || exp.None? then Err("invalid_time_claim")
    else
      var nbf := if "nbf" in m then Count(m, "nbf") else iat;
      if nbf.None? then Err("invalid_time_claim") else Ok(Times(iat.value, nbf.value, exp.value))
  }

  function CheckTimes(t: Times, policy: Policy): Option<string> {
    if t.exp <= t.iat || t.nbf < t.iat || t.nbf > t.exp || t.exp - t.iat > policy.maxTtl then Some("invalid_lifetime")
    else if t.iat > policy.now + policy.skew || t.nbf > policy.now + policy.skew then Some("not_yet_valid")
    else if t.exp <= policy.now - policy.skew then Some("expired")
    else None
  }

  function ValidateProvenance(m: Claimset, version: int, iat: int): Result<Option<Provenance>, string> {
    if version != 3 then Ok(None)
    else
      var assurance := Count(m, "assurance");
      var session, policy := Count(m, "session_epoch"), Count(m, "policy_epoch");
      var revocation := Count(m, "revocation_checked_at");
      if assurance.None? then Err("invalid_time_claim")
      else if assurance.value != 1 && assurance.value != 2 then Err("invalid_assurance")
      else if session.None? || policy.None? || revocation.None? then Err("invalid_time_claim")
      else if revocation.value > iat then Err("invalid_revocation_checkpoint")
      else Ok(Some(Provenance(assurance.value, session.value, policy.value, revocation.value)))
  }

  predicate ValidSubject(subject: string) {
    1 <= UnitLength(subject) <= 256 && forall i | 0 <= i < |subject| :: subject[i] as int > 0x1F
  }

  /** The checks of version, fields, issuer, audience, subject and token identifier. */
  function IdentityError(m: Claimset, policy: Policy): Option<string> {
    var version, subject, jti := IntegerOf(Get(m, "zed_edge_capability")), TextOf(Get(m, "sub")), TextOf(Get(m, "jti"));
    if version.None? || version.value !in {1, 2, 3} then Some("invalid_version")
    else if !(m.Keys <= AllowedKeys(version.value)) then Some("unknown_field")
    else if Get(m, "iss") != Some(Text(policy.issuer)) then Some("invalid_issuer")
    else if Get(m, "aud") != Some(Text(policy.audience)) then Some("invalid_audience")
    else if subject.None? || !ValidSubject(subject.value) then Some("invalid_subject")
    else if jti.None? || !Jti(jti.value) then Some("invalid_jti")
    else None
  }

  /** Everything but the time window and the grants. */
  function ReadClaims(m: Claimset, policy: Policy): Result<Claims, string> {
    if IdentityError(m, policy).Some? then Err(IdentityError(m, policy).value)
    else
      var version := IntegerOf(Get(m, "zed_edge_capability")).value;
      var lineage := ValidateLineage(m, version);
      if lineage.Err? then Err(lineage.error)
      else
        var times := ReadTimes(m);
        if times.Err? then Err(times.error)
        else
          var t := times.value;
          Ok(Claims(version, policy.issuer, policy.audience, TextOf(Get(m, "sub")).value, lineage.value, None,
                    t.iat, t.nbf, t.exp, TextOf(Get(m, "jti")).value, []))
  }

  function ValidateClaims(lib: Library, raw: Value, policy: Policy): Result<Claims, string> {
    if !raw.Record? then Err("invalid_claims") else ValidateClaimset(lib, Properties(raw.entries), policy)
  }

  function ValidateClaimset(lib: Library, m: Claimset, policy: Policy): Result<Claims, string> {
    CompleteClaims(lib, m, ReadClaims(m, policy), policy)
  }

  /** The checks of the time window, the provenance and the grants. */
  function CompleteClaims(lib: Library, m: Claimset, head: Result<Claims, string>, policy: Policy)
    : Result<Claims, string>
  {
    if head.Err? then head
    else
      var c := head.value;
      var late := CheckTimes(Times(c.iat, c.nbf, c.exp), policy);
      if late.Some? then Err(late.value)
      else
        var provenance := ValidateProvenance(m, c.version, c.iat);
        if provenance.Err? then Err(provenance.error)
        else
          var grants := ReadGrants(lib, Get(m, "grants"));
          if grants.Err? then Err(grants.error)
          else Ok(c.(provenance := provenance.value, grants := grants.value))
  }

  function ReadGrants(lib: Library, raw: Option<Value>): Result<seq<Grant>, string> {
    if raw.None? || !raw.value.List? || !(1 <= |raw.value.items| <= 16) then Err("invalid_grants")
    else
      var grants := ValidateGrants(lib, raw.value.items);
      if grants.Err? then grants
      else if !Distinct(Map(grants.value, Tuple())) then Err("duplicate_grant")
      else grants
  }

  // ----- outage admission of v3 capabilities -----

  datatype Outage = Outage(startedAt: int, jwksRefreshedAt: int, minAssurance: int, minSession: int, minPolicy: int,
                           maxCapabilityAge: int, maxRevocationAge: int, maxJwksAge: int, maxOutage: int)

  /** `outageWindow` */
  function Window(m: Claimset, key: string): Option<int> {
    var n := Count(m, key);
    if n.Some? && n.value <= MAX_TTL then n else None
  }

  function ReadOutage(m: Claimset): Option<Outage> {
    var started, refreshed := Count(m, "startedAtEpochSeconds"), Count(m, "jwksRefreshedAtEpochSeconds");
    var assurance, session, policy :=
      Count(m, "minimumAssurance"), Count(m, "minimumSessionEpoch"), Count(m, "minimumPolicyEpoch");
    var capability, revocation := Window(m, "maxCapabilityAgeSeconds"), Window(m, "maxRevocationAgeSeconds");
    var jwks, outage := Window(m, "maxJwksAgeSeconds"), Window(m, "maxOutageSeconds");
    if started.None? || refreshed.None? || assurance.None? || session.None? || policy.None?
       || (assurance.value != 1 && assurance.value != 2)
       || capability.None? || revocation.None? || jwks.None? || outage.None?
    then None
    else Some(Outage(started.value, refreshed.value, assurance.value, session.value, policy.value,
                     capability.value, revocation.value, jwks.value, outage.value))
  }

  /** `validateOutageAdmission`: the error it throws, if any. */
  function OutageError(c: Claims, raw: Option<Value>, now: int): Option<string>
    requires c.provenance.Some?
  {
    if raw.None? || !raw.value.Record? then Some("outage_context_required")
    else
      var read := ReadOutage(Properties(raw.value.entries));
      if read.None? then Some("invalid_outage_policy")
      else
        var o, p := read.value, c.provenance.value;
        if p.assurance < o.minAssurance || p.sessionEpoch < o.minSession || p.policyEpoch < o.minPolicy
           || now < c.iat || now < c.nbf || now >= c.exp || o.startedAt > now || o.jwksRefreshedAt > now
        then Some("outage_policy_rejected")
        else if now - p.revocationCheckedAt < 0 || now - c.iat > o.maxCapabilityAge
                || now - p.revocationCheckedAt > o.maxRevocationAge
                || now - o.jwksRefreshedAt > o.maxJwksAge || now - o.startedAt > o.maxOutage
        then Some("outage_policy_rejected")
        else None
  }

  // ----- keys -----

  predicate Usable(key: Value) {
    var kid, alg, use := TextOf(Property(key, "kid")), Property(key, "alg"), Property(key, "use");
    && kid.Some? && Jti(kid.value)
    && Property(key, "kty") == Some(Text("EC")) && Property(key, "crv") == Some(Text("P-256"))
    && (!Truthy(alg) || alg == Some(Text("ES256")))
    && (!Truthy(use) || use == Some(Text("sig")))
  }

  function Kid(key: Value): string {
    var kid := TextOf(Property(key, "kid"));
    if kid.Some? then kid.value else ""
  }

  function UsableKids(keys: seq<Value>): seq<string> {
    if keys == [] then []
    else UsableKids(keys[..|keys| - 1]) + if Usable(keys[|keys| - 1]) then [Kid(keys[|keys| - 1])] else []
  }

  function Eligible(keys: seq<Value>, kid: string): seq<Value> {
    if keys == [] then []
    else
      var last := keys[|keys| - 1];
      Eligible(keys[..|keys| - 1], kid) + if Usable(last) && Kid(last) == kid then [last] else []
  }

  /** The verification key for a `kid`, or the reason there is none. */
  function SelectKey(keys: seq<Value>, kid: string): Result<Value, string> {
    if Eligible(keys, kid) == [] then Err("unknown_kid")
    else if !Distinct(UsableKids(keys)) then Err("ambiguous_kid")
    else Ok(Eligible(keys, kid)[0])
  }

  method ChooseKey(keys: seq<Value>, kid: string) returns (key: Result<Value, string>)
    ensures key == SelectKey(keys, kid)
  {
    var eligible := Eligible(keys, kid);
    if eligible == [] { return Err("unknown_kid"); }
    var ambiguous := HasDuplicate(UsableKids(keys));
    if ambiguous { return Err("ambiguous_kid"); }
    return Ok(eligible[0]);
  }

  method CheckGrants(lib: Library, raw: Option<Value>) returns (grants: Result<seq<Grant>, string>)
    ensures grants == ReadGrants(lib, raw)
  {
    if raw.None? || !raw.value.List? || !(1 <= |raw.value.items| <= 16) { return Err("invalid_grants"); }
    grants := ValidateGrants(lib, raw.value.items);
    if grants.Err? { return; }
    var duplicate := HasDuplicate(Map(grants.value, Tuple()));
    if duplicate { return Err("duplicate_grant"); }
  }

  // ----- verifyEdgeCapability -----

  /** `options.x ?? fallback`, as a safe integer. */
  function Setting(v: Option<Value>, fallback: int): Option<int> {
    if v.None? || v.value == Null then Some(fallback) else IntegerOf(v)
  }

  predicate NarrowSettings(options: Options) {
    var ttl, skew := Setting(options.maxTtl, MAX_TTL), Setting(options.skew, SKEW);
    ttl.Some? && 1 <= ttl.value <= MAX_TTL && skew.Some? && 0 <= skew.value <= SKEW
  }

  function CheckHeader(header: Value): Result<string, string> {
    if !header.Record? then Err("invalid_header")
    else
      var m := Properties(header.entries);
      var kid := TextOf(Get(m, "kid"));
      if !(m.Keys <= {"alg", "typ", "kid"}) then Err("unknown_field")
      else if Get(m, "alg") != Some(Text("ES256")) || Get(m, "typ") != Some(Text("JWT")) then Err("unsupported_algorithm")
      else if kid.None? || !Jti(kid.value) then Err("invalid_kid")
      else Ok(kid.value)
  }

  function JwksKeys(jwks: Option<Value>): Option<seq<Value>> {
    if jwks.None? then None
    else
      var keys := Property(jwks.value, "keys");
      if keys.None? || !keys.value.List? || !(1 <= |keys.value.items| <= 32) then None else Some(keys.value.items)
  }

  /** Header, key and signature: the claims as signed. */
  function VerifySignature(lib: Library, parts: seq<string>, jwks: Option<Value>): Result<Value, string>
    requires |parts| == 3
  {
    var header, claims := lib.decodeJson(parts[0]), lib.decodeJson(parts[1]);
    if header.None? || claims.None? then Err("invalid_token")
    else
      var kid := CheckHeader(header.value);
      if kid.Err? then Err(kid.error)
      else
        var keys := JwksKeys(jwks);
        if keys.None? then Err("invalid_jwks")
        else
          var key := SelectKey(keys.value, kid.value);
          if key.Err? then Err(key.error)
          else if !lib.importable(key.value) then Err("invalid_jwk")
          else if !lib.isBase64(parts[2]) then Err("invalid_token")
          else if !lib.signed(key.value, parts[0], parts[1], parts[2]) then Err("invalid_signature")
          else Ok(claims.value)
  }

  function PolicyOf(options: Options): Policy
    requires NarrowSettings(options)
  {
    Policy(options.issuer, if options.audience.Some? then options.audience.value else AUDIENCE, options.now,
           Setting(options.maxTtl, MAX_TTL).value, Setting(options.skew, SKEW).value)
  }

  function Admit(c: Claims, options: Options): Result<Claims, string> {
    if c.version == 3 && c.provenance.Some? && OutageError(c, options.outage, options.now).Some?
    then Err(OutageError(c, options.outage, options.now).value)
    else Ok(c)
  }

  function VerifyEdgeCapability(lib: Library, token: string, options: Options): Result<Claims, string> {
    if token == "" || UnitLength(token) > MAX_TOKEN then Err("invalid_token")
    else if options.issuer == "" then Err("issuer is required")
    else if !NarrowSettings(options) then Err("invalid_verifier_policy")
    else
      var parts := Strings.Split(token, '.');
      if |parts| != 3 || parts[0] == "" || parts[1] == "" || parts[2] == "" then Err("invalid_token")
      else
        var raw := VerifySignature(lib, parts, options.jwks);
        if raw.Err? then Err(raw.error)
        else
          var claims := ValidateClaims(lib, raw.value, PolicyOf(options));
          if claims.Err? then claims else Admit(claims.value, options)
  }
}
