/**
 * What an accepted capability is, as one condition on the token, the verifier's
 * settings and the claims that come out: who signed it, what it says, and that
 * nothing else is in it.
 */
module EdgeAcceptance {
  import opened Common
  import opened Values
  import opened Routes
  import opened Multisets
  import opened EdgeCapability
  import opened EdgeAuthority
  import Strings = Text

  // ----- header and key -----

  predicate HeaderNames(header: Value, kid: string) {
    && header.Record? && Jti(kid)
    && Properties(header.entries) == map["alg" := Text("ES256"), "typ" := Text("JWT"), "kid" := Text(kid)]
  }

  /** A P-256 signing key with this `kid`. */
  predicate SigningKey(key: Value, kid: string) {
    && Property(key, "kid") == Some(Text(kid)) && Jti(kid)
    && Property(key, "kty") == Some(Text("EC")) && Property(key, "crv") == Some(Text("P-256"))
    && (Truthy(Property(key, "alg")) ==> Property(key, "alg") == Some(Text("ES256")))
    && (Truthy(Property(key, "use")) ==> Property(key, "use") == Some(Text("sig")))
  }

  /** No two keys of the set are meant by this `kid`. */
  predicate AtMostOneKey(keys: seq<Value>, kid: string) {
    forall i, j | 0 <= i < j < |keys| :: !(SigningKey(keys[i], kid) && SigningKey(keys[j], kid))
  }

  ghost predicate Unambiguous(keys: seq<Value>) { forall kid :: AtMostOneKey(keys, kid) }

  /** Some key of the set signed header and claims. */
  ghost predicate SignedBy(lib: Library, parts: seq<string>, keys: seq<Value>, kid: string)
    requires |parts| == 3
  {
    && 1 <= |keys| <= 32 && Unambiguous(keys) && lib.isBase64(parts[2])
    && exists i :: 0 <= i < |keys| && SigningKey(keys[i], kid) && lib.importable(keys[i])
                   && lib.signed(keys[i], parts[0], parts[1], parts[2])
  }

  /** The set the verifier was given holds these keys. */
  predicate KeySet(jwks: Option<Value>, keys: seq<Value>) {
    jwks.Some? && Property(jwks.value, "keys") == Some(List(keys))
  }

  ghost predicate Authentic(lib: Library, parts: seq<string>, jwks: Option<Value>)
    requires |parts| == 3
  {
    exists kid, keys ::
      && lib.decodeJson(parts[0]).Some? && HeaderNames(lib.decodeJson(parts[0]).value, kid)
      && KeySet(jwks, keys) && SignedBy(lib, parts, keys, kid)
  }

  lemma UsableSigning(key: Value, kid: string)
    ensures Usable(key) && Kid(key) == kid <==> SigningKey(key, kid)
  {
  }

  lemma {:induction false} EligibleAlone(keys: seq<Value>, kid: string)
    ensures |Eligible(keys, kid)| <= 1 <==> AtMostOneKey(keys, kid)
    ensures |Eligible(keys, kid)| == 0 <==> forall i | 0 <= i < |keys| :: !SigningKey(keys[i], kid)
  {
    if keys != [] {
      var n := |keys| - 1;
      EligibleAlone(keys[..n], kid);
      UsableSigning(keys[n], kid);
      assert forall i | 0 <= i < n :: keys[..n][i] == keys[i];
      if |Eligible(keys, kid)| <= 1 {
        forall i, j | 0 <= i < j < |keys| ensures !(SigningKey(keys[i], kid) && SigningKey(keys[j], kid)) {
          assert keys[..n][i] == keys[i];
          if j < n { assert keys[..n][j] == keys[j]; }
        }
      } else if |Eligible(keys[..n], kid)| == 1 {
        var i :| 0 <= i < n && SigningKey(keys[..n][i], kid);
        assert SigningKey(keys[i], kid) && SigningKey(keys[n], kid);
      }
    }
  }

  lemma DistinctKids(keys: seq<Value>)
    ensures Distinct(UsableKids(keys)) <==> Unambiguous(keys)
  {
    if Distinct(UsableKids(keys)) {
      forall kid ensures AtMostOneKey(keys, kid) {
        AtMostOneEligible(keys, kid);
        EligibleAlone(keys, kid);
      }
    } else {
      var kids := UsableKids(keys);
      var i, j :| 0 <= i < j < |kids| && kids[i] == kids[j];
      TwiceCounted(kids, i, j);
      EligibleCount(keys, kids[i]);
      EligibleAlone(keys, kids[i]);
    }
  }

  lemma TwiceCounted(a: seq<string>, i: nat, j: nat)
    requires i < j < |a| && a[i] == a[j]
    ensures multiset(a)[a[i]] >= 2
  {
    assert a == a[..i] + [a[i]] + a[i + 1..j] + [a[j]] + a[j + 1..];
  }

  lemma HeaderExactly(header: Value, kid: string)
    ensures CheckHeader(header) == Ok(kid) <==> HeaderNames(header, kid)
  {
    if header.Record? {
      var m := Properties(header.entries);
      var n := map["alg" := Text("ES256"), "typ" := Text("JWT"), "kid" := Text(kid)];
      if CheckHeader(header) == Ok(kid) { assert m.Keys == n.Keys; }
    }
  }

  /** The key that is selected and the one that is meant. */
  lemma KeyMeant(lib: Library, parts: seq<string>, keys: seq<Value>, kid: string)
    requires |parts| == 3 && 1 <= |keys| <= 32
    ensures SignedBy(lib, parts, keys, kid) <==>
            var key := SelectKey(keys, kid);
            && key.Ok? && lib.importable(key.value) && lib.isBase64(parts[2])
            && lib.signed(key.value, parts[0], parts[1], parts[2])
  {
    DistinctKids(keys);
    EligibleAlone(keys, kid);
    if SignedBy(lib, parts, keys, kid) {
      var i :| 0 <= i < |keys| && SigningKey(keys[i], kid) && lib.importable(keys[i])
               && lib.signed(keys[i], parts[0], parts[1], parts[2]);
      UsableSigning(keys[i], kid);
      SelectedKeyExactly(keys, kid, keys[i]);
    }
    var key := SelectKey(keys, kid);
    if key.Ok? {
      SelectedKeyExactly(keys, kid, key.value);
      UsableSigning(key.value, kid);
    }
  }

  lemma SignatureExactly(lib: Library, parts: seq<string>, jwks: Option<Value>, claims: Value)
    requires |parts| == 3
    ensures VerifySignature(lib, parts, jwks) == Ok(claims) <==>
            Authentic(lib, parts, jwks) && lib.decodeJson(parts[1]) == Some(claims)
  {
    var r := VerifySignature(lib, parts, jwks);
    var header := lib.decodeJson(parts[0]);
    if r.Ok? {
      var kid, keys := CheckHeader(header.value).value, JwksKeys(jwks).value;
      HeaderExactly(header.value, kid);
      KeyMeant(lib, parts, keys, kid);
      assert KeySet(jwks, keys);
    }
    if Authentic(lib, parts, jwks) {
      var kid, keys :| header.Some? && HeaderNames(header.value, kid) && KeySet(jwks, keys)
                       && SignedBy(lib, parts, keys, kid);
      HeaderExactly(header.value, kid);
      KeyMeant(lib, parts, keys, kid);
    }
  }

  // ----- claims -----

  predicate Says(m: Claimset, key: string, text: string) { Get(m, key) == Some(Text(text)) }

  predicate Counts(m: Claimset, key: string, n: int) { IntegerOf(Get(m, key)) == Some(n) && n >= 0 }

  function Extra(version: int): set<string> {
    (if version >= 2 then {"sid", "parent_jti"} else {})
    + if version == 3 then {"assurance", "session_epoch", "policy_epoch", "revocation_checked_at"} else {}
  }

  /** Who the capability is from, for and about. */
  predicate Identifies(m: Claimset, c: Claims, issuer: string, audience: string) {
    && c.version in {1, 2, 3} && IntegerOf(Get(m, "zed_edge_capability")) == Some(c.version)
    && m.Keys <= {"zed_edge_capability", "iss", "aud", "sub", "iat", "nbf", "exp", "jti", "grants"} + Extra(c.version)
    && c.issuer == issuer && Says(m, "iss", issuer)
    && c.audience == audience && Says(m, "aud", audience)
    && Says(m, "sub", c.subject) && 1 <= UnitLength(c.subject) <= 256
    && (forall i | 0 <= i < |c.subject| :: c.subject[i] as int >= 0x20)
    && Says(m, "jti", c.jti) && Jti(c.jti)
  }

  predicate Descends(m: Claimset, c: Claims) {
    if c.version == 1 then c.lineage.None?
    else
      && c.lineage.Some? && Says(m, "sid", c.lineage.value.sid) && Says(m, "parent_jti", c.lineage.value.parentJti)
      && LineageId(c.lineage.value.sid) && LineageId(c.lineage.value.parentJti)
  }

  predicate Dates(m: Claimset, c: Claims) {
    && Counts(m, "iat", c.iat) && Counts(m, "exp", c.exp)
    && if "nbf" in m then Counts(m, "nbf", c.nbf) else c.nbf == c.iat
  }

  predicate Proves(m: Claimset, c: Claims) {
    if c.version != 3 then c.provenance.None?
    else
      && c.provenance.Some?
      && var p := c.provenance.value;
         && Counts(m, "assurance", p.assurance) && p.assurance in {1, 2}
         && Counts(m, "session_epoch", p.sessionEpoch) && Counts(m, "policy_epoch", p.policyEpoch)
         && Counts(m, "revocation_checked_at", p.revocationCheckedAt) && p.revocationCheckedAt <= c.iat
  }

  // ----- grants -----

  /** The registry a grant is for: fixed, or the named origin of a Cargo registry. */
  predicate OriginStands(lib: Library, origin: Option<Value>, g: Grant) {
    if g.provider == "cargo-registry" then
      && g.origin.Some? && TextOf(origin).Some?
      && var url := lib.parse(TextOf(origin).value);
         && url.Some? && url.value.protocol == "https:" && url.value.username == "" && url.value.password == ""
         && url.value.pathname == "/" && url.value.search == "" && url.value.hash == ""
         && g.origin.value == "https://" + url.value.hostname + if url.value.port == "" then "" else ":" + url.value.port
    else origin.None? && g.origin.None?
  }

  predicate ResourceStands(g: Grant) {
    && 1 <= UnitLength(g.resource) <= 256
    && match g.provider
       case "github" => GithubRepository(g.resource)
       case "npm" => NpmScopedPackage(g.resource)
       case _ => g.provider == "cargo-registry" && CargoCrate(g.resource)
  }

  /** A grant to read, with these six fields at most. */
  predicate GrantStands(lib: Library, raw: Value, g: Grant) {
    && raw.Record?
    && var m := Properties(raw.entries);
       && m.Keys <= {"provider", "operation", "package", "resource", "origin", "credential_ref"}
       && Says(m, "provider", g.provider) && Says(m, "operation", "read")
       && Says(m, "package", g.package) && PackageCoordinate(g.package)
       && Says(m, "resource", g.resource) && ResourceStands(g) && OriginStands(lib, Get(m, "origin"), g)
       && Says(m, "credential_ref", g.credentialRef) && CredentialRef(g.credentialRef)
  }

  /** One to sixteen grants, no two for the same provider, package and resource. */
  predicate Grants(lib: Library, raw: Option<Value>, grants: seq<Grant>) {
    && raw.Some? && raw.value.List? && 1 <= |grants| <= 16 && |raw.value.items| == |grants|
    && (forall i | 0 <= i < |grants| :: GrantStands(lib, raw.value.items[i], grants[i]))
    && forall i, j | 0 <= i < j < |grants| :: !SameTuple(grants[i], grants[j])
  }

  predicate SameTuple(g: Grant, h: Grant) {
    g.provider == h.provider && g.package == h.package && g.resource == h.resource
  }

  lemma UnitsNeeded(s: string)
    ensures UnitLength(s) > 0 <==> s != ""
  {
  }

  lemma OriginExactly(lib: Library, g: Grant, origin: Option<Value>)
    requires g.provider == "cargo-registry"
    ensures ValidateOrigin(lib, origin) == Ok(g.origin) <==> OriginStands(lib, origin, g)
  {
    assert "https:" + "//" == "https://";
  }

  lemma ResourceExactly(lib: Library, g: Grant, resource: Option<Value>, origin: Option<Value>)
    requires g.provider in {"github", "npm", "cargo-registry"}
    ensures ValidateResource(lib, g.provider, resource, origin) == Ok(g.origin) && TextOf(resource) == Some(g.resource)
            <==> resource == Some(Text(g.resource)) && ResourceStands(g) && OriginStands(lib, origin, g)
  {
    UnitsNeeded(g.resource);
    if g.provider == "cargo-registry" { OriginExactly(lib, g, origin); }
  }

  lemma GrantExactly(lib: Library, raw: Value, g: Grant)
    ensures ValidateGrant(lib, raw) == Ok(g) <==> GrantStands(lib, raw, g)
  {
    if raw.Record? && g.provider in {"github", "npm", "cargo-registry"} {
      var m := Properties(raw.entries);
      ResourceExactly(lib, g, Get(m, "resource"), Get(m, "origin"));
    }
  }

  lemma GrantsExactly(lib: Library, raw: Option<Value>, grants: seq<Grant>)
    ensures ReadGrants(lib, raw) == Ok(grants) <==> Grants(lib, raw, grants)
  {
    if raw.Some? && raw.value.List? {
      GrantListExactly(lib, raw.value.items, grants);
      TuplesDiffer(grants);
    }
  }

  lemma TuplesDiffer(grants: seq<Grant>)
    ensures Distinct(Map(grants, Tuple())) <==> forall i, j | 0 <= i < j < |grants| :: !SameTuple(grants[i], grants[j])
  {
    var tuples := Map(grants, Tuple());
    assert forall i | 0 <= i < |grants| :: tuples[i] == (grants[i].provider, grants[i].package, grants[i].resource);
    if !Distinct(tuples) {
      var i, j :| 0 <= i < j < |tuples| && tuples[i] == tuples[j];
      assert SameTuple(grants[i], grants[j]);
    }
  }

  lemma {:induction false} GrantListExactly(lib: Library, raw: seq<Value>, grants: seq<Grant>)
    ensures ValidateGrants(lib, raw) == Ok(grants) <==>
            |raw| == |grants| && forall i | 0 <= i < |grants| :: GrantStands(lib, raw[i], grants[i])
  {
    if raw != [] {
      if grants == [] {
        GrantsCount(lib, raw);
      } else {
        GrantExactly(lib, raw[0], grants[0]);
        GrantListExactly(lib, raw[1..], grants[1..]);
        assert grants == [grants[0]] + grants[1..];
        if |raw| == |grants| && forall i | 0 <= i < |grants| :: GrantStands(lib, raw[i], grants[i]) {
          forall i | 0 <= i < |grants[1..]| ensures GrantStands(lib, raw[1..][i], grants[1..][i]) {
            assert GrantStands(lib, raw[i + 1], grants[i + 1]);
          }
        }
        if |raw| == |grants| && ValidateGrants(lib, raw) == Ok(grants) {
          forall i | 0 <= i < |grants| ensures GrantStands(lib, raw[i], grants[i]) {
            if i > 0 { assert GrantStands(lib, raw[1..][i - 1], grants[1..][i - 1]); }
          }
        }
      }
    }
  }

  // ----- time, settings and outages -----

  /** A setting that is left out stands for its default; any other is a safe integer. */
  predicate SetTo(setting: Option<Value>, fallback: int, n: int) {
    if setting.None? || setting.value.Null? then n == fallback else IntegerOf(setting) == Some(n)
  }

  /** The longest lifetime and the clock skew, which settings can only lower. */
  predicate Narrowed(options: Options, ttl: int, skew: int) {
    && SetTo(options.maxTtl, 300, ttl) && 1 <= ttl <= 300
    && SetTo(options.skew, 30, skew) && 0 <= skew <= 30
  }

  predicate Timely(c: Claims, now: int, ttl: int, skew: int) {
    && c.iat <= c.nbf <= c.exp && c.iat < c.exp <= c.iat + ttl
    && c.iat - skew <= now && c.nbf - skew <= now && now < c.exp + skew
  }

  predicate WindowSays(m: Claimset, key: string, n: int) { Counts(m, key, n) && n <= 300 }

  predicate OutageSays(m: Claimset, o: Outage) {
    && Counts(m, "startedAtEpochSeconds", o.startedAt) && Counts(m, "jwksRefreshedAtEpochSeconds", o.jwksRefreshedAt)
    && Counts(m, "minimumAssurance", o.minAssurance) && o.minAssurance in {1, 2}
    && Counts(m, "minimumSessionEpoch", o.minSession) && Counts(m, "minimumPolicyEpoch", o.minPolicy)
    && WindowSays(m, "maxCapabilityAgeSeconds", o.maxCapabilityAge)
    && WindowSays(m, "maxRevocationAgeSeconds", o.maxRevocationAge)
    && WindowSays(m, "maxJwksAgeSeconds", o.maxJwksAge) && WindowSays(m, "maxOutageSeconds", o.maxOutage)
  }

  /** A v3 capability lies inside every window of the outage policy. */
  ghost predicate Weathers(c: Claims, outage: Option<Value>, now: int) {
    && c.provenance.Some? && outage.Some? && outage.value.Record?
    && exists o :: OutageSays(Properties(outage.value.entries), o) && FreshEnough(c, c.provenance.value, o, now)
  }

  lemma OutageRead(m: Claimset, o: Outage)
    ensures ReadOutage(m) == Some(o) <==> OutageSays(m, o)
  {
  }

  lemma AdmittedExactly(c: Claims, options: Options)
    requires c.provenance.Some? <==> c.version == 3
    ensures Admit(c, options) == Ok(c) <==> (c.version == 3 ==> Weathers(c, options.outage, options.now))
  {
    if c.version == 3 {
      OutageExactly(c, options.outage, options.now);
      if options.outage.Some? && options.outage.value.Record? {
        var m := Properties(options.outage.value.entries);
        if ReadOutage(m).Some? { OutageRead(m, ReadOutage(m).value); }
        forall o | OutageSays(m, o) ensures ReadOutage(m) == Some(o) { OutageRead(m, o); }
      }
    }
  }

  lemma SettingsExactly(options: Options)
    ensures NarrowSettings(options) <==> exists ttl, skew :: Narrowed(options, ttl, skew)
    ensures forall ttl, skew | Narrowed(options, ttl, skew) ::
              Setting(options.maxTtl, MAX_TTL) == Some(ttl) && Setting(options.skew, SKEW) == Some(skew)
  {
    if NarrowSettings(options) {
      assert Narrowed(options, Setting(options.maxTtl, MAX_TTL).value, Setting(options.skew, SKEW).value);
    }
  }

  // ----- the claims that come out -----

  /** What is read before the times are checked. */
  predicate Heads(m: Claimset, c: Claims, policy: Policy) {
    Identifies(m, c, policy.issuer, policy.audience) && Descends(m, c) && Dates(m, c)
  }

  lemma IdentityExactly(m: Claimset, policy: Policy, c: Claims)
    ensures IdentityError(m, policy).None? && IntegerOf(Get(m, "zed_edge_capability")) == Some(c.version)
            && TextOf(Get(m, "sub")) == Some(c.subject) && TextOf(Get(m, "jti")) == Some(c.jti)
            && c.issuer == policy.issuer && c.audience == policy.audience
            <==> Identifies(m, c, policy.issuer, policy.audience)
  {
    if c.version in {1, 2, 3} {
      assert AllowedKeys(c.version) ==
             {"zed_edge_capability", "iss", "aud", "sub", "iat", "nbf", "exp", "jti", "grants"} + Extra(c.version);
    }
  }

  lemma LineageExactly(m: Claimset, c: Claims)
    ensures ValidateLineage(m, c.version) == Ok(c.lineage) <==> Descends(m, c)
  {
  }

  lemma DatesExactly(m: Claimset, c: Claims)
    ensures ReadTimes(m) == Ok(Times(c.iat, c.nbf, c.exp)) <==> Dates(m, c)
  {
  }

  lemma ProvenanceExactly(m: Claimset, c: Claims)
    ensures ValidateProvenance(m, c.version, c.iat) == Ok(c.provenance) <==> Proves(m, c)
  {
  }

  lemma HeadExactly(m: Claimset, policy: Policy, c: Claims)
    ensures ReadClaims(m, policy) == Ok(c.(provenance := None, grants := [])) <==> Heads(m, c, policy)
  {
    IdentityExactly(m, policy, c);
    LineageExactly(m, c);
    DatesExactly(m, c);
  }

  lemma CompleteExactly(lib: Library, m: Claimset, policy: Policy, head: Result<Claims, string>, c: Claims)
    requires head.Ok? ==> head.value.provenance.None? && head.value.grants == []
    ensures CompleteClaims(lib, m, head, policy) == Ok(c) <==>
            && head == Ok(c.(provenance := None, grants := [])) && Timely(c, policy.now, policy.maxTtl, policy.skew)
            && Proves(m, c) && Grants(lib, Get(m, "grants"), c.grants)
  {
    if head.Ok? { CurrentExactly(head.value, policy); }
    ProvenanceExactly(m, c);
    GrantsExactly(lib, Get(m, "grants"), c.grants);
  }

  /** The claims are those that the record states, and they stand. */
  predicate States(lib: Library, m: Claimset, c: Claims, policy: Policy) {
    && Heads(m, c, policy) && Timely(c, policy.now, policy.maxTtl, policy.skew)
    && Proves(m, c) && Grants(lib, Get(m, "grants"), c.grants)
  }

  lemma ClaimsetExactly(lib: Library, m: Claimset, policy: Policy, c: Claims)
    ensures ValidateClaimset(lib, m, policy) == Ok(c) <==> States(lib, m, c, policy)
  {
    ReadClaimsFacts(m, policy);
    HeadExactly(m, policy, c);
    CompleteExactly(lib, m, policy, ReadClaims(m, policy), c);
  }

  function Audience(options: Options): string {
    if options.audience.Some? then options.audience.value else "zed-edge-fallback"
  }

  /** Everything that makes a token acceptable, and `c` what it says. */
  ghost predicate Acceptable(lib: Library, token: string, options: Options, c: Claims) {
    && 1 <= UnitLength(token) <= 24 * 1024 && options.issuer != ""
    && var parts := Strings.Split(token, '.');
       && |parts| == 3 && (forall p | p in parts :: p != "")
       && Authentic(lib, parts, options.jwks)
       && lib.decodeJson(parts[1]).Some? && lib.decodeJson(parts[1]).value.Record?
       && (c.version == 3 ==> Weathers(c, options.outage, options.now))
       && StatesWithin(lib, Properties(lib.decodeJson(parts[1]).value.entries), c, options)
  }

  /** The claims stand under the verifier's own limits. */
  ghost predicate StatesWithin(lib: Library, m: Claimset, c: Claims, options: Options) {
    exists ttl, skew ::
      && Narrowed(options, ttl, skew)
      && States(lib, m, c, Policy(options.issuer, Audience(options), options.now, ttl, skew))
  }

  lemma WithinExactly(lib: Library, m: Claimset, c: Claims, options: Options)
    ensures StatesWithin(lib, m, c, options) <==> NarrowSettings(options) && States(lib, m, c, PolicyOf(options))
  {
    SettingsExactly(options);
  }

  /**
   * A capability is accepted, with these claims, exactly when its three parts
   * are there, the header names ES256 and one key of an unambiguous set, that
   * key signed the other two parts, the signed claims name the configured issuer
   * and audience and are what comes out, they are current, every grant stands,
   * and a v3 capability weathers the outage policy.
   */
  lemma AcceptedExactly(lib: Library, token: string, options: Options, c: Claims)
    ensures VerifyEdgeCapability(lib, token, options) == Ok(c) <==> Acceptable(lib, token, options, c)
  {
    UnitsNeeded(token);
    var parts := Strings.Split(token, '.');
    if |parts| == 3 {
      SplitNonempty(parts);
      if lib.decodeJson(parts[1]).Some? && lib.decodeJson(parts[1]).value.Record? {
        WithinExactly(lib, Properties(lib.decodeJson(parts[1]).value.entries), c, options);
      }
      if NarrowSettings(options) { PartsExactly(lib, parts, options, c); }
    }
  }

  lemma SplitNonempty(parts: seq<string>)
    requires |parts| == 3
    ensures (forall p | p in parts :: p != "") <==> parts[0] != "" && parts[1] != "" && parts[2] != ""
  {
    if parts[0] != "" && parts[1] != "" && parts[2] != "" {
      forall p | p in parts ensures p != "" {
        var i :| 0 <= i < 3 && parts[i] == p;
      }
    }
    assert parts[0] in parts && parts[1] in parts && parts[2] in parts;
  }

  lemma PartsExactly(lib: Library, parts: seq<string>, options: Options, c: Claims)
    requires |parts| == 3 && NarrowSettings(options)
    ensures (var raw := VerifySignature(lib, parts, options.jwks);
             raw.Ok? && var claims := ValidateClaims(lib, raw.value, PolicyOf(options));
                        claims.Ok? && Admit(claims.value, options) == Ok(c))
            <==>
            && Authentic(lib, parts, options.jwks)
            && lib.decodeJson(parts[1]).Some? && lib.decodeJson(parts[1]).value.Record?
            && (c.version == 3 ==> Weathers(c, options.outage, options.now))
            && States(lib, Properties(lib.decodeJson(parts[1]).value.entries), c, PolicyOf(options))
  {
    var claims := lib.decodeJson(parts[1]);
    if claims.Some? { SignatureExactly(lib, parts, options.jwks, claims.value); }
    var raw := VerifySignature(lib, parts, options.jwks);
    if raw.Ok? { SignatureExactly(lib, parts, options.jwks, raw.value); }
    if claims.Some? && claims.value.Record? {
      var m := Properties(claims.value.entries);
      ClaimsetExactly(lib, m, PolicyOf(options), c);
      ClaimsetFacts(lib, m, PolicyOf(options));
      if c.provenance.Some? <==> c.version == 3 { AdmittedExactly(c, options); }
    }
  }
}
