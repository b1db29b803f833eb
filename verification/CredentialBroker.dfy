/**
 * The credential broker client (workers/shared/provider-credential-broker.js)
 * and the chain from a capability to a provider credential.
 *
 * The broker is any function from the request it is sent to a response. A
 * response is a parsed record: its headers are the verdicts the client reads
 * off them, its body is the JSON value it holds, if it holds one.
 */
module CredentialBroker {
  import opened Common
  import opened Values
  import opened EdgeCapability
  import opened EdgeAuthority
  import opened EdgePlanning
  import Urls

  const MAX_RESPONSE := 16 * 1024

  /** A caller's context; the last four are the v3 provenance, each optional. */
  datatype Context = Context(principal: string, sessionLineage: string, parentJti: string, capabilityId: string,
                             capabilityExpiresAt: int, assurance: Option<int>, sessionEpoch: Option<int>,
                             policyEpoch: Option<int>, revocationCheckedAt: Option<int>)

  datatype BrokerRequest = BrokerRequest(package: string, resource: string, credentialRef: string, context: Context,
                                         ttl: int)

  /** `declared` is the `content-length`, if that header is a number. */
  datatype Response = Response(ok: bool, noStore: bool, json: bool, declared: Option<int>, size: nat,
                               body: Option<Value>)

  datatype Credential = Credential(resource: string, credentialRef: string, capabilityId: string, accessToken: string,
                                   issuedAt: int, expiresAt: int, permissions: map<string, Value>)

  /** What one call does: the request it sends, if any, and its answer. */
  datatype Outcome = Outcome(sent: Option<BrokerRequest>, result: Result<Credential, string>)

  /** `brokerContextFromCapability` */
  function BrokerContext(c: Claims): Result<Context, string> {
    if c.version !in {2, 3} || c.lineage.None? then Err("lineage_required")
    else
      var l := c.lineage.value;
      if c.version == 3 && c.provenance.Some? then
        var p := c.provenance.value;
        Ok(Context(c.subject, l.sid, l.parentJti, c.jti, c.exp, Some(p.assurance), Some(p.sessionEpoch),
                   Some(p.policyEpoch), Some(p.revocationCheckedAt)))
      else Ok(Context(c.subject, l.sid, l.parentJti, c.jti, c.exp, None, None, None, None))
  }

  function PlanError(plan: Plan): Option<string> {
    if plan.provider != "github" then Some("unsupported_provider")
    else if !(3 <= UnitLength(plan.package) <= 257) then Some("invalid_package")
    else if !GithubRepository(plan.resource) then Some("invalid_resource")
    else if !CredentialRef(plan.credentialRef) then Some("invalid_credential_ref")
    else None
  }

  predicate Natural(n: Option<int>) { n.Some? && SafeInteger(n.value) && n.value >= 0 }

  function ContextError(c: Context): Option<string> {
    if !LineageId(c.principal) || !LineageId(c.sessionLineage) || !LineageId(c.parentJti) || !LineageId(c.capabilityId)
       || !SafeInteger(c.capabilityExpiresAt) || c.capabilityExpiresAt < 0
    then Some("invalid_context")
    else if c.assurance.None? && c.sessionEpoch.None? && c.policyEpoch.None? && c.revocationCheckedAt.None? then None
    else if c.assurance !in {Some(1), Some(2)} || !Natural(c.sessionEpoch) || !Natural(c.policyEpoch)
            || !Natural(c.revocationCheckedAt)
    then Some("invalid_context")
    else Some("v3_broker_protocol_required")
  }

  function Min(a: int, b: int): int { if a < b then a else b }

  /** The lifetime to ask for, or why not to ask. */
  function RequestedTtl(c: Context, requested: Option<Value>, now: int): Result<int, string> {
    var remaining := c.capabilityExpiresAt - now;
    if !SafeInteger(remaining) || remaining <= 0 then Err("capability_expired")
    else
      var ttl := Setting(requested, MAX_TTL);
      if ttl.None? || !(1 <= ttl.value <= MAX_TTL) then Err("invalid_ttl")
      else
        var lifetime := Min(Min(ttl.value, remaining), MAX_TTL);
        if lifetime < 1 then Err("capability_expired") else Ok(lifetime)
  }

  const RESPONSE_KEYS := {"version", "provider", "kind", "resource", "credential_ref", "capability_id", "access_token",
                          "issued_at", "expires_at", "permissions"}

  predicate ReadOnly(permissions: Option<Value>) {
    && permissions.Some? && permissions.value.Record?
    && var m := Properties(permissions.value.entries);
       && (forall k | k in m :: k in {"contents", "metadata"} && m[k] == Text("read"))
       && "contents" in m
  }

  predicate ValidToken(token: string) {
    16 <= UnitLength(token) <= 4096 && '\r' !in token && '\n' !in token
  }

  /** `validateGithubCredential` */
  function ValidateCredential(raw: Value, plan: Plan, c: Context, now: int, ttl: int): Result<Credential, string> {
    if !raw.Record? then Err("invalid_response")
    else
      var m := Properties(raw.entries);
      var token := TextOf(Get(m, "access_token"));
      var issued, expires := IntegerOf(Get(m, "issued_at")), IntegerOf(Get(m, "expires_at"));
      if !(m.Keys <= RESPONSE_KEYS) then Err("unknown_field")
      else if IntegerOf(Get(m, "version")) != Some(1) || Get(m, "provider") != Some(Text("github"))
              || Get(m, "kind") != Some(Text("github-app-installation")) then Err("invalid_response")
      else if Get(m, "resource") != Some(Text(plan.resource))
              || Get(m, "credential_ref") != Some(Text(plan.credentialRef))
              || Get(m, "capability_id") != Some(Text(c.capabilityId)) then Err("scope_mismatch")
      else if token.None? || !ValidToken(token.value) then Err("invalid_response")
      else if issued.None? || expires.None? then Err("invalid_response")
      else if issued.value < now - SKEW || issued.value > now + SKEW
              || expires.value <= now || expires.value <= issued.value
      then Err("invalid_response")
      else if expires.value > c.capabilityExpiresAt || expires.value - now > ttl + SKEW then Err("ttl_widened")
      else if !ReadOnly(Get(m, "permissions")) then Err("invalid_permissions")
      else Ok(Credential(plan.resource, plan.credentialRef, c.capabilityId, token.value, issued.value, expires.value,
                         Properties(Get(m, "permissions").value.entries)))
  }

  function ReadResponse(response: Response, plan: Plan, c: Context, now: int, ttl: int): Result<Credential, string> {
    if !response.ok then Err("broker_rejected")
    else if !response.noStore then Err("unsafe_cache_policy")
    else if !response.json then Err("invalid_response")
    else if response.declared.Some? && response.declared.value > MAX_RESPONSE then Err("response_too_large")
    else if response.size > MAX_RESPONSE then Err("response_too_large")
    else if response.body.None? then Err("invalid_response")
    else ValidateCredential(response.body.value, plan, c, now, ttl)
  }

  function RequestProviderCredential(broker: BrokerRequest -> Response, plan: Plan, c: Context,
                                     requested: Option<Value>, now: int): Outcome
  {
    if PlanError(plan).Some? then Outcome(None, Err(PlanError(plan).value))
    else if ContextError(c).Some? then Outcome(None, Err(ContextError(c).value))
    else
      var ttl := RequestedTtl(c, requested, now);
      if ttl.Err? then Outcome(None, Err(ttl.error))
      else
        var request := BrokerRequest(plan.package, plan.resource, plan.credentialRef, c, ttl.value);
        Outcome(Some(request), ReadResponse(broker(request), plan, c, now, ttl.value))
  }

  // ----- one call -----

  /** The broker is asked for one to 300 seconds, within the requested time and
      the life the capability has left. */
  lemma AskedLifetime(broker: BrokerRequest -> Response, plan: Plan, c: Context, requested: Option<Value>, now: int)
    ensures var o := RequestProviderCredential(broker, plan, c, requested, now);
            o.sent.Some? ==>
              && 1 <= o.sent.value.ttl <= MAX_TTL && o.sent.value.ttl <= c.capabilityExpiresAt - now
              && Setting(requested, MAX_TTL).Some? && o.sent.value.ttl <= Setting(requested, MAX_TTL).value
              && o.sent.value.ttl in {MAX_TTL, c.capabilityExpiresAt - now, Setting(requested, MAX_TTL).value}
  {
  }

  /** A credential ends after now, no later than the capability, and no later
      than the lifetime asked for allows; it covers what was planned and only reads. */
  predicate Narrow(credential: Credential, plan: Plan, c: Context, now: int, ttl: int) {
    && now < credential.expiresAt <= c.capabilityExpiresAt
    && credential.expiresAt <= now + ttl + SKEW
    && now - SKEW <= credential.issuedAt <= now + SKEW && credential.issuedAt < credential.expiresAt
    && credential.resource == plan.resource && credential.credentialRef == plan.credentialRef
    && credential.capabilityId == c.capabilityId
    && (forall k | k in credential.permissions ::
          k in {"contents", "metadata"} && credential.permissions[k] == Text("read"))
  }

  lemma CredentialIsNarrow(broker: BrokerRequest -> Response, plan: Plan, c: Context, requested: Option<Value>, now: int)
    ensures var o := RequestProviderCredential(broker, plan, c, requested, now);
            o.result.Ok? ==> o.sent.Some? && Narrow(o.result.value, plan, c, now, o.sent.value.ttl)
  {
  }

  // ----- the whole chain -----

  /** A capability without v2 lineage never leads to a request to the broker. */
  lemma OnlyV2ReachesTheBroker(lib: Library, token: string, options: Options, broker: BrokerRequest -> Response,
                               plan: Plan, requested: Option<Value>, now: int)
    requires VerifyEdgeCapability(lib, token, options).Ok?
    ensures var c := VerifyEdgeCapability(lib, token, options).value;
            var context := BrokerContext(c);
            && (context.Ok? <==> c.version != 1)
            && (context.Ok? && RequestProviderCredential(broker, plan, context.value, requested, now).sent.Some?
                ==> c.version == 2)
  {
    AcceptedIsSound(lib, token, options);
  }

  /**
   * From the capability to the credential, whatever the clocks say: a
   * credential obtained at `now` ends before the capability does, which ends
   * within five minutes of its issue, and covers the resource of one grant.
   */
  lemma CapabilityBoundsCredential(lib: Library, parse: Urls.Parser, token: string, options: Options, request: Request,
                                   broker: BrokerRequest -> Response, requested: Option<Value>, now: int)
    requires VerifyEdgeCapability(lib, token, options).Ok?
    requires var c := VerifyEdgeCapability(lib, token, options).value;
             PlanProviderRequest(parse, c, request).Ok? && BrokerContext(c).Ok?
    ensures var c := VerifyEdgeCapability(lib, token, options).value;
            var plan := PlanProviderRequest(parse, c, request).value;
            var o := RequestProviderCredential(broker, plan, BrokerContext(c).value, requested, now);
            o.result.Ok? ==>
              && c.version == 2 && now < c.exp
              && now < o.result.value.expiresAt <= c.exp <= c.iat + 300
              && o.result.value.capabilityId == c.jti && o.result.value.resource == request.resource
              && 1 <= o.sent.value.ttl <= 300 && o.sent.value.ttl <= c.exp - now
              && exists g :: g in c.grants && g.resource == request.resource && g.package == request.package
                             && g.credentialRef == o.result.value.credentialRef
  {
    var c := VerifyEdgeCapability(lib, token, options).value;
    var plan := PlanProviderRequest(parse, c, request).value;
    var context := BrokerContext(c).value;
    AcceptedIsSound(lib, token, options);
    PlanCarriesGrant(parse, c, request);
    OnlyV2ReachesTheBroker(lib, token, options, broker, plan, requested, now);
    CredentialIsNarrow(broker, plan, context, requested, now);
    AskedLifetime(broker, plan, context, requested, now);
    assert context.capabilityExpiresAt == c.exp && context.capabilityId == c.jti;
  }
}
