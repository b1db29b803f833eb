/**
 * Which credentials are obtained from the broker: what it is asked, which of its
 * answers are taken, and the first reason for everything else.
 */
module BrokerAcceptance {
  import opened Common
  import opened Checks
  import opened Values
  import opened EdgeCapability
  import opened EdgeAcceptance
  import opened CredentialBroker
  import Planning = EdgePlanning

  // ----- what the broker is told about the caller -----

  /** The context of a capability with lineage: nothing more and nothing else. */
  predicate TellsOf(c: Claims, x: Context) {
    && c.version in {2, 3} && c.lineage.Some?
    && x.principal == c.subject && x.capabilityId == c.jti && x.capabilityExpiresAt == c.exp
    && x.sessionLineage == c.lineage.value.sid && x.parentJti == c.lineage.value.parentJti
    && if c.version == 2 || c.provenance.None? then
         x.assurance.None? && x.sessionEpoch.None? && x.policyEpoch.None? && x.revocationCheckedAt.None?
       else
         var p := c.provenance.value;
         && x.assurance == Some(p.assurance) && x.sessionEpoch == Some(p.sessionEpoch)
         && x.policyEpoch == Some(p.policyEpoch) && x.revocationCheckedAt == Some(p.revocationCheckedAt)
  }

  lemma ContextExactly(c: Claims, x: Context)
    ensures BrokerContext(c) == Ok(x) <==> TellsOf(c, x)
  {
  }

  // ----- reasons not to ask -----

  predicate Identified(c: Context) {
    && LineageId(c.principal) && LineageId(c.sessionLineage) && LineageId(c.parentJti) && LineageId(c.capabilityId)
    && 0 <= c.capabilityExpiresAt <= 0x1F_FFFF_FFFF_FFFF
  }

  predicate Counted(n: Option<int>) { n.Some? && 0 <= n.value <= 0x1F_FFFF_FFFF_FFFF }

  predicate NoProvenance(c: Context) {
    c.assurance.None? && c.sessionEpoch.None? && c.policyEpoch.None? && c.revocationCheckedAt.None?
  }

  predicate WholeProvenance(c: Context) {
    c.assurance in {Some(1), Some(2)} && Counted(c.sessionEpoch) && Counted(c.policyEpoch) && Counted(c.revocationCheckedAt)
  }

  /** The time that was asked for: one to 300 seconds, 300 when nothing was. */
  predicate AskedFor(requested: Option<Value>, n: int) { SetTo(requested, 300, n) && 1 <= n <= 300 }

  ghost function AskingCases(plan: Planning.Plan, c: Context, requested: Option<Value>, now: int): seq<Case<string>> {
    [Case(plan.provider == "github", "unsupported_provider"),
     Case(3 <= UnitLength(plan.package) <= 257, "invalid_package"),
     Case(GithubRepository(plan.resource), "invalid_resource"),
     Case(CredentialRef(plan.credentialRef), "invalid_credential_ref"),
     Case(Identified(c), "invalid_context"),
     Case(NoProvenance(c) || WholeProvenance(c), "invalid_context"),
     Case(NoProvenance(c), "v3_broker_protocol_required"),
     Case(0 < c.capabilityExpiresAt - now <= 0x1F_FFFF_FFFF_FFFF, "capability_expired"),
     Case(exists n :: AskedFor(requested, n), "invalid_ttl")]
  }

  /** The least of what was asked for and what the capability has left. */
  ghost predicate Lifetime(c: Context, requested: Option<Value>, now: int, ttl: int) {
    exists n :: AskedFor(requested, n) && ttl <= n && ttl <= c.capabilityExpiresAt - now
                && (ttl == n || ttl == c.capabilityExpiresAt - now)
  }

  lemma ContextCases(c: Context)
    ensures ContextError(c) ==
            if !Identified(c) || !(NoProvenance(c) || WholeProvenance(c)) then Some("invalid_context")
            else if !NoProvenance(c) then Some("v3_broker_protocol_required") else None
  {
  }

  lemma TtlExactly(c: Context, requested: Option<Value>, now: int)
    ensures var r := RequestedTtl(c, requested, now);
            if !(0 < c.capabilityExpiresAt - now <= 0x1F_FFFF_FFFF_FFFF) then r == Err("capability_expired")
            else if !exists n :: AskedFor(requested, n) then r == Err("invalid_ttl")
            else r.Ok? && Lifetime(c, requested, now, r.value)
  {
    var asked := Setting(requested, MAX_TTL);
    if asked.Some? && 1 <= asked.value <= 300 { assert AskedFor(requested, asked.value); }
  }

  /**
   * The broker is asked exactly when nothing speaks against it, for the tuple
   * of the plan and for the least time; otherwise the first reason is given and
   * no request is sent.
   */
  lemma AskedExactly(broker: BrokerRequest -> Response, plan: Planning.Plan, c: Context, requested: Option<Value>, now: int)
    ensures var o, refused := RequestProviderCredential(broker, plan, c, requested, now),
                              First(AskingCases(plan, c, requested, now));
            if refused.Some? then o == Outcome(None, Err(refused.value))
            else
              && o.sent.Some? && Lifetime(c, requested, now, o.sent.value.ttl)
              && o.sent.value == BrokerRequest(plan.package, plan.resource, plan.credentialRef, c, o.sent.value.ttl)
              && o.result == ReadResponse(broker(o.sent.value), plan, c, now, o.sent.value.ttl)
  {
    var cs := AskingCases(plan, c, requested, now);
    FirstNine(cs[0], cs[1], cs[2], cs[3], cs[4], cs[5], cs[6], cs[7], cs[8]);
    assert cs == [cs[0], cs[1], cs[2], cs[3], cs[4], cs[5], cs[6], cs[7], cs[8]];
    ContextCases(c);
    TtlExactly(c, requested, now);
  }

  // ----- which answers are taken -----

  ghost function AnswerCases(r: Response): seq<Case<string>> {
    [Case(r.ok, "broker_rejected"),
     Case(r.noStore, "unsafe_cache_policy"),
     Case(r.json, "invalid_response"),
     Case(r.declared.Some? ==> r.declared.value <= 16384, "response_too_large"),
     Case(r.size <= 16384, "response_too_large"),
     Case(r.body.Some?, "invalid_response")]
  }

  predicate AnyText(m: Claimset, key: string) { Get(m, key).Some? && Get(m, key).value.Text? }

  /** A bearer token: 16 to 4096 units on one line. */
  predicate TokenIn(m: Claimset) {
    && AnyText(m, "access_token")
    && var token := Get(m, "access_token").value.text;
       16 <= UnitLength(token) <= 4096 && forall i | 0 <= i < |token| :: token[i] !in "\r\n"
  }

  predicate Dated(m: Claimset) { IntegerOf(Get(m, "issued_at")).Some? && IntegerOf(Get(m, "expires_at")).Some? }

  /** Issued within 30 seconds of now, and not over yet. */
  predicate Fresh(m: Claimset, now: int)
    requires Dated(m)
  {
    var issued, expires := IntegerOf(Get(m, "issued_at")).value, IntegerOf(Get(m, "expires_at")).value;
    now - 30 <= issued <= now + 30 && now < expires && issued < expires
  }

  predicate Bounded(m: Claimset, c: Context, now: int, ttl: int)
    requires Dated(m)
  {
    var expires := IntegerOf(Get(m, "expires_at")).value;
    expires <= c.capabilityExpiresAt && expires <= now + ttl + 30
  }

  /** `contents` is read, and nothing but `contents` and `metadata` is. */
  predicate Reads(m: Claimset) {
    && Get(m, "permissions").Some? && Get(m, "permissions").value.Record?
    && var p := Properties(Get(m, "permissions").value.entries);
       p in {map["contents" := Text("read")], map["contents" := Text("read"), "metadata" := Text("read")]}
  }

  function Fields(raw: Value): Claimset { if raw.Record? then Properties(raw.entries) else map[] }

  ghost function CredentialCases(raw: Value, plan: Planning.Plan, c: Context, now: int, ttl: int): seq<Case<string>> {
    var m := Fields(raw);
    [Case(raw.Record?, "invalid_response"),
     Case(m.Keys <= {"version", "provider", "kind", "resource", "credential_ref", "capability_id", "access_token",
                     "issued_at", "expires_at", "permissions"}, "unknown_field"),
     Case(IntegerOf(Get(m, "version")) == Some(1) && Says(m, "provider", "github")
          && Says(m, "kind", "github-app-installation"), "invalid_response"),
     Case(Says(m, "resource", plan.resource) && Says(m, "credential_ref", plan.credentialRef)
          && Says(m, "capability_id", c.capabilityId), "scope_mismatch"),
     Case(TokenIn(m), "invalid_response"),
     Case(Dated(m), "invalid_response"),
     Case(Dated(m) && Fresh(m, now), "invalid_response"),
     Case(Dated(m) && Bounded(m, c, now, ttl), "ttl_widened"),
     Case(Reads(m), "invalid_permissions")]
  }

  /** What the credential is made of. */
  predicate Holds(m: Claimset, credential: Credential) {
    && Says(m, "resource", credential.resource) && Says(m, "credential_ref", credential.credentialRef)
    && Says(m, "capability_id", credential.capabilityId) && Says(m, "access_token", credential.accessToken)
    && IntegerOf(Get(m, "issued_at")) == Some(credential.issuedAt)
    && IntegerOf(Get(m, "expires_at")) == Some(credential.expiresAt)
    && Get(m, "permissions").Some? && Get(m, "permissions").value.Record?
    && Properties(Get(m, "permissions").value.entries) == credential.permissions
  }

  lemma PermissionsExactly(m: Claimset)
    ensures ReadOnly(Get(m, "permissions")) <==> Reads(m)
  {
    if Get(m, "permissions").Some? && Get(m, "permissions").value.Record? {
      var p := Properties(Get(m, "permissions").value.entries);
      if ReadOnly(Get(m, "permissions")) {
        if "metadata" in p {
          assert p == map["contents" := Text("read"), "metadata" := Text("read")];
        } else {
          assert p == map["contents" := Text("read")];
        }
      }
    }
  }

  lemma TokenExactly(m: Claimset)
    ensures (TextOf(Get(m, "access_token")).Some? && ValidToken(TextOf(Get(m, "access_token")).value)) <==> TokenIn(m)
  {
    if AnyText(m, "access_token") {
      var token := Get(m, "access_token").value.text;
      assert '\r' in token ==> exists i :: 0 <= i < |token| && token[i] == '\r';
      assert '\n' in token ==> exists i :: 0 <= i < |token| && token[i] == '\n';
    }
  }

  lemma CredentialExactly(raw: Value, plan: Planning.Plan, c: Context, now: int, ttl: int)
    ensures var r, refused := ValidateCredential(raw, plan, c, now, ttl), First(CredentialCases(raw, plan, c, now, ttl));
            if refused.Some? then r == Err(refused.value) else r.Ok? && Holds(Fields(raw), r.value)
  {
    var cs := CredentialCases(raw, plan, c, now, ttl);
    FirstNine(cs[0], cs[1], cs[2], cs[3], cs[4], cs[5], cs[6], cs[7], cs[8]);
    assert cs == [cs[0], cs[1], cs[2], cs[3], cs[4], cs[5], cs[6], cs[7], cs[8]];
    PermissionsExactly(Fields(raw));
    TokenExactly(Fields(raw));
  }

  /**
   * An answer is taken exactly when its headers allow it and its record is a
   * fresh, read-only credential for the plan and the capability, within both
   * lifetimes; otherwise the first reason is given.
   */
  lemma TakenExactly(response: Response, plan: Planning.Plan, c: Context, now: int, ttl: int)
    ensures var r := ReadResponse(response, plan, c, now, ttl);
            var refused := Before(First(AnswerCases(response)),
                                  if response.body.Some? then First(CredentialCases(response.body.value, plan, c, now, ttl))
                                  else None);
            if refused.Some? then r == Err(refused.value)
            else response.body.Some? && r.Ok? && Holds(Fields(response.body.value), r.value)
  {
    var cs := AnswerCases(response);
    FirstSix(cs[0], cs[1], cs[2], cs[3], cs[4], cs[5]);
    assert cs == [cs[0], cs[1], cs[2], cs[3], cs[4], cs[5]];
    if response.body.Some? { CredentialExactly(response.body.value, plan, c, now, ttl); }
  }
}
