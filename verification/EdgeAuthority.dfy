/**
 * Properties of capability verification: which key is trusted, what a narrower
 * verifier accepts, what the time checks mean, and that the order of keys and
 * grants decides nothing.
 */
module EdgeAuthority {
  import opened Common
  import opened Values
  import opened Multisets
  import opened EdgeCapability
  import Strings = Text

  // ----- key selection -----

  function KidsOf(): Value -> seq<string> { (key: Value) => if Usable(key) then [Kid(key)] else [] }

  function EligibleOf(kid: string): Value -> seq<Value> {
    (key: Value) => if Usable(key) && Kid(key) == kid then [key] else []
  }

  lemma {:induction false} AsConcatMap(keys: seq<Value>, kid: string)
    ensures UsableKids(keys) == ConcatMap(keys, KidsOf())
    ensures Eligible(keys, kid) == ConcatMap(keys, EligibleOf(kid))
  {
    if keys != [] { AsConcatMap(keys[..|keys| - 1], kid); }
  }

  lemma DistinctPermuted<T>(a: seq<T>, b: seq<T>)
    requires multiset(a) == multiset(b)
    ensures Distinct(a) <==> Distinct(b)
  {
    DistinctOnce(a);
    DistinctOnce(b);
    forall x ensures x in a <==> x in b { assert x in multiset(a) <==> x in multiset(b); }
  }

  /** Every eligible key contributes its `kid` to the usable ones. */
  lemma {:induction false} EligibleCount(keys: seq<Value>, kid: string)
    ensures |Eligible(keys, kid)| == multiset(UsableKids(keys))[kid]
  {
    if keys != [] {
      var n := |keys| - 1;
      EligibleCount(keys[..n], kid);
      var last := if Usable(keys[n]) then [Kid(keys[n])] else [];
      assert UsableKids(keys) == UsableKids(keys[..n]) + last;
    }
  }

  /** In an unambiguous snapshot at most one key is eligible. */
  lemma AtMostOneEligible(keys: seq<Value>, kid: string)
    requires Distinct(UsableKids(keys))
    ensures |Eligible(keys, kid)| <= 1
  {
    EligibleCount(keys, kid);
    AtMostOnce(UsableKids(keys), kid);
  }

  lemma {:induction false} EligibleIn(keys: seq<Value>, kid: string, key: Value)
    ensures key in Eligible(keys, kid) <==> key in keys && Usable(key) && Kid(key) == kid
  {
    if keys != [] {
      var n := |keys| - 1;
      EligibleIn(keys[..n], kid, key);
      assert keys == keys[..n] + [keys[n]];
    }
  }

  /** A key is trusted exactly when it is the only usable key with the `kid`,
      and no `kid` at all is shared by two usable keys. */
  lemma SelectedKeyExactly(keys: seq<Value>, kid: string, key: Value)
    ensures SelectKey(keys, kid) == Ok(key) <==>
            key in keys && Usable(key) && Kid(key) == kid && Distinct(UsableKids(keys))
  {
    EligibleIn(keys, kid, key);
    if Distinct(UsableKids(keys)) { AtMostOneEligible(keys, kid); }
  }

  lemma KeyListsPermuted(a: seq<Value>, b: seq<Value>, kid: string)
    requires multiset(a) == multiset(b)
    ensures |Eligible(a, kid)| == |Eligible(b, kid)|
    ensures Distinct(UsableKids(a)) <==> Distinct(UsableKids(b))
  {
    AsConcatMap(a, kid);
    AsConcatMap(b, kid);
    ConcatMapPermutes(a, b, KidsOf());
    ConcatMapPermutes(a, b, EligibleOf(kid));
    SameSize(Eligible(a, kid), Eligible(b, kid));
    DistinctPermuted(UsableKids(a), UsableKids(b));
  }

  /** The selected key, or the error, is the same for every order of the keys. */
  lemma KeySelectionIgnoresOrder(a: seq<Value>, b: seq<Value>, kid: string)
    requires multiset(a) == multiset(b)
    ensures SelectKey(a, kid) == SelectKey(b, kid)
  {
    KeyListsPermuted(a, b, kid);
    if SelectKey(a, kid).Ok? {
      var key := SelectKey(a, kid).value;
      SelectedKeyExactly(a, kid, key);
      SelectedKeyExactly(b, kid, key);
      assert key in multiset(a);
    }
  }

  // ----- the verifier's own settings -----

  /** `wide` differs from `narrow` in leaving both settings at their defaults. */
  predicate Defaults(narrow: Options, wide: Options) {
    wide == narrow.(maxTtl := None, skew := None)
  }

  lemma CheckTimesWider(t: Times, narrow: Policy, wide: Policy)
    requires wide.now == narrow.now && narrow.maxTtl <= wide.maxTtl && narrow.skew <= wide.skew
    requires CheckTimes(t, narrow).None?
    ensures CheckTimes(t, wide).None?
  {
  }

  lemma ClaimsWider(lib: Library, m: Claimset, narrow: Policy, wide: Policy)
    requires wide == narrow.(maxTtl := wide.maxTtl, skew := wide.skew)
    requires narrow.maxTtl <= wide.maxTtl && narrow.skew <= wide.skew
    requires ValidateClaimset(lib, m, narrow).Ok?
    ensures ValidateClaimset(lib, m, wide) == ValidateClaimset(lib, m, narrow)
  {
    ReadClaimsPolicy(m, narrow, wide);
    var c := ReadClaims(m, narrow).value;
    CheckTimesWider(Times(c.iat, c.nbf, c.exp), narrow, wide);
  }

  lemma ReadClaimsPolicy(m: Claimset, a: Policy, b: Policy)
    requires a.issuer == b.issuer && a.audience == b.audience
    ensures ReadClaims(m, a) == ReadClaims(m, b)
  {
  }

  /** Settings can only narrow what is accepted, and never change what it says. */
  lemma NarrowerAcceptsLess(lib: Library, token: string, narrow: Options, wide: Options)
    requires Defaults(narrow, wide)
    ensures var accepted := VerifyEdgeCapability(lib, token, narrow);
            accepted.Ok? ==> VerifyEdgeCapability(lib, token, wide) == accepted
  {
    var accepted := VerifyEdgeCapability(lib, token, narrow);
    if accepted.Ok? {
      var parts := Strings.Split(token, '.');
      var raw := VerifySignature(lib, parts, narrow.jwks).value;
      assert raw.Record?;
      ClaimsWider(lib, Properties(raw.entries), PolicyOf(narrow), PolicyOf(wide));
    }
  }

  // ----- what acceptance says about time -----

  /** The lifetime and the window in which a capability is accepted. */
  predicate Current(c: Claims, policy: Policy) {
    && c.iat <= c.nbf <= c.exp && c.iat < c.exp <= c.iat + policy.maxTtl
    && c.nbf - policy.skew <= policy.now < c.exp + policy.skew
  }

  lemma CurrentExactly(c: Claims, policy: Policy)
    ensures CheckTimes(Times(c.iat, c.nbf, c.exp), policy).None? <==> Current(c, policy)
  {
  }

  /** The freshness a v3 capability must show at `now`. */
  predicate FreshEnough(c: Claims, p: Provenance, o: Outage, now: int) {
    && o.minAssurance <= p.assurance && o.minSession <= p.sessionEpoch && o.minPolicy <= p.policyEpoch
    && c.nbf <= now < c.exp && c.iat <= now <= c.iat + o.maxCapabilityAge
    && p.revocationCheckedAt <= now <= p.revocationCheckedAt + o.maxRevocationAge
    && o.jwksRefreshedAt <= now <= o.jwksRefreshedAt + o.maxJwksAge
    && o.startedAt <= now <= o.startedAt + o.maxOutage
  }

  /** A v3 capability is admitted exactly inside all four windows. */
  lemma OutageExactly(c: Claims, raw: Option<Value>, now: int)
    requires c.provenance.Some?
    ensures OutageError(c, raw, now).None? <==>
            && raw.Some? && raw.value.Record? && ReadOutage(Properties(raw.value.entries)).Some?
            && FreshEnough(c, c.provenance.value, ReadOutage(Properties(raw.value.entries)).value, now)
  {
  }

  /** Every accepted capability is current, lives at most five minutes, and holds
      one to sixteen grants with different provider, package and resource. */
  predicate Sound(c: Claims, options: Options) {
    NarrowSettings(options) && WellFormed(c, PolicyOf(options)) && c.exp <= c.iat + MAX_TTL
  }

  lemma ReadClaimsFacts(m: Claimset, policy: Policy)
    ensures var r := ReadClaims(m, policy);
            r.Ok? ==> 0 <= r.value.iat && r.value.version in {1, 2, 3} && r.value.provenance.None?
                      && (r.value.lineage.Some? <==> r.value.version != 1)
  {
  }

  lemma ReadGrantsFacts(lib: Library, raw: Option<Value>)
    ensures var r := ReadGrants(lib, raw); r.Ok? ==> 1 <= |r.value| <= 16 && Distinct(Map(r.value, Tuple()))
  {
    if ReadGrants(lib, raw).Ok? { GrantsCount(lib, raw.value.items); }
  }

  /** What the claims themselves say of an accepted capability. */
  predicate WellFormed(c: Claims, policy: Policy) {
    && Current(c, policy) && 0 <= c.iat
    && 1 <= |c.grants| <= 16 && Distinct(Map(c.grants, Tuple()))
    && c.version in {1, 2, 3} && (c.lineage.Some? <==> c.version != 1) && (c.provenance.Some? <==> c.version == 3)
  }

  lemma CompleteFacts(lib: Library, m: Claimset, head: Result<Claims, string>, policy: Policy)
    requires head.Ok? ==> 0 <= head.value.iat && head.value.version in {1, 2, 3}
                          && (head.value.lineage.Some? <==> head.value.version != 1)
    ensures var r := CompleteClaims(lib, m, head, policy); r.Ok? ==> WellFormed(r.value, policy)
  {
    ReadGrantsFacts(lib, Get(m, "grants"));
    if head.Ok? { CurrentExactly(head.value, policy); }
  }

  lemma ClaimsetFacts(lib: Library, m: Claimset, policy: Policy)
    ensures var r := ValidateClaimset(lib, m, policy); r.Ok? ==> WellFormed(r.value, policy)
  {
    ReadClaimsFacts(m, policy);
    CompleteFacts(lib, m, ReadClaims(m, policy), policy);
  }

  lemma {:induction false} GrantsCount(lib: Library, raw: seq<Value>)
    ensures ValidateGrants(lib, raw).Ok? ==> |ValidateGrants(lib, raw).value| == |raw|
  {
    if raw != [] { GrantsCount(lib, raw[1..]); }
  }

  lemma AcceptedIsSound(lib: Library, token: string, options: Options)
    ensures var r := VerifyEdgeCapability(lib, token, options); r.Ok? ==> Sound(r.value, options)
  {
    var r := VerifyEdgeCapability(lib, token, options);
    if r.Ok? {
      var raw := VerifySignature(lib, Strings.Split(token, '.'), options.jwks).value;
      assert raw.Record?;
      ClaimsetFacts(lib, Properties(raw.entries), PolicyOf(options));
    }
  }

  /** A v3 capability is accepted only before its expiry, with no skew. */
  lemma AcceptedOutage(lib: Library, token: string, options: Options)
    ensures var r := VerifyEdgeCapability(lib, token, options);
            r.Ok? && r.value.version == 3 ==> r.value.nbf <= options.now < r.value.exp
  {
    var r := VerifyEdgeCapability(lib, token, options);
    AcceptedIsSound(lib, token, options);
    if r.Ok? && r.value.version == 3 { OutageExactly(r.value, options.outage, options.now); }
  }

  // ----- the order of grants -----

  lemma {:induction false} GrantsValid(lib: Library, raw: seq<Value>)
    ensures ValidateGrants(lib, raw).Ok? <==> forall v | v in raw :: ValidateGrant(lib, v).Ok?
  {
    if raw != [] {
      GrantsValid(lib, raw[1..]);
      assert raw == [raw[0]] + raw[1..];
    }
  }

  lemma {:induction false} GrantsAt(lib: Library, raw: seq<Value>)
    requires ValidateGrants(lib, raw).Ok?
    ensures ValidateGrants(lib, raw).value == Map(raw, GrantOf(lib))
  {
    if raw != [] { GrantsAt(lib, raw[1..]); }
  }

  function GrantOf(lib: Library): Value -> Grant {
    (raw: Value) =>
      var g := ValidateGrant(lib, raw);
      if g.Ok? then g.value else Grant("", "", "", None, "")
  }

  lemma AllValidPermuted(lib: Library, a: seq<Value>, b: seq<Value>)
    requires multiset(a) == multiset(b) && ValidateGrants(lib, a).Ok?
    ensures ValidateGrants(lib, b).Ok?
  {
    GrantsValid(lib, a);
    GrantsValid(lib, b);
    forall v | v in b ensures v in a { assert v in multiset(b) && v in multiset(a); }
  }

  lemma TuplesPermuted(x: seq<Grant>, y: seq<Grant>)
    requires multiset(x) == multiset(y)
    ensures Distinct(Map(x, Tuple())) <==> Distinct(Map(y, Tuple()))
  {
    MapPermutes(x, y, Tuple());
    DistinctPermuted(Map(x, Tuple()), Map(y, Tuple()));
  }

  lemma GrantValuesPermuted(lib: Library, a: seq<Value>, b: seq<Value>)
    requires multiset(a) == multiset(b) && ValidateGrants(lib, a).Ok?
    ensures ValidateGrants(lib, b).Ok?
    ensures multiset(ValidateGrants(lib, a).value) == multiset(ValidateGrants(lib, b).value)
  {
    AllValidPermuted(lib, a, b);
    GrantsAt(lib, a);
    GrantsAt(lib, b);
    MapPermutes(a, b, GrantOf(lib));
  }

  /** Permuted grants are accepted together, and accepted as a permutation. */
  lemma GrantsPermuted(lib: Library, a: seq<Value>, b: seq<Value>)
    requires multiset(a) == multiset(b) && ReadGrants(lib, Some(List(a))).Ok?
    ensures ReadGrants(lib, Some(List(b))).Ok?
    ensures multiset(ReadGrants(lib, Some(List(a))).value) == multiset(ReadGrants(lib, Some(List(b))).value)
  {
    SameSize(a, b);
    GrantValuesPermuted(lib, a, b);
    TuplesPermuted(ValidateGrants(lib, a).value, ValidateGrants(lib, b).value);
  }

  /** Acceptance of claims does not depend on the order of their grants. */
  lemma ClaimsPermuted(lib: Library, m: Claimset, a: seq<Value>, b: seq<Value>, policy: Policy)
    requires multiset(a) == multiset(b)
    requires ValidateClaimset(lib, m["grants" := List(a)], policy).Ok?
    ensures ValidateClaimset(lib, m["grants" := List(b)], policy).Ok?
    ensures var x := ValidateClaimset(lib, m["grants" := List(a)], policy).value;
            var y := ValidateClaimset(lib, m["grants" := List(b)], policy).value;
            y == x.(grants := y.grants) && multiset(x.grants) == multiset(y.grants)
  {
    var ma, mb := m["grants" := List(a)], m["grants" := List(b)];
    assert ma.Keys == mb.Keys;
    GrantsPermuted(lib, a, b);
    ReadClaimsElsewhere(ma, mb, policy);
    ProvenanceElsewhere(ma, mb, ReadClaims(ma, policy).value.version, ReadClaims(ma, policy).value.iat);
  }

  /** The two claim sets differ in their grants alone. */
  predicate Elsewhere(a: Claimset, b: Claimset) {
    a.Keys == b.Keys && forall k | k in a && k != "grants" :: a[k] == b[k]
  }

  lemma IdentityElsewhere(a: Claimset, b: Claimset, policy: Policy)
    requires Elsewhere(a, b)
    ensures IdentityError(a, policy) == IdentityError(b, policy)
  {
    assert forall k | k != "grants" :: Get(a, k) == Get(b, k);
  }

  lemma ReadClaimsElsewhere(a: Claimset, b: Claimset, policy: Policy)
    requires Elsewhere(a, b)
    ensures ReadClaims(a, policy) == ReadClaims(b, policy)
  {
    assert forall k | k != "grants" :: Get(a, k) == Get(b, k);
    IdentityElsewhere(a, b, policy);
    assert ReadTimes(a) == ReadTimes(b);
    assert ValidateLineage(a, 2) == ValidateLineage(b, 2);
  }

  lemma ProvenanceElsewhere(a: Claimset, b: Claimset, version: int, iat: int)
    requires Elsewhere(a, b)
    ensures ValidateProvenance(a, version, iat) == ValidateProvenance(b, version, iat)
  {
  }
}
