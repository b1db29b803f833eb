/**
 * What the snapshot auditor certifies: its findings are empty exactly when the
 * declarative isolation requirement below holds, and that requirement keeps
 * the private areas apart.
 */
module IsolationSpec {
  import opened Common
  import opened Multisets
  import opened IsolationAudit
  import Ordering

  /** What the JSON schema of a contract has established. */
  ghost predicate SchemaHolds(c: Contract) {
    && (forall a | a in c.areas :: a.role in ROLES && a.region != Some(""))
    && (forall p | p in c.projects ::
          p.role in ROLES && p.provider in ["neon", "supabase"] && p.region != Some(""))
  }

  ghost predicate Sound(env: Env) {
    && IsOrder(env.collate)
    && (forall x, y | x in ROLES && y in ROLES && env.collate(x, y) && env.collate(y, x) :: x == y)
  }

  /** The digests of these two lists of areas do not collide. */
  predicate NoCollision(env: Env, a: seq<Area>, b: seq<Area>) {
    env.areasDigest(a) == env.areasDigest(b) ==> a == b
  }

  predicate AreaConfigured(a: Area) {
    a.vpcId.Some? && a.region.Some? && a.sourceSecurityGroup.Some? && a.workloadIdentity.Some?
    && a.credentialRef.Some?
  }

  predicate IntentConfigured(p: Intent) { p.projectId.Some? && p.region.Some? && p.endpointIds.Some? }

  predicate MappingConfigured(m: Mapping) {
    m.neonOrg.Some? && m.supabaseOrg.Some? && m.cloudflareDomain.Some? && m.slackChannel.Some?
    && m.gcpProject.Some? && m.linearProject.Some?
  }

  ghost predicate Configured(c: Contract) {
    && MappingConfigured(c.mapping)
    && (forall i | 0 <= i < |c.areas| :: AreaConfigured(c.areas[i]))
    && (forall i | 0 <= i < |c.projects| :: IntentConfigured(c.projects[i]))
  }

  ghost predicate RolesComplete(c: Contract) {
    && multiset(RolesOf(c.areas)) == multiset(ROLES)
    && multiset(IntentKeys(c.projects)) == multiset(PROJECT_KEYS)
  }

  predicate NoSharedField(c: Contract, field: AreaField) {
    forall i, j | 0 <= i < j < |c.areas| :: FieldOf(c.areas[i], field) != FieldOf(c.areas[j], field)
  }

  predicate NoSharedProject(c: Contract) {
    forall i, j | 0 <= i < j < |c.projects| && c.projects[i].provider == c.projects[j].provider ::
      c.projects[i].projectId != c.projects[j].projectId
  }

  predicate OneRegion(c: Contract) {
    forall p, a | p in c.projects && a in c.areas && a.role == p.role :: p.region == a.region
  }

  /** The contract is complete, has one area per role and one project per
      provider and role, and shares no private resource. */
  ghost predicate Ready(c: Contract) {
    && Configured(c)
    && RolesComplete(c)
    && (forall field: AreaField :: NoSharedField(c, field))
    && NoSharedProject(c)
    && DistinctAcross(c.projects, IdsOf())
    && OneRegion(c)
  }

  // ----- comparing lists up to order -----

  lemma TextOrder()
    ensures IsOrder(Ordering.ByText())
    ensures forall x, y :: Ordering.ByText()(x, y) && Ordering.ByText()(y, x) ==> x == y
  {
    forall x: string, y: string
      ensures !Ordering.Less(y, x) || !Ordering.Less(x, y)
      ensures !Ordering.Less(y, x) && !Ordering.Less(x, y) ==> x == y
    {
      Ordering.LessTotal(x, y);
    }
    forall x: string, y: string, z: string
      ensures !Ordering.Less(y, x) && !Ordering.Less(z, y) ==> !Ordering.Less(z, x)
    {
      Ordering.LessTotal(x, y);
      Ordering.LessTotal(y, z);
      Ordering.LessTotal(x, z);
      if Ordering.Less(x, y) && Ordering.Less(y, z) { Ordering.LessTransitive(x, y, z); }
    }
  }

  /** `same` is equality of multisets. */
  lemma SameExactly(a: seq<string>, b: seq<string>)
    ensures Same(a, b) <==> multiset(a) == multiset(b)
  {
    TextOrder();
    SortedExactly(a, b, Ordering.ByText());
  }

  lemma SameSingleton(a: seq<string>, x: string)
    ensures Same(a, [x]) <==> a == [x]
  {
    SameExactly(a, [x]);
    if multiset(a) == multiset([x]) {
      SameSize(a, [x]);
      assert a[0] in multiset([x]);
    }
  }

  lemma KeyExact(provider: string, role: string, p: string, r: string)
    requires '/' !in provider && '/' !in role
    ensures Key(provider, role) == Key(p, r) <==> provider == p && role == r
  {
    var k, l := Key(provider, role), Key(p, r);
    if k == l {
      assert l[|p|] == '/' && k[|provider|] == '/';
      assert forall i | 0 <= i < |k| && k[i] == '/' :: i == |provider|;
      assert provider == k[..|provider|] && p == l[..|p|];
      assert role == k[|provider| + 1..] && r == l[|p| + 1..];
    }
  }

  // ----- contracts -----

  lemma FieldValuesConfigured(areas: seq<Area>, field: AreaField)
    requires forall i | 0 <= i < |areas| :: AreaConfigured(areas[i])
    ensures |FieldValues(areas, field)| == |areas|
    ensures forall i | 0 <= i < |areas| :: Some(FieldValues(areas, field)[i]) == FieldOf(areas[i], field)
  {
    if areas != [] {
      var n := |areas| - 1;
      FieldValuesConfigured(areas[..n], field);
    }
  }

  lemma SharedFieldExactly(c: Contract, field: AreaField)
    requires Configured(c)
    ensures SharedArea(c)(field) == [] <==> NoSharedField(c, field)
  {
    var values := FieldValues(c.areas, field);
    FieldValuesConfigured(c.areas, field);
    SetSize(values);
    assert forall i | 0 <= i < |c.areas| :: FieldOf(c.areas[i], field) == Some(values[i]);
  }

  lemma SharedAreaExactly(c: Contract)
    requires Configured(c)
    ensures ConcatMap(AREA_FIELDS, SharedArea(c)) == [] <==> forall field: AreaField :: NoSharedField(c, field)
  {
    SharedFieldExactly(c, VpcId);
    SharedFieldExactly(c, SourceSecurityGroup);
    SharedFieldExactly(c, WorkloadIdentity);
    SharedFieldExactly(c, CredentialRef);
    ConcatMapFour(VpcId, SourceSecurityGroup, WorkloadIdentity, CredentialRef, SharedArea(c));
  }

  lemma ProjectIdsConfigured(projects: seq<Intent>)
    requires forall i | 0 <= i < |projects| :: IntentConfigured(projects[i])
    ensures |ProjectIds(projects)| == |projects|
    ensures forall i | 0 <= i < |projects| :: projects[i].projectId.Some?
              && ProjectIds(projects)[i] == Key(projects[i].provider, projects[i].projectId.value)
  {
    if projects != [] {
      var n := |projects| - 1;
      ProjectIdsConfigured(projects[..n]);
    }
  }

  lemma SharedProjectExactly(c: Contract)
    requires Configured(c) && SchemaHolds(c)
    ensures Unique(ProjectIds(c.projects)) <==> NoSharedProject(c)
  {
    var ids := ProjectIds(c.projects);
    ProjectIdsConfigured(c.projects);
    SetSize(ids);
    forall i, j | 0 <= i < j < |c.projects|
      ensures ids[i] == ids[j] <==>
              c.projects[i].provider == c.projects[j].provider && c.projects[i].projectId == c.projects[j].projectId
    {
      var p, q := c.projects[i], c.projects[j];
      PrefixExact(p.provider, p.projectId.value, q.provider, q.projectId.value);
    }
  }

  /** Providers hold no slash, whatever the identifiers hold. */
  lemma PrefixExact(provider: string, id: string, p: string, r: string)
    requires '/' !in provider && '/' !in p
    ensures Key(provider, id) == Key(p, r) <==> provider == p && id == r
  {
    var k, l := Key(provider, id), Key(p, r);
    if k == l {
      assert l[|p|] == '/' && k[|provider|] == '/';
      assert forall i | 0 <= i < |provider| :: k[i] == provider[i] && k[i] != '/';
      assert forall i | 0 <= i < |p| :: l[i] == p[i] && l[i] != '/';
      assert provider == k[..|provider|] && p == l[..|p|];
      assert id == k[|provider| + 1..] && r == l[|p| + 1..];
    }
  }

  lemma {:induction false} FindAreaExactly(areas: seq<Area>, role: string)
    ensures FindArea(areas, role).Some? <==> exists i :: 0 <= i < |areas| && areas[i].role == role
    ensures FindArea(areas, role).Some? ==>
              FindArea(areas, role).value in areas && FindArea(areas, role).value.role == role
  {
    if areas != [] && areas[0].role != role {
      FindAreaExactly(areas[1..], role);
      if i :| 0 <= i < |areas| && areas[i].role == role { assert areas[1..][i - 1].role == role; }
    }
  }

  /** With one area per role, the area found is the area of the role. */
  lemma TheArea(areas: seq<Area>, a: Area)
    requires multiset(RolesOf(areas)) == multiset(ROLES) && a in areas
    ensures FindArea(areas, a.role) == Some(a)
  {
    FindAreaExactly(areas, a.role);
    var i :| 0 <= i < |areas| && areas[i] == a;
    assert areas[i].role == a.role;
    var b := FindArea(areas, a.role).value;
    var j :| 0 <= j < |areas| && areas[j] == b;
    var roles := RolesOf(areas);
    RolesOnce(a.role);
    OncePlace(roles, i, j);
  }

  lemma RolesOnce(role: string)
    ensures multiset(ROLES)[role] == if role in ROLES then 1 else 0
  {
    assert ROLES[0] != ROLES[1] && ROLES[1] != ROLES[2] && ROLES[0] != ROLES[2];
    assert Distinct(ROLES);
    DistinctOnce(ROLES);
    Occurrences(ROLES, role);
  }

  lemma RegionsExactly(c: Contract)
    requires Configured(c) && SchemaHolds(c) && multiset(RolesOf(c.areas)) == multiset(ROLES)
    ensures ConcatMap(c.projects, RegionIssue(c)) == [] <==> OneRegion(c)
  {
    ConcatMapEmpty(c.projects, RegionIssue(c));
    forall p, a | p in c.projects && a in c.areas && a.role == p.role
      ensures RegionIssue(c)(p) == [] <==> p.region == a.region
    {
      TheArea(c.areas, a);
      assert AreaConfigured(a) && IntentConfigured(p);
    }
    if OneRegion(c) {
      forall i | 0 <= i < |c.projects| ensures RegionIssue(c)(c.projects[i]) == [] {
        FindAreaExactly(c.areas, c.projects[i].role);
      }
    }
  }

  lemma ContractParts(c: Contract, roles: seq<string>, keys: seq<string>, fields: seq<AreaField>)
    requires roles == ROLES && keys == PROJECT_KEYS && fields == AREA_FIELDS
    ensures ContractIssues(c) == [] <==>
            && Same(RolesOf(c.areas), roles) && Same(IntentKeys(c.projects), keys)
            && ConcatMap(fields, SharedArea(c)) == [] && Unique(ProjectIds(c.projects))
            && Unique(ConcatMap(c.projects, IdsOf())) && ConcatMap(c.projects, RegionIssue(c)) == []
  {
  }

  lemma RolesExactly(c: Contract)
    ensures Same(RolesOf(c.areas), ROLES) && Same(IntentKeys(c.projects), PROJECT_KEYS) <==> RolesComplete(c)
  {
    SameExactly(RolesOf(c.areas), ROLES);
    SameExactly(IntentKeys(c.projects), PROJECT_KEYS);
  }

  lemma UniqueIdsExactly(c: Contract)
    ensures Unique(ConcatMap(c.projects, IdsOf())) <==> DistinctAcross(c.projects, IdsOf())
  {
    SetSize(ConcatMap(c.projects, IdsOf()));
    DistinctConcatMap(c.projects, IdsOf());
  }

  lemma ContractExactly(c: Contract)
    requires Configured(c) && SchemaHolds(c)
    ensures ContractIssues(c) == [] <==> Ready(c)
  {
    ContractParts(c, ROLES, PROJECT_KEYS, AREA_FIELDS);
    RolesExactly(c);
    SharedAreaExactly(c);
    SharedProjectExactly(c);
    UniqueIdsExactly(c);
    if RolesComplete(c) { RegionsExactly(c); }
  }

  lemma {:induction false} NullExactly(code: string, path: string, entries: seq<(string, bool)>)
    ensures NullIssues(code, path, entries) == [] <==> forall i | 0 <= i < |entries| :: !entries[i].1
  {
    if entries != [] {
      var n := |entries| - 1;
      NullExactly(code, path, entries[..n]);
      if NullIssues(code, path, entries) == [] {
        forall i | 0 <= i < |entries| ensures !entries[i].1 {
          if i < n { assert !entries[..n][i].1; }
        }
      }
    }
  }

  lemma MappingExactly(m: Mapping)
    ensures MappingIssues(m) == [] <==> MappingConfigured(m)
  {
    var e := MappingNulls(m);
    NullExactly("MAPPING_MISSING", "/mapping/", e);
    assert |e| == 6 && e[0].1 == m.neonOrg.None? && e[1].1 == m.supabaseOrg.None?
        && e[2].1 == m.cloudflareDomain.None? && e[3].1 == m.slackChannel.None?
        && e[4].1 == m.gcpProject.None? && e[5].1 == m.linearProject.None?;
  }

  lemma AreaNullsExactly(a: Area)
    ensures AreaUnconfigured()(a) == [] <==> AreaConfigured(a)
  {
    var e := AreaNulls(a);
    NullExactly("AREA_UNCONFIGURED", "/areas/" + a.role + "/", e);
    assert |e| == 6 && !e[0].1 && e[1].1 == a.vpcId.None? && e[2].1 == a.region.None?
        && e[3].1 == a.sourceSecurityGroup.None? && e[4].1 == a.workloadIdentity.None?
        && e[5].1 == a.credentialRef.None?;
  }

  lemma IntentNullsExactly(p: Intent)
    ensures ProjectUnconfigured()(p) == [] <==> IntentConfigured(p)
  {
    var e := IntentNulls(p);
    NullExactly("PROJECT_UNCONFIGURED", "/projects/" + Key(p.provider, p.role) + "/", e);
    assert |e| == 5 && !e[0].1 && !e[1].1 && e[2].1 == p.projectId.None? && e[3].1 == p.region.None?
        && e[4].1 == p.endpointIds.None?;
  }

  lemma AreasConfigured(areas: seq<Area>)
    ensures ConcatMap(areas, AreaUnconfigured()) == [] <==>
            forall i | 0 <= i < |areas| :: AreaConfigured(areas[i])
  {
    ConcatMapEmpty(areas, AreaUnconfigured());
    forall a ensures AreaUnconfigured()(a) == [] <==> AreaConfigured(a) { AreaNullsExactly(a); }
  }

  lemma IntentsConfigured(projects: seq<Intent>)
    ensures ConcatMap(projects, ProjectUnconfigured()) == [] <==>
            forall i | 0 <= i < |projects| :: IntentConfigured(projects[i])
  {
    ConcatMapEmpty(projects, ProjectUnconfigured());
    forall p ensures ProjectUnconfigured()(p) == [] <==> IntentConfigured(p) { IntentNullsExactly(p); }
  }

  lemma SumEmpty<T>(a: seq<T>, b: seq<T>, c: seq<T>)
    ensures a + b + c == [] <==> a == [] && b == [] && c == []
  {
  }

  lemma ConfiguredExactly(c: Contract)
    ensures UnconfiguredIssues(c) == [] <==> Configured(c)
  {
    MappingExactly(c.mapping);
    AreasConfigured(c.areas);
    IntentsConfigured(c.projects);
    SumEmpty(MappingIssues(c.mapping), ConcatMap(c.areas, AreaUnconfigured()),
             ConcatMap(c.projects, ProjectUnconfigured()));
  }

  /** A contract has no findings exactly when it is ready. */
  lemma ReadyExactly(c: Contract)
    requires SchemaHolds(c)
    ensures ReadinessIssues(Ok(c)) == [] <==> Ready(c)
  {
    ConfiguredExactly(c);
    if Configured(c) { ContractExactly(c); }
  }

  // ----- snapshots -----

  function AllIds(c: Contract): seq<string> { ConcatMap(c.projects, IdsOf()) }

  /** At most half a minute ahead of the clock, and not too old. */
  predicate Timely(observedAt: Option<int>, env: Env) {
    observedAt.Some? && env.now - env.maxAge <= observedAt.value <= env.now + 30_000
  }

  // ----- the form of a snapshot -----

  predicate Filled(texts: seq<string>) { "" !in texts }

  /** Non-empty texts, no two alike. */
  predicate TextSet(texts: seq<string>) { Filled(texts) && Distinct(texts) }

  predicate AreaForm(a: Area) {
    && a.vpcId.Some? && a.region.Some? && a.sourceSecurityGroup.Some? && a.workloadIdentity.Some? && a.credentialRef.Some?
    && Filled([a.role, a.vpcId.value, a.region.value, a.sourceSecurityGroup.value, a.workloadIdentity.value,
               a.credentialRef.value])
  }

  predicate ProjectForm(p: Project) {
    && Filled([p.provider, p.role, p.projectId, p.orgId, p.region, p.status])
    && TextSet(p.allowedVpcEndpointIds) && TextSet(p.endpointIds)
  }

  predicate EndpointForm(e: Endpoint) {
    && Filled([e.endpointId, e.vpcId, e.region])
    && TextSet(e.allowedSourceSecurityGroups) && TextSet(e.publicCidrs) && TextSet(e.projectIds)
    && (forall port | port in e.allowedPorts :: 1 <= port <= 65535) && Distinct(e.allowedPorts)
  }

  predicate SnapshotForm(s: Snapshot) {
    && TextSet(s.errors) && TextSet(s.crossAreaRoutes)
    && (forall a | a in s.areas :: AreaForm(a)) && (forall p | p in s.projects :: ProjectForm(p))
    && (forall e | e in s.endpoints :: EndpointForm(e))
  }

  lemma TextSetExactly(texts: seq<string>)
    ensures Strings(texts) <==> TextSet(texts)
  {
    SetSize(texts);
  }

  lemma ProjectFormExactly(p: Project)
    ensures ValidProject(p) <==> ProjectForm(p)
  {
    TextSetExactly(p.allowedVpcEndpointIds);
    TextSetExactly(p.endpointIds);
  }

  lemma EndpointFormExactly(e: Endpoint)
    ensures ValidEndpoint(e) <==> EndpointForm(e)
  {
    TextSetExactly(e.allowedSourceSecurityGroups);
    TextSetExactly(e.publicCidrs);
    TextSetExactly(e.projectIds);
    SetSize(e.allowedPorts);
  }

  lemma AreaFormExactly(a: Area)
    ensures ValidArea(a) <==> AreaForm(a)
  {
  }

  lemma SnapshotFormExactly(s: Snapshot)
    ensures ValidSnapshot(s) <==> SnapshotForm(s)
  {
    TextSetExactly(s.errors);
    TextSetExactly(s.crossAreaRoutes);
    forall a | a in s.areas ensures ValidArea(a) <==> AreaForm(a) { AreaFormExactly(a); }
    forall p | p in s.projects ensures ValidProject(p) <==> ProjectForm(p) { ProjectFormExactly(p); }
    forall e | e in s.endpoints ensures ValidEndpoint(e) <==> EndpointForm(e) { EndpointFormExactly(e); }
  }

  ghost predicate Evidence(env: Env, c: Contract, s: Snapshot) {
    && env.lower(s.githubOrg) == env.lower(c.githubOrg)
    && s.contractDigest == env.contractDigest
    && Timely(s.observedAt, env)
    && s.collectionComplete && s.errors == [] && s.crossAreaRoutes == []
  }

  /** The observed things are the contracted things, each once. */
  ghost predicate SameInventory(c: Contract, s: Snapshot) {
    && multiset(s.areas) == multiset(c.areas)
    && multiset(ProjectKeys(s.projects)) == multiset(IntentKeys(c.projects))
    && multiset(EndpointIds(s.endpoints)) == multiset(AllIds(c))
  }

  /** The identifiers the contract gives, in any order. */
  predicate SameIds(ids: seq<string>, expected: Intent) {
    match expected.endpointIds
    case Some(contracted) => multiset(ids) == multiset(contracted)
    case None => ids == []
  }

  ghost predicate ProjectAsIntended(c: Contract, expected: Intent, p: Project) {
    && Some(p.projectId) == expected.projectId
    && Some(p.region) == expected.region
    && SameIds(p.endpointIds, expected)
    && Some(p.orgId) == (match p.provider case "neon" => c.mapping.neonOrg case "supabase" => c.mapping.supabaseOrg case _ => None)
    && p.publicBlocked && p.publicServicesBlocked
    && SameIds(p.allowedVpcEndpointIds, expected)
    && p.status == c.expectedState
    && !(c.expectedState == "paused" && p.autoResume)
  }

  /** The endpoint serves project `p` alone, from the area of its role alone. */
  ghost predicate EndpointAsIntended(a: Area, p: Project, e: Endpoint) {
    && Some(e.vpcId) == a.vpcId
    && Some(e.region) == a.region
    && e.projectIds == [p.projectId]
    && a.sourceSecurityGroup.Some? && e.allowedSourceSecurityGroups == [a.sourceSecurityGroup.value]
    && e.publicCidrs == []
    && e.allowedPorts != [] && (forall port | port in e.allowedPorts :: port in {5432, 6543})
  }

  predicate Observes(expected: Intent, p: Project) {
    Key(p.provider, p.role) == Key(expected.provider, expected.role)
  }

  /** Every observation of an intended project is as intended, and so are its endpoints. */
  ghost predicate AsIntended(c: Contract, s: Snapshot, expected: Intent, p: Project) {
    && ProjectAsIntended(c, expected, p)
    && (forall a, e | a in c.areas && a.role == expected.role && e in s.endpoints && e.endpointId in Ids(expected) ::
          EndpointAsIntended(a, p, e))
  }

  ghost predicate Realized(c: Contract, s: Snapshot, expected: Intent) {
    forall p | p in s.projects && Observes(expected, p) :: AsIntended(c, s, expected, p)
  }

  ghost predicate Isolated(env: Env, c: Contract, s: Snapshot) {
    && SnapshotForm(s)
    && Evidence(env, c, s)
    && SameInventory(c, s)
    && (forall i | 0 <= i < |c.projects| :: Realized(c, s, c.projects[i]))
  }

  lemma {:induction false} FindProjectExactly(projects: seq<Project>, key: string)
    ensures var p := FindProject(projects, key);
            p.Some? ==> p.value in projects && Key(p.value.provider, p.value.role) == key
    ensures FindProject(projects, key).None? ==>
              forall p | p in projects :: Key(p.provider, p.role) != key
  {
    if projects != [] && Key(projects[0].provider, projects[0].role) != key {
      FindProjectExactly(projects[1..], key);
      assert projects == [projects[0]] + projects[1..];
    }
  }

  lemma {:induction false} FindEndpointExactly(endpoints: seq<Endpoint>, id: string)
    ensures var e := FindEndpoint(endpoints, id); e.Some? ==> e.value in endpoints && e.value.endpointId == id
    ensures FindEndpoint(endpoints, id).None? ==> forall e | e in endpoints :: e.endpointId != id
  {
    if endpoints != [] && endpoints[0].endpointId != id {
      FindEndpointExactly(endpoints[1..], id);
      assert endpoints == [endpoints[0]] + endpoints[1..];
    }
  }

  lemma KeyAt(i: nat)
    requires i < 6
    ensures PROJECT_KEYS[i] == Key(if i < 3 then "neon" else "supabase", ROLES[i % 3])
  {
  }

  lemma KeysDiffer(i: nat, j: nat)
    requires i < j < 6
    ensures PROJECT_KEYS[i] != PROJECT_KEYS[j]
  {
    KeyAt(i);
    KeyAt(j);
    KeyExact(if i < 3 then "neon" else "supabase", ROLES[i % 3], if j < 3 then "neon" else "supabase", ROLES[j % 3]);
  }

  lemma KeysOnce(key: string)
    ensures multiset(PROJECT_KEYS)[key] <= 1
  {
    var keys := PROJECT_KEYS;
    forall i, j | 0 <= i < j < |keys| ensures keys[i] != keys[j] { KeysDiffer(i, j); }
    AtMostOnce(keys, key);
  }

  /** With each key once, the project found is the only one with its key. */
  lemma TheProject(projects: seq<Project>, p: Project)
    requires p in projects && multiset(ProjectKeys(projects))[Key(p.provider, p.role)] <= 1
    ensures FindProject(projects, Key(p.provider, p.role)) == Some(p)
  {
    var key := Key(p.provider, p.role);
    FindProjectExactly(projects, key);
    var q := FindProject(projects, key).value;
    var i :| 0 <= i < |projects| && projects[i] == p;
    var j :| 0 <= j < |projects| && projects[j] == q;
    OncePlace(ProjectKeys(projects), i, j);
  }

  lemma TheEndpoint(endpoints: seq<Endpoint>, e: Endpoint)
    requires e in endpoints && multiset(EndpointIds(endpoints))[e.endpointId] <= 1
    ensures FindEndpoint(endpoints, e.endpointId) == Some(e)
  {
    FindEndpointExactly(endpoints, e.endpointId);
    var q := FindEndpoint(endpoints, e.endpointId).value;
    var i :| 0 <= i < |endpoints| && endpoints[i] == e;
    var j :| 0 <= j < |endpoints| && endpoints[j] == q;
    OncePlace(EndpointIds(endpoints), i, j);
  }

  lemma EndpointExactly(path: string, a: Area, p: Project, e: Endpoint)
    ensures EndpointIssues(path, Some(a), p, e) == [] <==> EndpointAsIntended(a, p, e)
  {
    SameSingleton(e.projectIds, p.projectId);
    if a.sourceSecurityGroup.Some? { SameSingleton(e.allowedSourceSecurityGroups, a.sourceSecurityGroup.value); }
  }

  lemma DriftExactly(c: Contract, expected: Intent, p: Project)
    ensures DriftIssues(c, expected, p) == [] <==> ProjectAsIntended(c, expected, p)
  {
    SameExactly(p.endpointIds, Ids(expected));
    SameExactly(p.allowedVpcEndpointIds, Ids(expected));
  }

  lemma EndpointsExactly(path: string, a: Area, p: Project, endpoints: seq<Endpoint>, ids: seq<string>)
    requires forall e | e in endpoints :: multiset(EndpointIds(endpoints))[e.endpointId] <= 1
    ensures ConcatMap(ids, EndpointAudit(path, Some(a), p, endpoints)) == [] <==>
            forall e | e in endpoints && e.endpointId in ids :: EndpointAsIntended(a, p, e)
  {
    var audit := EndpointAudit(path, Some(a), p, endpoints);
    ConcatMapEmpty(ids, audit);
    forall e | e in endpoints ensures audit(e.endpointId) == [] <==> EndpointAsIntended(a, p, e) {
      TheEndpoint(endpoints, e);
      EndpointExactly(path, a, p, e);
    }
    forall id ensures audit(id) == [] || exists e :: e in endpoints && e.endpointId == id {
      FindEndpointExactly(endpoints, id);
    }
  }

  /** `a` is the one area of its role. */
  ghost predicate OnlyArea(areas: seq<Area>, a: Area) {
    && a in areas && FindArea(areas, a.role) == Some(a)
    && forall b | b in areas && b.role == a.role :: b == a
  }

  lemma RoleHasArea(areas: seq<Area>, role: string) returns (a: Area)
    requires multiset(RolesOf(areas)) == multiset(ROLES) && role in ROLES
    ensures OnlyArea(areas, a) && a.role == role
  {
    RolesOnce(role);
    var roles := RolesOf(areas);
    Occurrences(roles, role);
    var i :| 0 <= i < |roles| && roles[i] == role;
    a := areas[i];
    TheArea(areas, a);
    forall b | b in areas && b.role == role ensures b == a { TheArea(areas, b); }
  }

  lemma NoSlash(role: string)
    requires role in ROLES
    ensures '/' !in role
  {
  }

  lemma ObservedRole(expected: Intent, p: Project)
    requires expected.provider in ["neon", "supabase"] && expected.role in ROLES && Observes(expected, p)
    ensures p.provider == expected.provider && p.role == expected.role
  {
    NoSlash(expected.role);
    KeyExact(expected.provider, expected.role, p.provider, p.role);
  }

  /** No two observed projects share a key, and no two endpoints an identifier. */
  ghost predicate Unambiguous(s: Snapshot) {
    && (forall p | p in s.projects :: multiset(ProjectKeys(s.projects))[Key(p.provider, p.role)] <= 1)
    && (forall e | e in s.endpoints :: multiset(EndpointIds(s.endpoints))[e.endpointId] <= 1)
  }

  lemma InventoryUnambiguous(c: Contract, s: Snapshot)
    requires Ready(c) && SameInventory(c, s)
    ensures Unambiguous(s)
  {
    forall p | p in s.projects ensures multiset(ProjectKeys(s.projects))[Key(p.provider, p.role)] <= 1 {
      KeysOnce(Key(p.provider, p.role));
    }
    forall e | e in s.endpoints ensures multiset(EndpointIds(s.endpoints))[e.endpointId] <= 1 {
      DistinctConcatMap(c.projects, IdsOf());
      AtMostOnce(AllIds(c), e.endpointId);
    }
  }

  /** The auditor looks at the first match; it is the only one. */
  lemma ProjectAuditExactly(c: Contract, s: Snapshot, expected: Intent, p: Project, a: Area)
    requires Unambiguous(s) && p in s.projects && Observes(expected, p)
    requires p.role == expected.role == a.role && OnlyArea(c.areas, a)
    ensures ProjectAudit(c, s)(expected) == [] <==> AsIntended(c, s, expected, p)
  {
    TheProject(s.projects, p);
    DriftExactly(c, expected, p);
    EndpointsExactly(PathOf(expected), a, p, s.endpoints, Ids(expected));
  }

  lemma RealizedExactly(c: Contract, s: Snapshot, expected: Intent, a: Area)
    requires Unambiguous(s) && OnlyArea(c.areas, a) && a.role == expected.role
    requires expected.provider in ["neon", "supabase"] && expected.role in ROLES
    ensures ProjectAudit(c, s)(expected) == [] <==> Realized(c, s, expected)
  {
    FindProjectExactly(s.projects, Key(expected.provider, expected.role));
    forall p | p in s.projects && Observes(expected, p)
      ensures ProjectAudit(c, s)(expected) == [] <==> AsIntended(c, s, expected, p)
    {
      ObservedRole(expected, p);
      ProjectAuditExactly(c, s, expected, p, a);
    }
  }

  lemma IntentExactly(c: Contract, s: Snapshot, expected: Intent)
    requires Unambiguous(s) && multiset(RolesOf(c.areas)) == multiset(ROLES)
    requires expected.provider in ["neon", "supabase"] && expected.role in ROLES
    ensures ProjectAudit(c, s)(expected) == [] <==> Realized(c, s, expected)
  {
    var a := RoleHasArea(c.areas, expected.role);
    RealizedExactly(c, s, expected, a);
  }

  lemma ProjectsExactly(c: Contract, s: Snapshot)
    requires SchemaHolds(c) && multiset(RolesOf(c.areas)) == multiset(ROLES) && Unambiguous(s)
    ensures ConcatMap(c.projects, ProjectAudit(c, s)) == [] <==>
            forall i | 0 <= i < |c.projects| :: Realized(c, s, c.projects[i])
  {
    ConcatMapEmpty(c.projects, ProjectAudit(c, s));
    forall i | 0 <= i < |c.projects|
      ensures ProjectAudit(c, s)(c.projects[i]) == [] <==> Realized(c, s, c.projects[i])
    {
      IntentExactly(c, s, c.projects[i]);
    }
  }

  lemma AreasSeparated(env: Env, areas: seq<Area>)
    requires Sound(env) && multiset(RolesOf(areas)) == multiset(ROLES) && forall a | a in areas :: a.role in ROLES
    ensures IsOrder(ByRole(env)) && Separates(areas, ByRole(env))
  {
    var leq := ByRole(env);
    forall i, j | 0 <= i < |areas| && 0 <= j < |areas| && leq(areas[i], areas[j]) && leq(areas[j], areas[i])
      ensures areas[i] == areas[j]
    {
      assert areas[i].role in ROLES && areas[j].role in ROLES;
      TheArea(areas, areas[i]);
      TheArea(areas, areas[j]);
    }
    ByRoleOrder(env);
  }

  lemma ByRoleOrder(env: Env)
    requires IsOrder(env.collate)
    ensures IsOrder(ByRole(env))
  {
    var leq := ByRole(env);
    forall x, y ensures leq(x, y) || leq(y, x) {
      assert env.collate(x.role, y.role) || env.collate(y.role, x.role);
    }
    forall x, y, z ensures leq(x, y) && leq(y, z) ==> leq(x, z) {
      assert env.collate(x.role, y.role) && env.collate(y.role, z.role) ==> env.collate(x.role, z.role);
    }
  }

  lemma AreasExactly(env: Env, c: Contract, s: Snapshot)
    requires Sound(env) && SchemaHolds(c) && RolesComplete(c)
    requires NoCollision(env, SortBy(s.areas, ByRole(env)), SortBy(c.areas, ByRole(env)))
    ensures !AreasDiffer(env, c, s) <==> multiset(s.areas) == multiset(c.areas)
  {
    AreasSeparated(env, c.areas);
    SortedExactly(c.areas, s.areas, ByRole(env));
  }

  lemma InventoryExactly(env: Env, c: Contract, s: Snapshot)
    requires Sound(env) && SchemaHolds(c) && RolesComplete(c)
    requires NoCollision(env, SortBy(s.areas, ByRole(env)), SortBy(c.areas, ByRole(env)))
    ensures SetIssues(env, c, s) == [] <==> SameInventory(c, s)
  {
    AreasExactly(env, c, s);
    SameExactly(ProjectKeys(s.projects), IntentKeys(c.projects));
    SameExactly(EndpointIds(s.endpoints), AllIds(c));
  }

  lemma EvidenceExactly(env: Env, c: Contract, s: Snapshot)
    ensures EnvelopeIssues(env, c, s) == [] <==> Evidence(env, c, s)
  {
  }

  /** The audit of a snapshot is silent exactly when the contract is ready and
      the snapshot shows it isolated. */
  lemma SnapshotExactly(env: Env, c: Contract, s: Snapshot)
    requires Sound(env) && SchemaHolds(c)
    requires NoCollision(env, SortBy(s.areas, ByRole(env)), SortBy(c.areas, ByRole(env)))
    ensures SnapshotIssues(env, Ok(c), Some(s)) == [] <==> Ready(c) && Isolated(env, c, s)
  {
    ReadyExactly(c);
    SnapshotCases(env, c, s);
    SnapshotFormExactly(s);
    if Ready(c) && ValidSnapshot(s) { AuditExactly(env, c, s); }
  }

  lemma SnapshotCases(env: Env, c: Contract, s: Snapshot)
    ensures SnapshotIssues(env, Ok(c), Some(s)) == [] <==>
            ReadinessIssues(Ok(c)) == [] && ValidSnapshot(s) && AuditIssues(env, c, s) == []
  {
  }

  lemma AuditExactly(env: Env, c: Contract, s: Snapshot)
    requires Sound(env) && SchemaHolds(c) && Ready(c) && ValidSnapshot(s)
    requires NoCollision(env, SortBy(s.areas, ByRole(env)), SortBy(c.areas, ByRole(env)))
    ensures AuditIssues(env, c, s) == [] <==> Isolated(env, c, s)
  {
    SnapshotFormExactly(s);
    EvidenceExactly(env, c, s);
    InventoryExactly(env, c, s);
    if SameInventory(c, s) {
      InventoryUnambiguous(c, s);
      ProjectsExactly(c, s);
    }
    SumEmpty(EnvelopeIssues(env, c, s), SetIssues(env, c, s), ConcatMap(c.projects, ProjectAudit(c, s)));
  }

  // ----- what isolation entails -----

  /** Every contracted endpoint is observed exactly once, and no other is. */
  lemma OneEndpointPerId(c: Contract, s: Snapshot, id: string)
    requires DistinctAcross(c.projects, IdsOf()) && multiset(EndpointIds(s.endpoints)) == multiset(AllIds(c))
    ensures id in AllIds(c) <==> exists k :: 0 <= k < |s.endpoints| && s.endpoints[k].endpointId == id
    ensures multiset(EndpointIds(s.endpoints))[id] == if id in AllIds(c) then 1 else 0
  {
    var ids := EndpointIds(s.endpoints);
    Occurrences(AllIds(c), id);
    Occurrences(ids, id);
    if id in ids {
      var k :| 0 <= k < |ids| && ids[k] == id;
      assert s.endpoints[k].endpointId == id;
    }
    if k :| 0 <= k < |s.endpoints| && s.endpoints[k].endpointId == id { assert ids[k] == id; }
    DistinctConcatMap(c.projects, IdsOf());
    AtMostOnce(AllIds(c), id);
  }

  lemma IntentObserved(c: Contract, s: Snapshot, i: nat) returns (p: Project)
    requires i < |c.projects| && multiset(ProjectKeys(s.projects)) == multiset(IntentKeys(c.projects))
    ensures p in s.projects && Observes(c.projects[i], p)
  {
    var keys := ProjectKeys(s.projects);
    var key := IntentKeys(c.projects)[i];
    Occurrences(IntentKeys(c.projects), key);
    Occurrences(keys, key);
    var j :| 0 <= j < |keys| && keys[j] == key;
    p := s.projects[j];
  }

  /** The intended project, the observed project and the area an endpoint belongs to. */
  lemma Placement(env: Env, c: Contract, s: Snapshot, e: Endpoint) returns (i: nat, p: Project, a: Area)
    requires SchemaHolds(c) && Ready(c) && Isolated(env, c, s) && e in s.endpoints
    ensures i < |c.projects| && e.endpointId in Ids(c.projects[i])
    ensures forall j | 0 <= j < |c.projects| && e.endpointId in Ids(c.projects[j]) :: j == i
    ensures p in s.projects && Observes(c.projects[i], p) && Some(p.projectId) == c.projects[i].projectId
    ensures a in c.areas && a.role == c.projects[i].role && EndpointAsIntended(a, p, e)
  {
    var k :| 0 <= k < |s.endpoints| && s.endpoints[k] == e;
    OneEndpointPerId(c, s, e.endpointId);
    ConcatMapIn(c.projects, IdsOf(), e.endpointId);
    i :| 0 <= i < |c.projects| && e.endpointId in IdsOf()(c.projects[i]);
    forall j | 0 <= j < |c.projects| && e.endpointId in Ids(c.projects[j]) ensures j == i {
      assert e.endpointId in IdsOf()(c.projects[j]);
    }
    p := IntentObserved(c, s, i);
    a := RoleHasArea(c.areas, c.projects[i].role);
    assert Realized(c, s, c.projects[i]);
  }

  lemma AreasApart(c: Contract, a: Area, b: Area, p: Project, q: Project, e: Endpoint, f: Endpoint)
    requires NoSharedField(c, VpcId) && NoSharedField(c, SourceSecurityGroup)
    requires a in c.areas && b in c.areas && a != b
    requires EndpointAsIntended(a, p, e) && EndpointAsIntended(b, q, f)
    ensures e.vpcId != f.vpcId
    ensures forall g | g in e.allowedSourceSecurityGroups :: g !in f.allowedSourceSecurityGroups
  {
    var k :| 0 <= k < |c.areas| && c.areas[k] == a;
    var l :| 0 <= l < |c.areas| && c.areas[l] == b;
    assert FieldOf(a, VpcId) != FieldOf(b, VpcId);
    assert FieldOf(a, SourceSecurityGroup) != FieldOf(b, SourceSecurityGroup);
  }

  /** Nothing reaches both endpoints from inside, and nothing reaches the first from outside. */
  ghost predicate KeptApart(e: Endpoint, f: Endpoint) {
    && e.vpcId != f.vpcId
    && e.publicCidrs == []
    && forall g | g in e.allowedSourceSecurityGroups :: g !in f.allowedSourceSecurityGroups
  }

  /** Endpoints of different roles sit in different private networks, admit
      disjoint groups of sources, and none is open to the public. */
  lemma RolesKeptApart(env: Env, c: Contract, s: Snapshot, e: Endpoint, f: Endpoint, i: nat, j: nat)
    requires SchemaHolds(c) && Ready(c) && Isolated(env, c, s) && e in s.endpoints && f in s.endpoints
    requires i < |c.projects| && e.endpointId in Ids(c.projects[i])
    requires j < |c.projects| && f.endpointId in Ids(c.projects[j])
    requires c.projects[i].role != c.projects[j].role
    ensures KeptApart(e, f)
  {
    var i', p, a := Placement(env, c, s, e);
    var j', q, b := Placement(env, c, s, f);
    AreasApart(c, a, b, p, q, e, f);
  }

  /** What a passing audit certifies: each contracted endpoint exists once, each
      endpoint serves one observed project of one contracted role, and endpoints
      of different roles are kept apart. */
  ghost predicate Certified(c: Contract, s: Snapshot) {
    && (forall id :: multiset(EndpointIds(s.endpoints))[id] == if id in AllIds(c) then 1 else 0)
    && (forall e | e in s.endpoints :: exists i :: OnlyOwner(c, s, e, i))
    && (forall e, f, i, j | e in s.endpoints && f in s.endpoints && OnlyOwner(c, s, e, i) && OnlyOwner(c, s, f, j)
                            && c.projects[i].role != c.projects[j].role :: KeptApart(e, f))
  }

  /** Project `i` is the only one contracted for the endpoint, and the endpoint serves it alone. */
  ghost predicate OnlyOwner(c: Contract, s: Snapshot, e: Endpoint, i: int) {
    && 0 <= i < |c.projects| && e.endpointId in Ids(c.projects[i])
    && (forall j | 0 <= j < |c.projects| && e.endpointId in Ids(c.projects[j]) :: j == i)
    && c.projects[i].projectId.Some? && e.projectIds == [c.projects[i].projectId.value]
  }

  lemma EveryEndpointOwned(env: Env, c: Contract, s: Snapshot, e: Endpoint)
    requires SchemaHolds(c) && Ready(c) && Isolated(env, c, s) && e in s.endpoints
    ensures exists i :: OnlyOwner(c, s, e, i)
  {
    var i, p, a := Placement(env, c, s, e);
    assert OnlyOwner(c, s, e, i);
  }

  lemma IsolationCertifies(env: Env, c: Contract, s: Snapshot)
    requires SchemaHolds(c) && Ready(c) && Isolated(env, c, s)
    ensures Certified(c, s)
  {
    forall id ensures multiset(EndpointIds(s.endpoints))[id] == if id in AllIds(c) then 1 else 0 {
      OneEndpointPerId(c, s, id);
    }
    forall e | e in s.endpoints ensures exists i :: OnlyOwner(c, s, e, i) { EveryEndpointOwned(env, c, s, e); }
    forall e, f, i, j | e in s.endpoints && f in s.endpoints && OnlyOwner(c, s, e, i) && OnlyOwner(c, s, f, j)
                        && c.projects[i].role != c.projects[j].role
      ensures KeptApart(e, f)
    {
      RolesKeptApart(env, c, s, e, f, i, j);
    }
  }

  lemma SilenceCertifies(env: Env, c: Contract, s: Snapshot)
    requires Sound(env) && SchemaHolds(c)
    requires NoCollision(env, SortBy(s.areas, ByRole(env)), SortBy(c.areas, ByRole(env)))
    requires SnapshotIssues(env, Ok(c), Some(s)) == []
    ensures Certified(c, s)
  {
    SnapshotExactly(env, c, s);
    IsolationCertifies(env, c, s);
  }
}
