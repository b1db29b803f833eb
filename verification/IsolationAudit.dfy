/**
 * The auditor of the private network isolation evidence
 * (infra-isolation/policy.mjs): four checks that push findings onto a list.
 *
 * JSON values are parsed records. A contract comes with the verdict of its
 * JSON schema; a snapshot or probe batch of the wrong JSON shape is `None`.
 * The contract digest, the digest of a list of areas, lower-casing and the
 * collation behind `localeCompare` belong to the environment.
 */
module IsolationAudit {
  import opened Common
  import opened Multisets
  import Ordering

  datatype Severity = Fail | Blocked

  datatype Finding = Finding(code: string, path: string, severity: Severity)

  datatype Area = Area(role: string, vpcId: Option<string>, region: Option<string>,
                       sourceSecurityGroup: Option<string>, workloadIdentity: Option<string>,
                       credentialRef: Option<string>)

  /** A project as the contract intends it. */
  datatype Intent = Intent(provider: string, role: string, projectId: Option<string>,
                           region: Option<string>, endpointIds: Option<seq<string>>)

  datatype Mapping = Mapping(neonOrg: Option<string>, supabaseOrg: Option<string>,
                             cloudflareDomain: Option<string>, slackChannel: Option<string>,
                             gcpProject: Option<string>, linearProject: Option<string>)

  datatype Contract = Contract(githubOrg: string, expectedState: string, mapping: Mapping,
                               areas: seq<Area>, projects: seq<Intent>)

  /** A project as it was observed. */
  datatype Project = Project(provider: string, role: string, projectId: string, orgId: string,
                             region: string, endpointIds: seq<string>, publicBlocked: bool,
                             publicServicesBlocked: bool, status: string, autoResume: bool,
                             allowedVpcEndpointIds: seq<string>)

  datatype Endpoint = Endpoint(endpointId: string, vpcId: string, region: string,
                               allowedSourceSecurityGroups: seq<string>, allowedPorts: seq<int>,
                               publicCidrs: seq<string>, projectIds: seq<string>)

  datatype Snapshot = Snapshot(githubOrg: string, contractDigest: string, observedAt: Option<int>,
                               collectionComplete: bool, errors: seq<string>, areas: seq<Area>,
                               projects: seq<Project>, endpoints: seq<Endpoint>,
                               crossAreaRoutes: seq<string>)

  datatype Outcome = Allowed | Denied | Inconclusive

  datatype Row = Row(provider: string, role: string, outcome: Outcome)

  datatype Batch = Batch(githubOrg: string, contractDigest: string, runId: string, source: string,
                         sourceVpcId: string, observedAt: Option<int>, baselineReachable: bool,
                         results: seq<Row>)

  datatype Env = Env(now: int, maxAge: int, contractDigest: string, areasDigest: seq<Area> -> string,
                     lower: string -> string, collate: (string, string) -> bool)

  const ROLES: seq<string> := ["canonical", "auth", "admin"]
  const SOURCES: seq<string> := ["canonical", "auth", "admin", "public", "foreign"]

  function Key(provider: string, role: string): string { provider + "/" + role }

  const PROJECT_KEYS: seq<string> := [
    Key("neon", "canonical"), Key("neon", "auth"), Key("neon", "admin"),
    Key("supabase", "canonical"), Key("supabase", "auth"), Key("supabase", "admin")]

  function Issue(code: string, path: string): Finding { Finding(code, path, Fail) }

  function When(bad: bool, finding: Finding): seq<Finding> { if bad then [finding] else [] }

  /** Equality of two lists of texts up to order. */
  predicate Same(a: seq<string>, b: seq<string>) {
    SortBy(a, Ordering.ByText()) == SortBy(b, Ordering.ByText())
  }

  function RolesOf(areas: seq<Area>): seq<string> { Map(areas, (a: Area) => a.role) }

  function IntentKeys(projects: seq<Intent>): seq<string> {
    Map(projects, (p: Intent) => Key(p.provider, p.role))
  }

  function ProjectKeys(projects: seq<Project>): seq<string> {
    Map(projects, (p: Project) => Key(p.provider, p.role))
  }

  function EndpointIds(endpoints: seq<Endpoint>): seq<string> {
    Map(endpoints, (e: Endpoint) => e.endpointId)
  }

  function RowKeys(rows: seq<Row>): seq<string> { Map(rows, (r: Row) => Key(r.provider, r.role)) }

  function Ids(expected: Intent): seq<string> {
    if expected.endpointIds.Some? then expected.endpointIds.value else []
  }

  function IdsOf(): Intent -> seq<string> { (p: Intent) => Ids(p) }

  function FindArea(areas: seq<Area>, role: string): Option<Area> {
    if areas == [] then None
    else if areas[0].role == role then Some(areas[0])
    else FindArea(areas[1..], role)
  }

  function FindProject(projects: seq<Project>, key: string): Option<Project> {
    if projects == [] then None
    else if Key(projects[0].provider, projects[0].role) == key then Some(projects[0])
    else FindProject(projects[1..], key)
  }

  function FindEndpoint(endpoints: seq<Endpoint>, id: string): Option<Endpoint> {
    if endpoints == [] then None
    else if endpoints[0].endpointId == id then Some(endpoints[0])
    else FindEndpoint(endpoints[1..], id)
  }

  // ----- contractFindings -----

  datatype AreaField = VpcId | SourceSecurityGroup | WorkloadIdentity | CredentialRef

  const AREA_FIELDS := [VpcId, SourceSecurityGroup, WorkloadIdentity, CredentialRef]

  function FieldName(field: AreaField): string {
    match field
    case VpcId => "vpcId"
    case SourceSecurityGroup => "sourceSecurityGroup"
    case WorkloadIdentity => "workloadIdentity"
    case CredentialRef => "credentialRef"
  }

  function FieldOf(a: Area, field: AreaField): Option<string> {
    match field
    case VpcId => a.vpcId
    case SourceSecurityGroup => a.sourceSecurityGroup
    case WorkloadIdentity => a.workloadIdentity
    case CredentialRef => a.credentialRef
  }

  /** The values of one field that are not `null`. */
  function FieldValues(areas: seq<Area>, field: AreaField): seq<string> {
    ConcatMap(areas, (a: Area) => if FieldOf(a, field).Some? then [FieldOf(a, field).value] else [])
  }

  function ProjectIds(projects: seq<Intent>): seq<string> {
    ConcatMap(projects, (p: Intent) =>
      if p.projectId.Some? then [p.provider + "/" + p.projectId.value] else [])
  }

  function SharedArea(c: Contract): AreaField -> seq<Finding> {
    (field: AreaField) =>
      When(!Unique(FieldValues(c.areas, field)), Issue("SHARED_AREA_" + FieldName(field), "/areas"))
  }

  /** The region an option holds; the empty text counts as none. */
  predicate Names(o: Option<string>) { o.Some? && o.value != "" }

  predicate RegionsDiffer(c: Contract, p: Intent) {
    var area := FindArea(c.areas, p.role);
    Names(p.region) && area.Some? && Names(area.value.region) && p.region != area.value.region
  }

  function RegionIssue(c: Contract): Intent -> seq<Finding> {
    (p: Intent) => When(RegionsDiffer(c, p), Issue("REGION_MISMATCH", "/projects/" + Key(p.provider, p.role)))
  }

  function SchemaIssues(paths: seq<string>): seq<Finding> {
    Map(paths, (path: string) => Issue("SCHEMA", path))
  }

  function ContractIssues(c: Contract): seq<Finding> {
    When(!Same(RolesOf(c.areas), ROLES), Issue("AREA_ROLES", "/areas"))
    + When(!Same(IntentKeys(c.projects), PROJECT_KEYS), Issue("PROJECT_ROLES", "/projects"))
    + ConcatMap(AREA_FIELDS, SharedArea(c))
    + When(!Unique(ProjectIds(c.projects)), Issue("SHARED_PROJECT_projectId", "/projects"))
    + When(!Unique(ConcatMap(c.projects, IdsOf())), Issue("SHARED_PROJECT_endpointIds", "/projects"))
    + ConcatMap(c.projects, RegionIssue(c))
  }

  method SharedAreaFindings(c: Contract, fields: seq<AreaField>) returns (f: seq<Finding>)
    ensures f == ConcatMap(fields, SharedArea(c))
  {
    f := [];
    for i := 0 to |fields|
      invariant f == ConcatMap(fields[..i], SharedArea(c))
    {
      ConcatMapSnoc(fields, i, SharedArea(c));
      var values := FieldValues(c.areas, fields[i]);
      f := f + When(!Unique(values), Issue("SHARED_AREA_" + FieldName(fields[i]), "/areas"));
    }
    assert fields[..|fields|] == fields;
  }

  method RegionFindings(c: Contract) returns (f: seq<Finding>)
    ensures f == ConcatMap(c.projects, RegionIssue(c))
  {
    f := [];
    for i := 0 to |c.projects|
      invariant f == ConcatMap(c.projects[..i], RegionIssue(c))
    {
      ConcatMapSnoc(c.projects, i, RegionIssue(c));
      var p := c.projects[i];
      f := f + When(RegionsDiffer(c, p), Issue("REGION_MISMATCH", "/projects/" + Key(p.provider, p.role)));
    }
    assert c.projects[..|c.projects|] == c.projects;
  }

  method ContractFindings(c: Contract) returns (f: seq<Finding>)
    ensures f == ContractIssues(c)
  {
    f := When(!Same(RolesOf(c.areas), ROLES), Issue("AREA_ROLES", "/areas"));
    f := f + When(!Same(IntentKeys(c.projects), PROJECT_KEYS), Issue("PROJECT_ROLES", "/projects"));
    var shared := SharedAreaFindings(c, AREA_FIELDS);
    f := f + shared;
    f := f + When(!Unique(ProjectIds(c.projects)), Issue("SHARED_PROJECT_projectId", "/projects"));
    f := f + When(!Unique(ConcatMap(c.projects, IdsOf())), Issue("SHARED_PROJECT_endpointIds", "/projects"));
    var regions := RegionFindings(c);
    f := f + regions;
  }

  // ----- readinessFindings -----

  /** The properties of a record, in the order of its schema, and whether each
      is `null`. */
  function MappingNulls(m: Mapping): seq<(string, bool)> {
    [("neonOrg", m.neonOrg.None?), ("supabaseOrg", m.supabaseOrg.None?),
     ("cloudflareDomain", m.cloudflareDomain.None?), ("slackChannel", m.slackChannel.None?),
     ("gcpProject", m.gcpProject.None?), ("linearProject", m.linearProject.None?)]
  }

  function AreaNulls(a: Area): seq<(string, bool)> {
    [("role", false), ("vpcId", a.vpcId.None?), ("region", a.region.None?),
     ("sourceSecurityGroup", a.sourceSecurityGroup.None?),
     ("workloadIdentity", a.workloadIdentity.None?), ("credentialRef", a.credentialRef.None?)]
  }

  function IntentNulls(p: Intent): seq<(string, bool)> {
    [("provider", false), ("role", false), ("projectId", p.projectId.None?),
     ("region", p.region.None?), ("endpointIds", p.endpointIds.None?)]
  }

  function NullIssues(code: string, path: string, entries: seq<(string, bool)>): seq<Finding> {
    if entries == [] then []
    else
      var last := entries[|entries| - 1];
      NullIssues(code, path, entries[..|entries| - 1]) + When(last.1, Finding(code, path + last.0, Blocked))
  }

  function AreaUnconfigured(): Area -> seq<Finding> {
    (a: Area) => NullIssues("AREA_UNCONFIGURED", "/areas/" + a.role + "/", AreaNulls(a))
  }

  function ProjectUnconfigured(): Intent -> seq<Finding> {
    (p: Intent) =>
      NullIssues("PROJECT_UNCONFIGURED", "/projects/" + Key(p.provider, p.role) + "/", IntentNulls(p))
  }

  function MappingIssues(m: Mapping): seq<Finding> {
    NullIssues("MAPPING_MISSING", "/mapping/", MappingNulls(m))
  }

  function UnconfiguredIssues(c: Contract): seq<Finding> {
    MappingIssues(c.mapping)
    + ConcatMap(c.areas, AreaUnconfigured())
    + ConcatMap(c.projects, ProjectUnconfigured())
  }

  function ReadinessIssues(contract: Result<Contract, seq<string>>): seq<Finding> {
    if contract.Err? then SchemaIssues(contract.error)
    else
      var c := contract.value;
      if ContractIssues(c) != [] then ContractIssues(c) else UnconfiguredIssues(c)
  }

  method NullFindings(code: string, path: string, entries: seq<(string, bool)>) returns (f: seq<Finding>)
    ensures f == NullIssues(code, path, entries)
  {
    f := [];
    for i := 0 to |entries|
      invariant f == NullIssues(code, path, entries[..i])
    {
      assert entries[..i + 1][..i] == entries[..i];
      f := f + When(entries[i].1, Finding(code, path + entries[i].0, Blocked));
    }
    assert entries[..|entries|] == entries;
  }

  method AreaNullFindings(areas: seq<Area>) returns (f: seq<Finding>)
    ensures f == ConcatMap(areas, AreaUnconfigured())
  {
    f := [];
    for i := 0 to |areas|
      invariant f == ConcatMap(areas[..i], AreaUnconfigured())
    {
      ConcatMapSnoc(areas, i, AreaUnconfigured());
      var nulls := NullFindings("AREA_UNCONFIGURED", "/areas/" + areas[i].role + "/", AreaNulls(areas[i]));
      f := f + nulls;
    }
    assert areas[..|areas|] == areas;
  }

  method ProjectNullFindings(projects: seq<Intent>) returns (f: seq<Finding>)
    ensures f == ConcatMap(projects, ProjectUnconfigured())
  {
    f := [];
    for i := 0 to |projects|
      invariant f == ConcatMap(projects[..i], ProjectUnconfigured())
    {
      ConcatMapSnoc(projects, i, ProjectUnconfigured());
      var p := projects[i];
      var path := "/projects/" + Key(p.provider, p.role) + "/";
      var nulls := NullFindings("PROJECT_UNCONFIGURED", path, IntentNulls(p));
      f := f + nulls;
    }
    assert projects[..|projects|] == projects;
  }

  method ReadinessFindings(contract: Result<Contract, seq<string>>) returns (f: seq<Finding>)
    ensures f == ReadinessIssues(contract)
  {
    if contract.Err? { return SchemaIssues(contract.error); }
    var c := contract.value;
    f := ContractFindings(c);
    if f != [] { return; }
    f := NullFindings("MAPPING_MISSING", "/mapping/", MappingNulls(c.mapping));
    var areas := AreaNullFindings(c.areas);
    var projects := ProjectNullFindings(c.projects);
    f := f + areas + projects;
  }

  // ----- auditSnapshot -----

  predicate Fresh(observedAt: Option<int>, env: Env) {
    observedAt.Some? && observedAt.value <= env.now + 30_000 && env.now - observedAt.value <= env.maxAge
  }

  /** A list of different, non-empty texts. */
  predicate Strings(a: seq<string>) { (forall x | x in a :: x != "") && Unique(a) }

  predicate ValidArea(a: Area) {
    a.role != "" && Names(a.vpcId) && Names(a.region) && Names(a.sourceSecurityGroup)
    && Names(a.workloadIdentity) && Names(a.credentialRef)
  }

  predicate ValidProject(p: Project) {
    p.provider != "" && p.role != "" && p.projectId != "" && p.orgId != "" && p.region != "" && p.status != ""
    && Strings(p.allowedVpcEndpointIds) && Strings(p.endpointIds)
  }

  predicate ValidEndpoint(e: Endpoint) {
    e.endpointId != "" && e.vpcId != "" && e.region != ""
    && Strings(e.allowedSourceSecurityGroups) && Strings(e.publicCidrs) && Strings(e.projectIds)
    && (forall port | port in e.allowedPorts :: 0 < port < 65536) && Unique(e.allowedPorts)
  }

  predicate ValidSnapshot(s: Snapshot) {
    && Strings(s.errors) && Strings(s.crossAreaRoutes)
    && (forall a | a in s.areas :: ValidArea(a))
    && (forall p | p in s.projects :: ValidProject(p))
    && (forall e | e in s.endpoints :: ValidEndpoint(e))
  }

  function ByRole(env: Env): (Area, Area) -> bool { (a: Area, b: Area) => env.collate(a.role, b.role) }

  function MappedOrg(m: Mapping, provider: string): Option<string> {
    if provider == "neon" then m.neonOrg
    else if provider == "supabase" then m.supabaseOrg
    else None
  }

  function AreaVpc(area: Option<Area>): Option<string> { if area.Some? then area.value.vpcId else None }

  function AreaRegion(area: Option<Area>): Option<string> { if area.Some? then area.value.region else None }

  function AreaGroup(area: Option<Area>): Option<string> {
    if area.Some? then area.value.sourceSecurityGroup else None
  }

  function PathOf(expected: Intent): string { "/projects/" + Key(expected.provider, expected.role) }

  predicate Exposed(e: Endpoint) {
    e.publicCidrs != [] || e.allowedPorts == [] || exists port | port in e.allowedPorts :: port !in {5432, 6543}
  }

  /** What is wrong with an endpoint of project `p`, which sits in `area`. */
  function EndpointIssues(path: string, area: Option<Area>, p: Project, e: Endpoint): seq<Finding> {
    When(Some(e.vpcId) != AreaVpc(area) || Some(e.region) != AreaRegion(area), Issue("ENDPOINT_AREA_DRIFT", path))
    + When(!Same(e.projectIds, [p.projectId]), Issue("ENDPOINT_PROJECT_DRIFT", path))
    + When(AreaGroup(area).None? || !Same(e.allowedSourceSecurityGroups, [AreaGroup(area).value]),
           Issue("ENDPOINT_SOURCE_DRIFT", path))
    + When(Exposed(e), Issue("ENDPOINT_EXPOSURE", path))
  }

  function EndpointAudit(path: string, area: Option<Area>, p: Project, endpoints: seq<Endpoint>)
    : string -> seq<Finding>
  {
    (id: string) =>
      var e := FindEndpoint(endpoints, id);
      if e.None? then [] else EndpointIssues(path, area, p, e.value)
  }

  function ConfigurationIssues(c: Contract, expected: Intent, p: Project): seq<Finding> {
    var path := PathOf(expected);
    When(Some(p.projectId) != expected.projectId, Issue("PROJECT_DRIFT", path + "/projectId"))
    + When(Some(p.region) != expected.region, Issue("PROJECT_DRIFT", path + "/region"))
    + When(!Same(p.endpointIds, Ids(expected)), Issue("PROJECT_DRIFT", path + "/endpointIds"))
    + When(Some(p.orgId) != MappedOrg(c.mapping, p.provider), Issue("PROJECT_ORG_DRIFT", path + "/orgId"))
  }

  function AccessIssues(c: Contract, expected: Intent, p: Project): seq<Finding> {
    var path := PathOf(expected);
    When(!p.publicBlocked || !p.publicServicesBlocked, Issue("PUBLIC_ACCESS", path))
    + When(!Same(p.allowedVpcEndpointIds, Ids(expected)), Issue("VPC_RESTRICTION", path))
    + When(p.status != c.expectedState || (c.expectedState == "paused" && p.autoResume),
           Issue("PAUSE_STATE_DRIFT", path))
  }

  /** What is wrong with the observed project itself. */
  function DriftIssues(c: Contract, expected: Intent, p: Project): seq<Finding> {
    ConfigurationIssues(c, expected, p) + AccessIssues(c, expected, p)
  }

  function ProjectAudit(c: Contract, s: Snapshot): Intent -> seq<Finding> {
    (expected: Intent) =>
      var p := FindProject(s.projects, Key(expected.provider, expected.role));
      if p.None? then []
      else
        DriftIssues(c, expected, p.value)
        + ConcatMap(Ids(expected),
                    EndpointAudit(PathOf(expected), FindArea(c.areas, p.value.role), p.value, s.endpoints))
  }

  predicate AreasDiffer(env: Env, c: Contract, s: Snapshot) {
    env.areasDigest(SortBy(s.areas, ByRole(env))) != env.areasDigest(SortBy(c.areas, ByRole(env)))
  }

  function EnvelopeIssues(env: Env, c: Contract, s: Snapshot): seq<Finding> {
    When(env.lower(s.githubOrg) != env.lower(c.githubOrg), Issue("WRONG_ORG", "/githubOrg"))
    + When(s.contractDigest != env.contractDigest, Issue("WRONG_CONTRACT", "/contractDigest"))
    + When(!Fresh(s.observedAt, env), Issue("STALE_EVIDENCE", "/observedAt"))
    + When(!s.collectionComplete || s.errors != [],
           Finding("INCOMPLETE_COLLECTION", "/collectionComplete", Blocked))
    + When(s.crossAreaRoutes != [], Issue("CROSS_AREA_ROUTE", "/crossAreaRoutes"))
  }

  function SetIssues(env: Env, c: Contract, s: Snapshot): seq<Finding> {
    When(AreasDiffer(env, c, s), Issue("AREA_DRIFT", "/areas"))
    + When(!Same(ProjectKeys(s.projects), IntentKeys(c.projects)), Issue("PROJECT_SET_DRIFT", "/projects"))
    + When(!Same(EndpointIds(s.endpoints), ConcatMap(c.projects, IdsOf())),
           Issue("ENDPOINT_SET_DRIFT", "/endpoints"))
  }

  function AuditIssues(env: Env, c: Contract, s: Snapshot): seq<Finding> {
    EnvelopeIssues(env, c, s) + SetIssues(env, c, s) + ConcatMap(c.projects, ProjectAudit(c, s))
  }

  function SnapshotIssues(env: Env, contract: Result<Contract, seq<string>>, snapshot: Option<Snapshot>)
    : seq<Finding>
  {
    if ReadinessIssues(contract) != [] || contract.Err? then ReadinessIssues(contract)
    else if snapshot.None? || !ValidSnapshot(snapshot.value) then [Issue("SNAPSHOT_SCHEMA", "/")]
    else AuditIssues(env, contract.value, snapshot.value)
  }

  method EndpointFindings(path: string, area: Option<Area>, p: Project, endpoints: seq<Endpoint>, ids: seq<string>)
    returns (f: seq<Finding>)
    ensures f == ConcatMap(ids, EndpointAudit(path, area, p, endpoints))
  {
    f := [];
    for i := 0 to |ids|
      invariant f == ConcatMap(ids[..i], EndpointAudit(path, area, p, endpoints))
    {
      ConcatMapSnoc(ids, i, EndpointAudit(path, area, p, endpoints));
      var found := FindEndpoint(endpoints, ids[i]);
      if found.None? { continue; }
      var e := found.value;
      var here := When(Some(e.vpcId) != AreaVpc(area) || Some(e.region) != AreaRegion(area),
                       Issue("ENDPOINT_AREA_DRIFT", path));
      here := here + When(!Same(e.projectIds, [p.projectId]), Issue("ENDPOINT_PROJECT_DRIFT", path));
      here := here + When(AreaGroup(area).None? || !Same(e.allowedSourceSecurityGroups, [AreaGroup(area).value]),
                          Issue("ENDPOINT_SOURCE_DRIFT", path));
      here := here + When(Exposed(e), Issue("ENDPOINT_EXPOSURE", path));
      f := f + here;
    }
    assert ids[..|ids|] == ids;
  }

  method DriftFindings(c: Contract, expected: Intent, p: Project) returns (f: seq<Finding>)
    ensures f == DriftIssues(c, expected, p)
  {
    var path := PathOf(expected);
    f := When(Some(p.projectId) != expected.projectId, Issue("PROJECT_DRIFT", path + "/projectId"));
    f := f + When(Some(p.region) != expected.region, Issue("PROJECT_DRIFT", path + "/region"));
    f := f + When(!Same(p.endpointIds, Ids(expected)), Issue("PROJECT_DRIFT", path + "/endpointIds"));
    f := f + When(Some(p.orgId) != MappedOrg(c.mapping, p.provider),
                  Issue("PROJECT_ORG_DRIFT", path + "/orgId"));
    var access := When(!p.publicBlocked || !p.publicServicesBlocked, Issue("PUBLIC_ACCESS", path));
    access := access + When(!Same(p.allowedVpcEndpointIds, Ids(expected)), Issue("VPC_RESTRICTION", path));
    access := access + When(p.status != c.expectedState || (c.expectedState == "paused" && p.autoResume),
                            Issue("PAUSE_STATE_DRIFT", path));
    f := f + access;
  }

  method ProjectFindings(c: Contract, s: Snapshot) returns (f: seq<Finding>)
    ensures f == ConcatMap(c.projects, ProjectAudit(c, s))
  {
    f := [];
    for i := 0 to |c.projects|
      invariant f == ConcatMap(c.projects[..i], ProjectAudit(c, s))
    {
      ConcatMapSnoc(c.projects, i, ProjectAudit(c, s));
      var expected := c.projects[i];
      var p := FindProject(s.projects, Key(expected.provider, expected.role));
      if p.None? { continue; }
      var area := FindArea(c.areas, p.value.role);
      var drift := DriftFindings(c, expected, p.value);
      var ends := EndpointFindings(PathOf(expected), area, p.value, s.endpoints, Ids(expected));
      f := f + (drift + ends);
    }
    assert c.projects[..|c.projects|] == c.projects;
  }

  method AuditSnapshot(env: Env, contract: Result<Contract, seq<string>>, snapshot: Option<Snapshot>)
    returns (f: seq<Finding>)
    ensures f == SnapshotIssues(env, contract, snapshot)
  {
    f := ReadinessFindings(contract);
    if f != [] || contract.Err? { return; }
    if snapshot.None? || !ValidSnapshot(snapshot.value) { return [Issue("SNAPSHOT_SCHEMA", "/")]; }
    var c, s := contract.value, snapshot.value;
    f := When(env.lower(s.githubOrg) != env.lower(c.githubOrg), Issue("WRONG_ORG", "/githubOrg"));
    f := f + When(s.contractDigest != env.contractDigest, Issue("WRONG_CONTRACT", "/contractDigest"));
    f := f + When(!Fresh(s.observedAt, env), Issue("STALE_EVIDENCE", "/observedAt"));
    f := f + When(!s.collectionComplete || s.errors != [],
                  Finding("INCOMPLETE_COLLECTION", "/collectionComplete", Blocked));
    f := f + When(s.crossAreaRoutes != [], Issue("CROSS_AREA_ROUTE", "/crossAreaRoutes"));
    assert f == EnvelopeIssues(env, c, s);
    var sets := When(AreasDiffer(env, c, s), Issue("AREA_DRIFT", "/areas"));
    sets := sets + When(!Same(ProjectKeys(s.projects), IntentKeys(c.projects)),
                        Issue("PROJECT_SET_DRIFT", "/projects"));
    sets := sets + When(!Same(EndpointIds(s.endpoints), ConcatMap(c.projects, IdsOf())),
                        Issue("ENDPOINT_SET_DRIFT", "/endpoints"));
    var projects := ProjectFindings(c, s);
    f := f + sets + projects;
  }
}
