/**
 * The verdict of an audit does not depend on the order of the evidence: not on
 * the order of areas, projects, endpoints and probe batches, nor on the order
 * of the lists inside them.
 */
module IsolationOrder {
  import opened Common
  import opened Multisets
  import opened IsolationAudit
  import opened IsolationSpec
  import opened IsolationProbes

  datatype Verdict = Pass | Held | Failed

  predicate HasFail(f: seq<Finding>) { exists i :: 0 <= i < |f| && f[i].severity == Fail }

  /** `verdict` */
  function VerdictOf(f: seq<Finding>): Verdict {
    if HasFail(f) then Failed else if f != [] then Held else Pass
  }

  // ----- evidence up to order -----

  datatype ProjectShape = ProjectShape(project: Project, ids: multiset<string>, allowed: multiset<string>)

  function ShapeOfProject(): Project -> ProjectShape {
    (p: Project) => ProjectShape(p.(endpointIds := [], allowedVpcEndpointIds := []),
                                 multiset(p.endpointIds), multiset(p.allowedVpcEndpointIds))
  }

  datatype EndpointShape = EndpointShape(endpoint: Endpoint, groups: multiset<string>, ports: multiset<int>,
                                         cidrs: multiset<string>, ids: multiset<string>)

  function ShapeOfEndpoint(): Endpoint -> EndpointShape {
    (e: Endpoint) => EndpointShape(
      e.(allowedSourceSecurityGroups := [], allowedPorts := [], publicCidrs := [], projectIds := []),
      multiset(e.allowedSourceSecurityGroups), multiset(e.allowedPorts),
      multiset(e.publicCidrs), multiset(e.projectIds))
  }

  datatype BatchShape = BatchShape(batch: Option<Batch>, rows: multiset<Row>)

  function ShapeOfBatch(): Option<Batch> -> BatchShape {
    (b: Option<Batch>) =>
      if b.Some? then BatchShape(Some(b.value.(results := [])), multiset(b.value.results))
      else BatchShape(None, multiset{})
  }

  /** The same snapshot with its lists, and the lists in them, in another order. */
  ghost predicate Reordered(s: Snapshot, t: Snapshot) {
    && s.githubOrg == t.githubOrg && s.contractDigest == t.contractDigest && s.observedAt == t.observedAt
    && s.collectionComplete == t.collectionComplete
    && multiset(s.errors) == multiset(t.errors)
    && multiset(s.crossAreaRoutes) == multiset(t.crossAreaRoutes)
    && multiset(s.areas) == multiset(t.areas)
    && multiset(Map(s.projects, ShapeOfProject())) == multiset(Map(t.projects, ShapeOfProject()))
    && multiset(Map(s.endpoints, ShapeOfEndpoint())) == multiset(Map(t.endpoints, ShapeOfEndpoint()))
  }

  ghost predicate ReorderedBatches(a: seq<Option<Batch>>, b: seq<Option<Batch>>) {
    multiset(Map(a, ShapeOfBatch())) == multiset(Map(b, ShapeOfBatch()))
  }

  lemma ReorderedSymmetric(s: Snapshot, t: Snapshot)
    requires Reordered(s, t)
    ensures Reordered(t, s)
  {
  }

  /** Elements of one arrangement have a counterpart in the other. */
  lemma Counterpart<A, B>(a: seq<A>, b: seq<A>, g: A -> B, x: A) returns (y: A)
    requires multiset(Map(a, g)) == multiset(Map(b, g)) && x in a
    ensures y in b && g(y) == g(x)
  {
    var i :| 0 <= i < |a| && a[i] == x;
    assert Map(a, g)[i] in multiset(Map(a, g));
    var j :| 0 <= j < |b| && Map(b, g)[j] == g(x);
    y := b[j];
  }

  lemma StringsReordered(a: seq<string>, b: seq<string>)
    requires multiset(a) == multiset(b)
    ensures Strings(a) <==> Strings(b)
    ensures a == [] <==> b == []
  {
    SameSize(a, b);
    UniqueReordered(a, b);
    forall x ensures x in a <==> x in b { assert x in multiset(a) <==> x in multiset(b); }
  }

  lemma UniqueReordered<T>(a: seq<T>, b: seq<T>)
    requires multiset(a) == multiset(b)
    ensures Unique(a) <==> Unique(b)
  {
    SetSize(a);
    SetSize(b);
    DistinctOnce(a);
    DistinctOnce(b);
    forall x ensures x in a <==> x in b { assert x in multiset(a) <==> x in multiset(b); }
  }

  lemma ValidProjectShape(p: Project, q: Project)
    requires ShapeOfProject()(p) == ShapeOfProject()(q)
    ensures ValidProject(p) <==> ValidProject(q)
    ensures Key(p.provider, p.role) == Key(q.provider, q.role)
  {
    StringsReordered(p.endpointIds, q.endpointIds);
    StringsReordered(p.allowedVpcEndpointIds, q.allowedVpcEndpointIds);
    assert p.(endpointIds := [], allowedVpcEndpointIds := []) == q.(endpointIds := [], allowedVpcEndpointIds := []);
  }

  lemma IntendedProjectShape(c: Contract, expected: Intent, p: Project, q: Project)
    requires ShapeOfProject()(p) == ShapeOfProject()(q)
    ensures ProjectAsIntended(c, expected, p) <==> ProjectAsIntended(c, expected, q)
    ensures Observes(expected, p) <==> Observes(expected, q)
    ensures p.projectId == q.projectId
  {
    assert p.(endpointIds := [], allowedVpcEndpointIds := []) == q.(endpointIds := [], allowedVpcEndpointIds := []);
  }

  lemma ScalarsOfEndpoint(e: Endpoint, f: Endpoint)
    requires ShapeOfEndpoint()(e) == ShapeOfEndpoint()(f)
    ensures e.endpointId == f.endpointId && e.vpcId == f.vpcId && e.region == f.region
    ensures multiset(e.allowedSourceSecurityGroups) == multiset(f.allowedSourceSecurityGroups)
    ensures multiset(e.allowedPorts) == multiset(f.allowedPorts)
    ensures multiset(e.publicCidrs) == multiset(f.publicCidrs) && multiset(e.projectIds) == multiset(f.projectIds)
  {
    assert ShapeOfEndpoint()(e).endpoint == ShapeOfEndpoint()(f).endpoint;
  }

  lemma ValidEndpointShape(e: Endpoint, f: Endpoint)
    requires ShapeOfEndpoint()(e) == ShapeOfEndpoint()(f)
    ensures ValidEndpoint(e) <==> ValidEndpoint(f)
  {
    ScalarsOfEndpoint(e, f);
    StringsReordered(e.allowedSourceSecurityGroups, f.allowedSourceSecurityGroups);
    StringsReordered(e.publicCidrs, f.publicCidrs);
    StringsReordered(e.projectIds, f.projectIds);
    UniqueReordered(e.allowedPorts, f.allowedPorts);
    forall x ensures x in e.allowedPorts <==> x in f.allowedPorts {
      assert x in multiset(e.allowedPorts) <==> x in multiset(f.allowedPorts);
    }
  }

  lemma SingletonReordered(a: seq<string>, b: seq<string>, x: string)
    requires multiset(a) == multiset(b)
    ensures a == [x] <==> b == [x]
  {
    SameSingleton(a, x);
    SameSingleton(b, x);
    SameExactly(a, [x]);
    SameExactly(b, [x]);
  }

  lemma IntendedEndpointShape(a: Area, p: Project, q: Project, e: Endpoint, f: Endpoint)
    requires ShapeOfEndpoint()(e) == ShapeOfEndpoint()(f) && p.projectId == q.projectId
    ensures EndpointAsIntended(a, p, e) <==> EndpointAsIntended(a, q, f)
  {
    ScalarsOfEndpoint(e, f);
    SingletonReordered(e.projectIds, f.projectIds, p.projectId);
    if a.sourceSecurityGroup.Some? {
      SingletonReordered(e.allowedSourceSecurityGroups, f.allowedSourceSecurityGroups, a.sourceSecurityGroup.value);
    }
    SameSize(e.publicCidrs, f.publicCidrs);
    SameSize(e.allowedPorts, f.allowedPorts);
    forall x ensures x in e.allowedPorts <==> x in f.allowedPorts {
      assert x in multiset(e.allowedPorts) <==> x in multiset(f.allowedPorts);
    }
  }

  // ----- snapshots -----

  lemma ValidReordered(s: Snapshot, t: Snapshot)
    requires Reordered(s, t) && ValidSnapshot(s)
    ensures ValidSnapshot(t)
  {
    StringsReordered(s.errors, t.errors);
    StringsReordered(s.crossAreaRoutes, t.crossAreaRoutes);
    forall a | a in t.areas ensures ValidArea(a) { assert a in multiset(s.areas); }
    forall p | p in t.projects ensures ValidProject(p) {
      var q := Counterpart(t.projects, s.projects, ShapeOfProject(), p);
      ValidProjectShape(p, q);
    }
    forall e | e in t.endpoints ensures ValidEndpoint(e) {
      var f := Counterpart(t.endpoints, s.endpoints, ShapeOfEndpoint(), e);
      ValidEndpointShape(e, f);
    }
  }

  lemma RealizedReordered(c: Contract, s: Snapshot, t: Snapshot, expected: Intent)
    requires Reordered(s, t) && Realized(c, s, expected)
    ensures Realized(c, t, expected)
  {
    forall p | p in t.projects && Observes(expected, p) ensures AsIntended(c, t, expected, p) {
      var q := Counterpart(t.projects, s.projects, ShapeOfProject(), p);
      IntendedProjectShape(c, expected, p, q);
      forall a, e | a in c.areas && a.role == expected.role && e in t.endpoints && e.endpointId in Ids(expected)
        ensures EndpointAsIntended(a, p, e)
      {
        var f := Counterpart(t.endpoints, s.endpoints, ShapeOfEndpoint(), e);
        ScalarsOfEndpoint(e, f);
        IntendedEndpointShape(a, p, q, e, f);
      }
    }
  }

  function KeyOfShape(): ProjectShape -> string { (x: ProjectShape) => Key(x.project.provider, x.project.role) }

  function IdOfShape(): EndpointShape -> string { (x: EndpointShape) => x.endpoint.endpointId }

  lemma InventoryReordered(c: Contract, s: Snapshot, t: Snapshot)
    requires Reordered(s, t) && SameInventory(c, s)
    ensures SameInventory(c, t)
  {
    KeysReordered(s, t);
  }

  lemma KeysReordered(s: Snapshot, t: Snapshot)
    requires Reordered(s, t)
    ensures multiset(ProjectKeys(s.projects)) == multiset(ProjectKeys(t.projects))
    ensures multiset(EndpointIds(s.endpoints)) == multiset(EndpointIds(t.endpoints))
  {
    MapPermutes(Map(s.projects, ShapeOfProject()), Map(t.projects, ShapeOfProject()), KeyOfShape());
    MapPermutes(Map(s.endpoints, ShapeOfEndpoint()), Map(t.endpoints, ShapeOfEndpoint()), IdOfShape());
    KeysByShape(s);
    KeysByShape(t);
  }

  lemma KeysByShape(s: Snapshot)
    ensures ProjectKeys(s.projects) == Map(Map(s.projects, ShapeOfProject()), KeyOfShape())
    ensures EndpointIds(s.endpoints) == Map(Map(s.endpoints, ShapeOfEndpoint()), IdOfShape())
  {
  }

  // ----- severities -----

  lemma HasFailConcat(a: seq<Finding>, b: seq<Finding>)
    ensures HasFail(a + b) <==> HasFail(a) || HasFail(b)
  {
    var c := a + b;
    if HasFail(a) {
      var i :| 0 <= i < |a| && a[i].severity == Fail;
      assert c[i].severity == Fail;
    }
    if HasFail(b) {
      var i :| 0 <= i < |b| && b[i].severity == Fail;
      assert c[|a| + i].severity == Fail;
    }
    if HasFail(c) {
      var i :| 0 <= i < |c| && c[i].severity == Fail;
      assert if i < |a| then a[i].severity == Fail else b[i - |a|].severity == Fail;
    }
  }

  predicate AllFail(f: seq<Finding>) { forall x | x in f :: x.severity == Fail }

  lemma AllFailHasFail(f: seq<Finding>)
    requires AllFail(f)
    ensures HasFail(f) <==> f != []
  {
    if f != [] { assert f[0] in f; }
  }

  lemma {:induction false} ConcatMapAllFail<A>(xs: seq<A>, g: A -> seq<Finding>)
    requires forall i | 0 <= i < |xs| :: AllFail(g(xs[i]))
    ensures AllFail(ConcatMap(xs, g))
  {
    if xs != [] { ConcatMapAllFail(xs[..|xs| - 1], g); }
  }

  lemma EndpointAuditFails(path: string, area: Option<Area>, p: Project, endpoints: seq<Endpoint>, ids: seq<string>)
    ensures AllFail(ConcatMap(ids, EndpointAudit(path, area, p, endpoints)))
  {
    ConcatMapAllFail(ids, EndpointAudit(path, area, p, endpoints));
  }

  lemma DriftFails(c: Contract, expected: Intent, p: Project)
    ensures AllFail(DriftIssues(c, expected, p))
  {
    AllFailConcat(ConfigurationIssues(c, expected, p), AccessIssues(c, expected, p));
  }

  lemma AllFailConcat(a: seq<Finding>, b: seq<Finding>)
    requires AllFail(a) && AllFail(b)
    ensures AllFail(a + b)
  {
  }

  lemma ProjectAuditFails(c: Contract, s: Snapshot)
    ensures AllFail(ConcatMap(c.projects, ProjectAudit(c, s)))
  {
    forall i | 0 <= i < |c.projects| ensures AllFail(ProjectAudit(c, s)(c.projects[i])) {
      var expected := c.projects[i];
      var p := FindProject(s.projects, Key(expected.provider, expected.role));
      if p.Some? {
        var area := FindArea(c.areas, p.value.role);
        EndpointAuditFails(PathOf(expected), area, p.value, s.endpoints, Ids(expected));
        DriftFails(c, expected, p.value);
        AllFailConcat(DriftIssues(c, expected, p.value),
                      ConcatMap(Ids(expected), EndpointAudit(PathOf(expected), area, p.value, s.endpoints)));
      }
    }
    ConcatMapAllFail(c.projects, ProjectAudit(c, s));
  }

  lemma SetIssuesFail(env: Env, c: Contract, s: Snapshot)
    ensures AllFail(SetIssues(env, c, s))
  {
  }

  /** Only an incomplete collection is not a failure. */
  lemma AuditFails(env: Env, c: Contract, s: Snapshot)
    ensures HasFail(AuditIssues(env, c, s)) <==>
            || HasFail(EnvelopeIssues(env, c, s)) || SetIssues(env, c, s) != []
            || ConcatMap(c.projects, ProjectAudit(c, s)) != []
  {
    var e, i, p := EnvelopeIssues(env, c, s), SetIssues(env, c, s), ConcatMap(c.projects, ProjectAudit(c, s));
    HasFailConcat(e + i, p);
    HasFailConcat(e, i);
    ProjectAuditFails(c, s);
    SetIssuesFail(env, c, s);
    AllFailHasFail(i);
    AllFailHasFail(p);
  }

  lemma EnvelopeReordered(env: Env, c: Contract, s: Snapshot, t: Snapshot)
    requires Reordered(s, t)
    ensures EnvelopeIssues(env, c, s) == EnvelopeIssues(env, c, t)
  {
    SameSize(s.errors, t.errors);
    SameSize(s.crossAreaRoutes, t.crossAreaRoutes);
  }

  lemma SetsReordered(env: Env, c: Contract, s: Snapshot, t: Snapshot)
    requires Sound(env) && SchemaHolds(c) && RolesComplete(c) && Reordered(s, t)
    requires NoCollision(env, SortBy(s.areas, ByRole(env)), SortBy(c.areas, ByRole(env)))
    requires NoCollision(env, SortBy(t.areas, ByRole(env)), SortBy(c.areas, ByRole(env)))
    ensures SetIssues(env, c, s) == [] <==> SetIssues(env, c, t) == []
  {
    InventoryExactly(env, c, s);
    InventoryExactly(env, c, t);
    ReorderedSymmetric(s, t);
    if SameInventory(c, s) { InventoryReordered(c, s, t); }
    if SameInventory(c, t) { InventoryReordered(c, t, s); }
  }

  lemma ProjectsReordered(c: Contract, s: Snapshot, t: Snapshot)
    requires SchemaHolds(c) && Ready(c) && SameInventory(c, s) && Reordered(s, t)
    requires ConcatMap(c.projects, ProjectAudit(c, s)) == []
    ensures ConcatMap(c.projects, ProjectAudit(c, t)) == []
  {
    InventoryReordered(c, s, t);
    InventoryUnambiguous(c, s);
    InventoryUnambiguous(c, t);
    ProjectsExactly(c, s);
    ProjectsExactly(c, t);
    forall i | 0 <= i < |c.projects| ensures Realized(c, t, c.projects[i]) {
      RealizedReordered(c, s, t, c.projects[i]);
    }
  }

  lemma AuditReordered(env: Env, c: Contract, s: Snapshot, t: Snapshot)
    requires Sound(env) && SchemaHolds(c) && Ready(c) && Reordered(s, t)
    requires NoCollision(env, SortBy(s.areas, ByRole(env)), SortBy(c.areas, ByRole(env)))
    requires NoCollision(env, SortBy(t.areas, ByRole(env)), SortBy(c.areas, ByRole(env)))
    ensures VerdictOf(AuditIssues(env, c, s)) == VerdictOf(AuditIssues(env, c, t))
  {
    AuditFails(env, c, s);
    AuditFails(env, c, t);
    EnvelopeReordered(env, c, s, t);
    SetsReordered(env, c, s, t);
    if SetIssues(env, c, s) == [] {
      InventoryExactly(env, c, s);
      InventoryExactly(env, c, t);
      ReorderedSymmetric(s, t);
      if ConcatMap(c.projects, ProjectAudit(c, s)) == [] { ProjectsReordered(c, s, t); }
      if ConcatMap(c.projects, ProjectAudit(c, t)) == [] { ProjectsReordered(c, t, s); }
    }
    SumEmpty(EnvelopeIssues(env, c, s), SetIssues(env, c, s), ConcatMap(c.projects, ProjectAudit(c, s)));
    SumEmpty(EnvelopeIssues(env, c, t), SetIssues(env, c, t), ConcatMap(c.projects, ProjectAudit(c, t)));
  }

  lemma ValidIgnoresOrder(s: Snapshot, t: Snapshot)
    requires Reordered(s, t)
    ensures ValidSnapshot(s) <==> ValidSnapshot(t)
  {
    ReorderedSymmetric(s, t);
    if ValidSnapshot(s) { ValidReordered(s, t); }
    if ValidSnapshot(t) { ValidReordered(t, s); }
  }

  lemma ReadyAuditReordered(env: Env, c: Contract, s: Snapshot, t: Snapshot)
    requires Sound(env) && SchemaHolds(c) && ReadinessIssues(Ok(c)) == [] && Reordered(s, t)
    requires NoCollision(env, SortBy(s.areas, ByRole(env)), SortBy(c.areas, ByRole(env)))
    requires NoCollision(env, SortBy(t.areas, ByRole(env)), SortBy(c.areas, ByRole(env)))
    ensures VerdictOf(AuditIssues(env, c, s)) == VerdictOf(AuditIssues(env, c, t))
  {
    ReadyExactly(c);
    AuditReordered(env, c, s, t);
  }

  /** The three ways an audit of a snapshot goes. */
  lemma SnapshotIs(env: Env, contract: Result<Contract, seq<string>>, s: Snapshot, f: seq<Finding>)
    requires f == SnapshotIssues(env, contract, Some(s))
    ensures ReadinessIssues(contract) != [] || contract.Err? ==> f == ReadinessIssues(contract)
    ensures ReadinessIssues(contract) == [] && contract.Ok? ==>
              f == if ValidSnapshot(s) then AuditIssues(env, contract.value, s) else [Issue("SNAPSHOT_SCHEMA", "/")]
  {
  }

  /** The verdict on a snapshot ignores the order of everything in it. */
  lemma SnapshotVerdictIgnoresOrder(env: Env, contract: Result<Contract, seq<string>>, s: Snapshot, t: Snapshot)
    requires Sound(env) && (contract.Ok? ==> SchemaHolds(contract.value)) && Reordered(s, t)
    requires contract.Ok? ==> Faithful(env, contract.value, s, t)
    ensures VerdictOf(SnapshotIssues(env, contract, Some(s))) == VerdictOf(SnapshotIssues(env, contract, Some(t)))
  {
    var f, g := SnapshotIssues(env, contract, Some(s)), SnapshotIssues(env, contract, Some(t));
    SnapshotIs(env, contract, s, f);
    SnapshotIs(env, contract, t, g);
    if contract.Ok? && ReadinessIssues(contract) == [] {
      ValidIgnoresOrder(s, t);
      ReadyAuditReordered(env, contract.value, s, t);
    }
  }

  /** The digests of the areas of either snapshot do not collide with the contract's. */
  predicate Faithful(env: Env, c: Contract, s: Snapshot, t: Snapshot) {
    && NoCollision(env, SortBy(s.areas, ByRole(env)), SortBy(c.areas, ByRole(env)))
    && NoCollision(env, SortBy(t.areas, ByRole(env)), SortBy(c.areas, ByRole(env)))
  }

  // ----- probes -----

  lemma ScalarsOfBatch(b: Batch, d: Batch)
    requires ShapeOfBatch()(Some(b)) == ShapeOfBatch()(Some(d))
    ensures b.source == d.source && b.runId == d.runId && b.sourceVpcId == d.sourceVpcId
    ensures b.githubOrg == d.githubOrg && b.contractDigest == d.contractDigest && b.observedAt == d.observedAt
    ensures b.baselineReachable == d.baselineReachable && multiset(b.results) == multiset(d.results)
  {
    assert b.(results := []) == d.(results := []);
  }

  lemma ShapeIsSome(b: Option<Batch>, d: Option<Batch>)
    requires ShapeOfBatch()(b) == ShapeOfBatch()(d)
    ensures b.Some? <==> d.Some?
  {
  }

  lemma HeadReordered(env: Env, c: Contract, b: Batch, d: Batch)
    requires ShapeOfBatch()(Some(b)) == ShapeOfBatch()(Some(d))
    ensures HeadIssues(env, c, b) == HeadIssues(env, c, d)
  {
    ScalarsOfBatch(b, d);
    MapPermutes(b.results, d.results, (r: Row) => Key(r.provider, r.role));
    assert RowKeys(b.results) == Map(b.results, (r: Row) => Key(r.provider, r.role));
    assert RowKeys(d.results) == Map(d.results, (r: Row) => Key(r.provider, r.role));
    SameExactly(RowKeys(b.results), IntentKeys(c.projects));
    SameExactly(RowKeys(d.results), IntentKeys(c.projects));
    assert Misplaced(c, b) == Misplaced(c, d);
  }

  /** A finding about a batch is a finding about its reordering. */
  lemma BatchReordered(env: Env, c: Contract, b: Option<Batch>, d: Option<Batch>, x: Finding)
    requires ShapeOfBatch()(b) == ShapeOfBatch()(d) && x in BatchIssues(env, c)(b)
    ensures x in BatchIssues(env, c)(d)
  {
    ShapeIsSome(b, d);
    if b.Some? {
      ScalarsOfBatch(b.value, d.value);
      HeadReordered(env, c, b.value, d.value);
      var rows, others, g := b.value.results, d.value.results, RowIssue(b.value.source);
      ConcatMapIn(rows, g, x);
      ConcatMapIn(others, g, x);
      if x in ConcatMap(rows, g) {
        var i :| 0 <= i < |rows| && x in g(rows[i]);
        assert rows[i] in multiset(others);
        var j :| 0 <= j < |others| && others[j] == rows[i];
        assert x in g(others[j]);
      }
    }
  }

  lemma BatchesReordered(env: Env, c: Contract, a: seq<Option<Batch>>, b: seq<Option<Batch>>, x: Finding)
    requires ReorderedBatches(a, b) && x in ConcatMap(a, BatchIssues(env, c))
    ensures x in ConcatMap(b, BatchIssues(env, c))
  {
    ConcatMapIn(a, BatchIssues(env, c), x);
    var i :| 0 <= i < |a| && x in BatchIssues(env, c)(a[i]);
    var d := Counterpart(a, b, ShapeOfBatch(), a[i]);
    BatchReordered(env, c, a[i], d, x);
    var j :| 0 <= j < |b| && b[j] == d;
    ConcatMapIn(b, BatchIssues(env, c), x);
  }

  function SourceOfShape(): BatchShape -> seq<string> { (x: BatchShape) => SourceOf()(x.batch) }

  function RunOfShape(): BatchShape -> seq<string> { (x: BatchShape) => RunOf()(x.batch) }

  lemma ConcatReordered(a: seq<Option<Batch>>, b: seq<Option<Batch>>,
                        h: BatchShape -> seq<string>, k: Option<Batch> -> seq<string>)
    requires ReorderedBatches(a, b) && forall x :: h(ShapeOfBatch()(x)) == k(x)
    ensures multiset(ConcatMap(a, k)) == multiset(ConcatMap(b, k))
  {
    ConcatMapPermutes(Map(a, ShapeOfBatch()), Map(b, ShapeOfBatch()), h);
    ConcatMapOfMap(a, ShapeOfBatch(), h, k);
    ConcatMapOfMap(b, ShapeOfBatch(), h, k);
  }

  lemma SourcesReordered(a: seq<Option<Batch>>, b: seq<Option<Batch>>)
    requires ReorderedBatches(a, b)
    ensures multiset(Sources(a)) == multiset(Sources(b))
    ensures multiset(ConcatMap(a, RunOf())) == multiset(ConcatMap(b, RunOf()))
  {
    ConcatReordered(a, b, SourceOfShape(), SourceOf());
    ConcatReordered(a, b, RunOfShape(), RunOf());
  }

  lemma OneRunReordered(a: seq<string>, b: seq<string>)
    requires multiset(a) == multiset(b)
    ensures OneRun(a) <==> OneRun(b)
  {
    SameSize(a, b);
    forall x ensures x in a <==> x in b { assert x in multiset(a) <==> x in multiset(b); }
    assert (set r | r in a) == (set r | r in b);
  }

  lemma MatrixReordered(env: Env, c: Contract, a: seq<Option<Batch>>, b: seq<Option<Batch>>, x: Finding)
    requires ReorderedBatches(a, b) && x in MatrixIssues(env, c, a)
    ensures x in MatrixIssues(env, c, b)
  {
    SourcesReordered(a, b);
    SameExactly(Sources(a), SOURCES);
    SameExactly(Sources(b), SOURCES);
    OneRunReordered(ConcatMap(a, RunOf()), ConcatMap(b, RunOf()));
    if x in ConcatMap(a, BatchIssues(env, c)) { BatchesReordered(env, c, a, b, x); }
  }

  lemma SameFindings(f: seq<Finding>, g: seq<Finding>)
    requires forall x :: x in f <==> x in g
    ensures VerdictOf(f) == VerdictOf(g)
  {
    assert f != [] ==> f[0] in g;
    assert g != [] ==> g[0] in f;
    if HasFail(f) {
      var i :| 0 <= i < |f| && f[i].severity == Fail;
      assert f[i] in g;
    }
    if HasFail(g) {
      var i :| 0 <= i < |g| && g[i].severity == Fail;
      assert g[i] in f;
    }
  }

  lemma MatrixVerdictIgnoresOrder(env: Env, c: Contract, a: seq<Option<Batch>>, b: seq<Option<Batch>>)
    requires ReorderedBatches(a, b)
    ensures VerdictOf(MatrixIssues(env, c, a)) == VerdictOf(MatrixIssues(env, c, b))
    ensures |a| == |b|
  {
    var f, g := MatrixIssues(env, c, a), MatrixIssues(env, c, b);
    SameSize(Map(a, ShapeOfBatch()), Map(b, ShapeOfBatch()));
    forall x ensures x in f <==> x in g {
      if x in f { MatrixReordered(env, c, a, b, x); }
      if x in g { MatrixReordered(env, c, b, a, x); }
    }
    SameFindings(f, g);
  }

  lemma ProbesAre(env: Env, contract: Result<Contract, seq<string>>, s: Snapshot, a: seq<Option<Batch>>,
                  f: seq<Finding>, sources: seq<string>)
    requires f == SnapshotIssues(env, contract, Some(s)) && sources == SOURCES
    ensures f != [] || contract.Err? ==> ProbeIssues(env, contract, Some(s), a) == f
    ensures f == [] && contract.Ok? ==>
              (ProbeIssues(env, contract, Some(s), a)
               == if contract.value.expectedState != "active" then
                    [Finding("LIVE_REQUIRES_AUTHORIZED_RESUME", "/expectedState", Blocked)]
                  else if |a| != |sources| then [Finding("INCOMPLETE_PROBE_MATRIX", "/", Blocked)]
                  else MatrixIssues(env, contract.value, a))
  {
  }

  /** The verdict on the live evidence ignores the order of everything in it. */
  lemma ProbeVerdictIgnoresOrder(env: Env, contract: Result<Contract, seq<string>>, s: Snapshot, t: Snapshot,
                                 a: seq<Option<Batch>>, b: seq<Option<Batch>>)
    requires Sound(env) && (contract.Ok? ==> SchemaHolds(contract.value))
    requires Reordered(s, t) && ReorderedBatches(a, b)
    requires contract.Ok? ==> Faithful(env, contract.value, s, t)
    ensures VerdictOf(ProbeIssues(env, contract, Some(s), a)) == VerdictOf(ProbeIssues(env, contract, Some(t), b))
  {
    var f, g := SnapshotIssues(env, contract, Some(s)), SnapshotIssues(env, contract, Some(t));
    SnapshotVerdictIgnoresOrder(env, contract, s, t);
    assert f == [] <==> VerdictOf(f) == Pass;
    assert g == [] <==> VerdictOf(g) == Pass;
    ProbesAre(env, contract, s, a, f, SOURCES);
    ProbesAre(env, contract, t, b, g, SOURCES);
    if contract.Ok? { MatrixVerdictIgnoresOrder(env, contract.value, a, b); }
  }
}
