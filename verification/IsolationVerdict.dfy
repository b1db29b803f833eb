/**
 * What the verdict means (`verdict` of infra-isolation/policy.mjs): an audit
 * fails exactly when something that was observed contradicts the contract, and
 * is held exactly when nothing does but evidence is missing.
 */
module IsolationVerdict {
  import opened Common
  import opened Multisets
  import opened IsolationAudit
  import opened IsolationSpec
  import opened IsolationProbes
  import opened IsolationOrder

  // ----- findings and their severity -----

  predicate AllFail(f: seq<Finding>) { forall x | x in f :: x.severity == Fail }

  lemma FailIn(f: seq<Finding>)
    ensures HasFail(f) <==> exists x :: x in f && x.severity == Fail
  {
    if x :| x in f && x.severity == Fail {
      var i :| 0 <= i < |f| && f[i] == x;
    }
  }

  lemma FailConcat(f: seq<Finding>, g: seq<Finding>)
    ensures HasFail(f + g) <==> HasFail(f) || HasFail(g)
  {
    FailIn(f);
    FailIn(g);
    FailIn(f + g);
    assert forall x :: x in f + g <==> x in f || x in g;
  }

  lemma FailAll(f: seq<Finding>)
    requires AllFail(f)
    ensures HasFail(f) <==> f != []
  {
    FailIn(f);
    if f != [] { assert f[0] in f; }
  }

  lemma AllFailConcat<A>(xs: seq<A>, g: A -> seq<Finding>)
    requires forall x :: AllFail(g(x))
    ensures AllFail(ConcatMap(xs, g))
  {
    forall x | x in ConcatMap(xs, g) ensures x.severity == Fail {
      ConcatMapIn(xs, g, x);
      var i :| 0 <= i < |xs| && x in g(xs[i]);
    }
  }

  // ----- a snapshot -----

  lemma SetsFail(env: Env, c: Contract, s: Snapshot)
    ensures AllFail(SetIssues(env, c, s))
  {
  }

  lemma DriftsFail(c: Contract, expected: Intent, p: Project)
    ensures AllFail(ConfigurationIssues(c, expected, p)) && AllFail(AccessIssues(c, expected, p))
  {
  }

  lemma EndpointsFail(path: string, area: Option<Area>, p: Project, endpoints: seq<Endpoint>)
    ensures forall id :: AllFail(EndpointAudit(path, area, p, endpoints)(id))
  {
  }

  lemma ProjectsFail(c: Contract, s: Snapshot)
    ensures forall expected :: AllFail(ProjectAudit(c, s)(expected))
  {
    forall expected ensures AllFail(ProjectAudit(c, s)(expected)) {
      var p := FindProject(s.projects, Key(expected.provider, expected.role));
      if p.Some? {
        DriftsFail(c, expected, p.value);
        EndpointsFail(PathOf(expected), FindArea(c.areas, p.value.role), p.value, s.endpoints);
        AllFailConcat(Ids(expected), EndpointAudit(PathOf(expected), FindArea(c.areas, p.value.role), p.value, s.endpoints));
      }
    }
  }

  /** The snapshot is of this contract, and recent. */
  ghost predicate OfContract(env: Env, c: Contract, s: Snapshot) {
    && env.lower(s.githubOrg) == env.lower(c.githubOrg) && s.contractDigest == env.contractDigest
    && Timely(s.observedAt, env) && s.crossAreaRoutes == []
  }

  /** Nothing that was observed contradicts the contract. */
  ghost predicate Consistent(env: Env, c: Contract, s: Snapshot) {
    && SnapshotForm(s) && OfContract(env, c, s) && SameInventory(c, s)
    && forall i | 0 <= i < |c.projects| :: Realized(c, s, c.projects[i])
  }

  predicate Collected(s: Snapshot) { s.collectionComplete && s.errors == [] }

  lemma EnvelopeFails(env: Env, c: Contract, s: Snapshot)
    ensures HasFail(EnvelopeIssues(env, c, s)) <==> !OfContract(env, c, s)
    ensures EnvelopeIssues(env, c, s) == [] <==> OfContract(env, c, s) && Collected(s)
  {
    var a := When(env.lower(s.githubOrg) != env.lower(c.githubOrg), Issue("WRONG_ORG", "/githubOrg"));
    var b := When(s.contractDigest != env.contractDigest, Issue("WRONG_CONTRACT", "/contractDigest"));
    var d := When(!Fresh(s.observedAt, env), Issue("STALE_EVIDENCE", "/observedAt"));
    var e := When(!s.collectionComplete || s.errors != [],
                  Finding("INCOMPLETE_COLLECTION", "/collectionComplete", Blocked));
    var r := When(s.crossAreaRoutes != [], Issue("CROSS_AREA_ROUTE", "/crossAreaRoutes"));
    assert EnvelopeIssues(env, c, s) == a + b + d + e + r;
    FailConcat(a + b + d + e, r);
    FailConcat(a + b + d, e);
    FailConcat(a + b, d);
    FailConcat(a, b);
    FailAll(a);
    FailAll(b);
    FailAll(d);
    FailAll(r);
    EvidenceExactly(env, c, s);
  }

  lemma AuditFails(env: Env, c: Contract, s: Snapshot)
    requires Sound(env) && SchemaHolds(c) && Ready(c) && SnapshotForm(s)
    requires NoCollision(env, SortBy(s.areas, ByRole(env)), SortBy(c.areas, ByRole(env)))
    ensures HasFail(AuditIssues(env, c, s)) <==> !Consistent(env, c, s)
    ensures AuditIssues(env, c, s) == [] <==> Consistent(env, c, s) && Collected(s)
  {
    var e, t, p := EnvelopeIssues(env, c, s), SetIssues(env, c, s), ConcatMap(c.projects, ProjectAudit(c, s));
    FailConcat(e + t, p);
    FailConcat(e, t);
    EnvelopeFails(env, c, s);
    SetsFail(env, c, s);
    FailAll(t);
    ProjectsFail(c, s);
    AllFailConcat(c.projects, ProjectAudit(c, s));
    FailAll(p);
    InventoryExactly(env, c, s);
    if SameInventory(c, s) {
      InventoryUnambiguous(c, s);
      ProjectsExactly(c, s);
    }
    SumEmpty(e, t, p);
  }

  /**
   * With a ready contract the verdict on a snapshot is: failed, when something
   * in it contradicts the contract; held, when nothing does but it was not
   * collected completely; passed otherwise.
   */
  lemma SnapshotVerdict(env: Env, c: Contract, s: Snapshot)
    requires Sound(env) && SchemaHolds(c) && Ready(c)
    requires NoCollision(env, SortBy(s.areas, ByRole(env)), SortBy(c.areas, ByRole(env)))
    ensures VerdictOf(SnapshotIssues(env, Ok(c), Some(s))) ==
            if !Consistent(env, c, s) then Failed else if !Collected(s) then Held else Pass
  {
    ReadyExactly(c);
    SnapshotChoice(env, c, s);
    if SnapshotForm(s) { AuditVerdict(env, c, s); } else { SchemaVerdict(env, c, s); }
  }

  lemma AuditVerdict(env: Env, c: Contract, s: Snapshot)
    requires Sound(env) && SchemaHolds(c) && Ready(c) && SnapshotForm(s)
    requires NoCollision(env, SortBy(s.areas, ByRole(env)), SortBy(c.areas, ByRole(env)))
    ensures VerdictOf(AuditIssues(env, c, s)) ==
            if !Consistent(env, c, s) then Failed else if !Collected(s) then Held else Pass
  {
    AuditFails(env, c, s);
    VerdictBy(AuditIssues(env, c, s), Consistent(env, c, s), Collected(s));
  }

  lemma SchemaVerdict(env: Env, c: Contract, s: Snapshot)
    requires !SnapshotForm(s)
    ensures VerdictOf([Issue("SNAPSHOT_SCHEMA", "/")]) == Failed && !Consistent(env, c, s)
  {
    FailAll([Issue("SNAPSHOT_SCHEMA", "/")]);
  }

  lemma VerdictBy(f: seq<Finding>, consistent: bool, complete: bool)
    requires HasFail(f) <==> !consistent
    requires f == [] <==> consistent && complete
    ensures VerdictOf(f) == if !consistent then Failed else if !complete then Held else Pass
  {
  }

  lemma SnapshotChoice(env: Env, c: Contract, s: Snapshot)
    requires ReadinessIssues(Ok(c)) == []
    ensures SnapshotIssues(env, Ok(c), Some(s)) ==
            if SnapshotForm(s) then AuditIssues(env, c, s) else [Issue("SNAPSHOT_SCHEMA", "/")]
  {
    SnapshotFormExactly(s);
  }

  // ----- probes -----

  predicate BatchForm(batch: Option<Batch>) {
    && batch.Some? && batch.value.source in {"canonical", "auth", "admin", "public", "foreign"}
    && batch.value.runId != "" && batch.value.sourceVpcId != ""
  }

  predicate Due(source: string, r: Row, outcome: Outcome) { outcome == if r.role == source then Allowed else Denied }

  /** The batch is of this contract, recent, from where it says, and no probe
      that came to a conclusion reached what it must not, or missed what it must. */
  ghost predicate Harmless(env: Env, c: Contract, b: Batch) {
    && env.lower(b.githubOrg) == env.lower(c.githubOrg) && b.contractDigest == env.contractDigest
    && Timely(b.observedAt, env) && WellPlaced(c, b)
    && forall r | r in b.results :: r.outcome == Inconclusive || Due(b.source, r, r.outcome)
  }

  /** Nothing is missing from the batch. */
  ghost predicate Whole(c: Contract, b: Batch) {
    && b.baselineReachable && multiset(RowKeys(b.results)) == multiset(IntentKeys(c.projects))
    && forall r | r in b.results :: r.outcome != Inconclusive
  }

  lemma RowFails(source: string, r: Row)
    ensures HasFail(RowIssue(source)(r)) <==> r.outcome != Inconclusive && !Due(source, r, r.outcome)
    ensures RowIssue(source)(r) == [] <==> Due(source, r, r.outcome)
  {
    var f := RowIssue(source)(r);
    if f != [] {
      assert |f| == 1;
      assert HasFail(f) <==> f[0].severity == Fail;
    }
  }

  lemma {:induction false} FailConcatMap<A>(xs: seq<A>, g: A -> seq<Finding>)
    ensures HasFail(ConcatMap(xs, g)) <==> exists i :: 0 <= i < |xs| && HasFail(g(xs[i]))
  {
    FailIn(ConcatMap(xs, g));
    if x :| x in ConcatMap(xs, g) && x.severity == Fail {
      ConcatMapIn(xs, g, x);
      var i :| 0 <= i < |xs| && x in g(xs[i]);
      FailIn(g(xs[i]));
    }
    if i :| 0 <= i < |xs| && HasFail(g(xs[i])) {
      FailIn(g(xs[i]));
      var x :| x in g(xs[i]) && x.severity == Fail;
      ConcatMapIn(xs, g, x);
    }
  }

  lemma HeadFails(env: Env, c: Contract, b: Batch)
    ensures HasFail(HeadIssues(env, c, b)) <==>
            !(env.lower(b.githubOrg) == env.lower(c.githubOrg) && b.contractDigest == env.contractDigest
              && Timely(b.observedAt, env) && WellPlaced(c, b))
  {
    var path := "/" + b.source;
    var w := When(env.lower(b.githubOrg) != env.lower(c.githubOrg) || b.contractDigest != env.contractDigest,
                  Issue("PROBE_WRONG_CONTRACT", path));
    var x := When(!Fresh(b.observedAt, env), Issue("STALE_PROBE", path));
    var y := When(!b.baselineReachable, Finding("PROBE_BASELINE_FAILED", path, Blocked));
    var z := When(Misplaced(c, b), Issue("PROBE_WRONG_SOURCE", path));
    var m := When(!Same(RowKeys(b.results), IntentKeys(c.projects)), Finding("INCOMPLETE_PROBE_MATRIX", path, Blocked));
    assert HeadIssues(env, c, b) == w + x + y + z + m;
    FailConcat(w + x + y + z, m);
    FailConcat(w + x + y, z);
    FailConcat(w + x, y);
    FailConcat(w, x);
    FailAll(w);
    FailAll(x);
    FailAll(z);
    PlacedExactly(c, b);
  }

  lemma RowsFail(source: string, rows: seq<Row>)
    ensures HasFail(ConcatMap(rows, RowIssue(source))) <==>
            !forall r | r in rows :: r.outcome == Inconclusive || Due(source, r, r.outcome)
  {
    FailConcatMap(rows, RowIssue(source));
    forall i | 0 <= i < |rows|
      ensures HasFail(RowIssue(source)(rows[i])) <==> rows[i].outcome != Inconclusive && !Due(source, rows[i], rows[i].outcome)
    {
      RowFails(source, rows[i]);
    }
    if r :| r in rows && !(r.outcome == Inconclusive || Due(source, r, r.outcome)) {
      var i :| 0 <= i < |rows| && rows[i] == r;
    }
  }

  lemma BatchFails(env: Env, c: Contract, batch: Option<Batch>)
    ensures HasFail(BatchIssues(env, c)(batch)) <==> !(BatchForm(batch) && Harmless(env, c, batch.value))
    ensures BatchForm(batch) <==> ValidBatch(batch)
  {
    if ValidBatch(batch) {
      var b := batch.value;
      FailConcat(HeadIssues(env, c, b), ConcatMap(b.results, RowIssue(b.source)));
      HeadFails(env, c, b);
      RowsFail(b.source, b.results);
    } else {
      FailAll([Issue("PROBE_SCHEMA", "/")]);
    }
  }

  lemma ConclusiveParts(env: Env, c: Contract, b: Batch)
    ensures Conclusive(env, c, b) <==> Harmless(env, c, b) && Whole(c, b)
  {
    if Harmless(env, c, b) && Whole(c, b) {
      forall r | r in b.results ensures r.outcome == if r.role == b.source then Allowed else Denied {
        assert Due(b.source, r, r.outcome);
      }
    }
  }

  /** Every batch has its form and contradicts nothing, and all are of one run. */
  ghost predicate NoContradiction(env: Env, c: Contract, batches: seq<Option<Batch>>) {
    && (forall i | 0 <= i < |batches| :: BatchForm(batches[i]) && Harmless(env, c, batches[i].value))
    && SameRun(batches)
  }

  /** Every source is there once and every batch is whole. */
  ghost predicate NothingMissing(c: Contract, batches: seq<Option<Batch>>) {
    && multiset(Sources(batches)) == multiset(SOURCES)
    && forall i | 0 <= i < |batches| :: batches[i].Some? && Whole(c, batches[i].value)
  }

  lemma BatchesFail(env: Env, c: Contract, batches: seq<Option<Batch>>)
    ensures HasFail(ConcatMap(batches, BatchIssues(env, c))) <==>
            !forall i | 0 <= i < |batches| :: BatchForm(batches[i]) && Harmless(env, c, batches[i].value)
    ensures (forall i | 0 <= i < |batches| :: BatchForm(batches[i]) && Harmless(env, c, batches[i].value)) ==>
              forall i | 0 <= i < |batches| :: ValidBatch(batches[i])
  {
    FailConcatMap(batches, BatchIssues(env, c));
    forall i | 0 <= i < |batches|
      ensures HasFail(BatchIssues(env, c)(batches[i])) <==> !(BatchForm(batches[i]) && Harmless(env, c, batches[i].value))
      ensures BatchForm(batches[i]) <==> ValidBatch(batches[i])
    {
      BatchFails(env, c, batches[i]);
    }
  }

  lemma MatrixFails(env: Env, c: Contract, batches: seq<Option<Batch>>)
    requires batches != []
    ensures HasFail(MatrixIssues(env, c, batches)) <==> !NoContradiction(env, c, batches)
  {
    MatrixParted(env, c, batches);
    BatchesFail(env, c, batches);
    if forall i | 0 <= i < |batches| :: ValidBatch(batches[i]) { SameRunExactly(batches); }
  }

  lemma MatrixParted(env: Env, c: Contract, batches: seq<Option<Batch>>)
    ensures HasFail(MatrixIssues(env, c, batches)) <==>
            HasFail(ConcatMap(batches, BatchIssues(env, c))) || !OneRun(ConcatMap(batches, RunOf()))
  {
    var b := ConcatMap(batches, BatchIssues(env, c));
    var m := When(!Same(ConcatMap(batches, SourceOf()), SOURCES), Finding("INCOMPLETE_PROBE_MATRIX", "/", Blocked));
    var r := When(!OneRun(ConcatMap(batches, RunOf())), Issue("PROBE_RUN_MISMATCH", "/"));
    FailConcat(b + m, r);
    FailConcat(b, m);
    FailAll(r);
  }

  lemma MatrixPasses(env: Env, c: Contract, batches: seq<Option<Batch>>)
    requires batches != []
    ensures MatrixIssues(env, c, batches) == [] <==> NoContradiction(env, c, batches) && NothingMissing(c, batches)
  {
    MatrixExactly(env, c, batches);
    MatrixSettled(env, c, batches);
  }

  lemma MatrixSettled(env: Env, c: Contract, batches: seq<Option<Batch>>)
    ensures Matrix(env, c, batches) <==> NoContradiction(env, c, batches) && NothingMissing(c, batches)
  {
    ConclusiveSettled(env, c, batches);
    AllSettled(env, c, batches);
  }

  lemma ConclusiveSettled(env: Env, c: Contract, batches: seq<Option<Batch>>)
    ensures AllConclusive(env, c, batches) <==> forall i | 0 <= i < |batches| :: Settled(env, c, batches[i])
  {
    forall i | 0 <= i < |batches|
      ensures ValidBatch(batches[i]) && Conclusive(env, c, batches[i].value) <==> Settled(env, c, batches[i])
    {
      SettledExactly(env, c, batches[i]);
    }
  }

  ghost predicate Settled(env: Env, c: Contract, batch: Option<Batch>) {
    BatchForm(batch) && Harmless(env, c, batch.value) && Whole(c, batch.value)
  }

  lemma SettledExactly(env: Env, c: Contract, batch: Option<Batch>)
    ensures ValidBatch(batch) && Conclusive(env, c, batch.value) <==> Settled(env, c, batch)
  {
    if batch.Some? { ConclusiveParts(env, c, batch.value); }
    BatchFails(env, c, batch);
  }

  lemma AllSettled(env: Env, c: Contract, batches: seq<Option<Batch>>)
    ensures (forall i | 0 <= i < |batches| :: Settled(env, c, batches[i])) <==>
            && (forall i | 0 <= i < |batches| :: BatchForm(batches[i]) && Harmless(env, c, batches[i].value))
            && (forall i | 0 <= i < |batches| :: batches[i].Some? && Whole(c, batches[i].value))
  {
  }

  /**
   * Once the snapshot is silent, the verdict on the probes is: held, while the
   * projects are not active or a batch is missing or too many; failed, when a
   * batch is malformed, of something else, of another run, or a probe reached
   * what it must not or missed what it must; held, when all that is wrong is
   * that something is missing or inconclusive; passed otherwise.
   */
  lemma ProbeVerdict(env: Env, c: Contract, s: Snapshot, batches: seq<Option<Batch>>)
    requires SnapshotIssues(env, Ok(c), Some(s)) == []
    ensures VerdictOf(ProbeIssues(env, Ok(c), Some(s), batches)) ==
            if c.expectedState != "active" || |batches| != 5 then Held
            else if !NoContradiction(env, c, batches) then Failed
            else if !NothingMissing(c, batches) then Held
            else Pass
  {
    if c.expectedState == "active" && |batches| == 5 {
      MatrixFails(env, c, batches);
      MatrixPasses(env, c, batches);
    }
  }
}
