/**
 * The live probe matrix (`auditProbes`) and what its silence certifies.
 */
module IsolationProbes {
  import opened Common
  import opened Multisets
  import opened IsolationAudit
  import opened IsolationSpec

  // ----- auditProbes -----

  predicate ValidBatch(batch: Option<Batch>) {
    batch.Some? && batch.value.source in SOURCES && batch.value.runId != "" && batch.value.sourceVpcId != ""
  }

  function RowPath(source: string, r: Row): string { "/" + source + "/" + Key(r.provider, r.role) }

  function Expected(source: string, r: Row): Outcome { if r.role == source then Allowed else Denied }

  function RowIssue(source: string): Row -> seq<Finding> {
    (r: Row) =>
      When(r.outcome != Expected(source, r),
           if r.outcome == Inconclusive then Finding("PROBE_INCONCLUSIVE", RowPath(source, r), Blocked)
           else Issue("NETWORK_ISOLATION_FAILED", RowPath(source, r)))
  }

  predicate Misplaced(c: Contract, b: Batch) {
    var area := FindArea(c.areas, b.source);
    if area.Some? then area.value.vpcId != Some(b.sourceVpcId)
    else exists a | a in c.areas :: a.vpcId == Some(b.sourceVpcId)
  }

  function HeadIssues(env: Env, c: Contract, b: Batch): seq<Finding> {
    var path := "/" + b.source;
    When(env.lower(b.githubOrg) != env.lower(c.githubOrg) || b.contractDigest != env.contractDigest,
         Issue("PROBE_WRONG_CONTRACT", path))
    + When(!Fresh(b.observedAt, env), Issue("STALE_PROBE", path))
    + When(!b.baselineReachable, Finding("PROBE_BASELINE_FAILED", path, Blocked))
    + When(Misplaced(c, b), Issue("PROBE_WRONG_SOURCE", path))
    + When(!Same(RowKeys(b.results), IntentKeys(c.projects)), Finding("INCOMPLETE_PROBE_MATRIX", path, Blocked))
  }

  function BatchIssues(env: Env, c: Contract): Option<Batch> -> seq<Finding> {
    (batch: Option<Batch>) =>
      if !ValidBatch(batch) then [Issue("PROBE_SCHEMA", "/")]
      else HeadIssues(env, c, batch.value) + ConcatMap(batch.value.results, RowIssue(batch.value.source))
  }

  function SourceOf(): Option<Batch> -> seq<string> {
    (batch: Option<Batch>) => if ValidBatch(batch) then [batch.value.source] else []
  }

  function RunOf(): Option<Batch> -> seq<string> {
    (batch: Option<Batch>) => if ValidBatch(batch) then [batch.value.runId] else []
  }

  predicate OneRun(runs: seq<string>) { runs != [] && |set r | r in runs| == 1 }

  function MatrixIssues(env: Env, c: Contract, batches: seq<Option<Batch>>): seq<Finding> {
    ConcatMap(batches, BatchIssues(env, c))
    + When(!Same(ConcatMap(batches, SourceOf()), SOURCES), Finding("INCOMPLETE_PROBE_MATRIX", "/", Blocked))
    + When(!OneRun(ConcatMap(batches, RunOf())), Issue("PROBE_RUN_MISMATCH", "/"))
  }

  function ProbeIssues(env: Env, contract: Result<Contract, seq<string>>, snapshot: Option<Snapshot>,
                       batches: seq<Option<Batch>>): seq<Finding>
  {
    var f := SnapshotIssues(env, contract, snapshot);
    if f != [] || contract.Err? then f
    else if contract.value.expectedState != "active" then
      [Finding("LIVE_REQUIRES_AUTHORIZED_RESUME", "/expectedState", Blocked)]
    else if |batches| != |SOURCES| then [Finding("INCOMPLETE_PROBE_MATRIX", "/", Blocked)]
    else MatrixIssues(env, contract.value, batches)
  }

  method RowFindings(source: string, rows: seq<Row>) returns (f: seq<Finding>)
    ensures f == ConcatMap(rows, RowIssue(source))
  {
    f := [];
    for i := 0 to |rows|
      invariant f == ConcatMap(rows[..i], RowIssue(source))
    {
      ConcatMapSnoc(rows, i, RowIssue(source));
      var row := rows[i];
      var expected := if row.role == source then Allowed else Denied;
      if row.outcome != expected {
        if row.outcome == Inconclusive {
          f := f + [Finding("PROBE_INCONCLUSIVE", RowPath(source, row), Blocked)];
        } else {
          f := f + [Issue("NETWORK_ISOLATION_FAILED", RowPath(source, row))];
        }
      }
    }
    assert rows[..|rows|] == rows;
  }

  method HeadFindings(env: Env, c: Contract, b: Batch) returns (f: seq<Finding>)
    ensures f == HeadIssues(env, c, b)
  {
    var path := "/" + b.source;
    f := When(env.lower(b.githubOrg) != env.lower(c.githubOrg) || b.contractDigest != env.contractDigest,
              Issue("PROBE_WRONG_CONTRACT", path));
    f := f + When(!Fresh(b.observedAt, env), Issue("STALE_PROBE", path));
    f := f + When(!b.baselineReachable, Finding("PROBE_BASELINE_FAILED", path, Blocked));
    f := f + When(Misplaced(c, b), Issue("PROBE_WRONG_SOURCE", path));
    f := f + When(!Same(RowKeys(b.results), IntentKeys(c.projects)),
                  Finding("INCOMPLETE_PROBE_MATRIX", path, Blocked));
  }

  method MatrixFindings(env: Env, c: Contract, batches: seq<Option<Batch>>) returns (f: seq<Finding>)
    ensures f == MatrixIssues(env, c, batches)
  {
    f := [];
    var seen: seq<string>, runs: seq<string> := [], [];
    for i := 0 to |batches|
      invariant f == ConcatMap(batches[..i], BatchIssues(env, c))
      invariant seen == ConcatMap(batches[..i], SourceOf())
      invariant runs == ConcatMap(batches[..i], RunOf())
    {
      ConcatMapSnoc(batches, i, BatchIssues(env, c));
      ConcatMapSnoc(batches, i, SourceOf());
      ConcatMapSnoc(batches, i, RunOf());
      if !ValidBatch(batches[i]) {
        f := f + [Issue("PROBE_SCHEMA", "/")];
        continue;
      }
      var batch := batches[i].value;
      seen, runs := seen + [batch.source], runs + [batch.runId];
      var head := HeadFindings(env, c, batch);
      var rows := RowFindings(batch.source, batch.results);
      f := f + (head + rows);
    }
    assert batches[..|batches|] == batches;
    f := f + When(!Same(seen, SOURCES), Finding("INCOMPLETE_PROBE_MATRIX", "/", Blocked));
    f := f + When(!OneRun(runs), Issue("PROBE_RUN_MISMATCH", "/"));
  }

  method AuditProbes(env: Env, contract: Result<Contract, seq<string>>, snapshot: Option<Snapshot>,
                     batches: seq<Option<Batch>>) returns (f: seq<Finding>)
    ensures f == ProbeIssues(env, contract, snapshot, batches)
  {
    f := AuditSnapshot(env, contract, snapshot);
    if f != [] || contract.Err? { return; }
    if contract.value.expectedState != "active" {
      return [Finding("LIVE_REQUIRES_AUTHORIZED_RESUME", "/expectedState", Blocked)];
    }
    if |batches| != |SOURCES| { return [Finding("INCOMPLETE_PROBE_MATRIX", "/", Blocked)]; }
    f := MatrixFindings(env, contract.value, batches);
  }

  // ----- what silence certifies -----

  /** One complete, fresh and well-placed batch in which exactly the projects of
      its own role answered. */
  ghost predicate Conclusive(env: Env, c: Contract, b: Batch) {
    && env.lower(b.githubOrg) == env.lower(c.githubOrg) && b.contractDigest == env.contractDigest
    && Timely(b.observedAt, env) && b.baselineReachable
    && WellPlaced(c, b)
    && multiset(RowKeys(b.results)) == multiset(IntentKeys(c.projects))
    && (forall r | r in b.results :: r.outcome == if r.role == b.source then Allowed else Denied)
  }

  predicate FirstArea(areas: seq<Area>, role: string, i: int) {
    0 <= i < |areas| && areas[i].role == role && forall j | 0 <= j < i :: areas[j].role != role
  }

  /** A batch from an area comes from its network, and one from outside from none of theirs. */
  ghost predicate WellPlaced(c: Contract, b: Batch) {
    && (forall i | FirstArea(c.areas, b.source, i) :: c.areas[i].vpcId == Some(b.sourceVpcId))
    && ((forall i | 0 <= i < |c.areas| :: c.areas[i].role != b.source) ==>
          forall i | 0 <= i < |c.areas| :: c.areas[i].vpcId != Some(b.sourceVpcId))
  }

  lemma {:induction false} FindFirstArea(areas: seq<Area>, role: string)
    ensures var found := FindArea(areas, role);
            if found.Some? then exists i :: FirstArea(areas, role, i) && areas[i] == found.value
            else forall i | 0 <= i < |areas| :: areas[i].role != role
  {
    if areas != [] {
      if areas[0].role == role {
        assert FirstArea(areas, role, 0);
      } else {
        FindFirstArea(areas[1..], role);
        assert forall i | 0 < i < |areas| :: areas[i] == areas[1..][i - 1];
        if FindArea(areas[1..], role).Some? {
          var i :| FirstArea(areas[1..], role, i) && areas[1..][i] == FindArea(areas[1..], role).value;
          assert FirstArea(areas, role, i + 1);
        }
      }
    }
  }

  lemma PlacedExactly(c: Contract, b: Batch)
    ensures WellPlaced(c, b) <==> !Misplaced(c, b)
  {
    FindFirstArea(c.areas, b.source);
    if FindArea(c.areas, b.source).Some? {
      var i :| FirstArea(c.areas, b.source, i) && c.areas[i] == FindArea(c.areas, b.source).value;
      forall j | FirstArea(c.areas, b.source, j) ensures j == i { }
    } else {
      assert forall a | a in c.areas :: exists i :: 0 <= i < |c.areas| && c.areas[i] == a;
    }
  }

  function Sources(batches: seq<Option<Batch>>): seq<string> { ConcatMap(batches, SourceOf()) }

  /** One conclusive batch per source, all of one run. */
  ghost predicate Matrix(env: Env, c: Contract, batches: seq<Option<Batch>>) {
    && AllConclusive(env, c, batches)
    && multiset(Sources(batches)) == multiset(SOURCES)
    && SameRun(batches)
  }

  ghost predicate AllConclusive(env: Env, c: Contract, batches: seq<Option<Batch>>) {
    forall i | 0 <= i < |batches| :: ValidBatch(batches[i]) && Conclusive(env, c, batches[i].value)
  }

  predicate SameRun(batches: seq<Option<Batch>>) {
    forall i, j | 0 <= i < |batches| && 0 <= j < |batches| && batches[i].Some? && batches[j].Some? ::
      batches[i].value.runId == batches[j].value.runId
  }

  lemma RowsExactly(source: string, rows: seq<Row>)
    ensures ConcatMap(rows, RowIssue(source)) == [] <==>
            forall r | r in rows :: r.outcome == Expected(source, r)
  {
    ConcatMapEmpty(rows, RowIssue(source));
    forall r ensures RowIssue(source)(r) == [] <==> r.outcome == Expected(source, r) {
    }
  }

  lemma HeadExactly(env: Env, c: Contract, b: Batch)
    ensures HeadIssues(env, c, b) == [] <==>
            && env.lower(b.githubOrg) == env.lower(c.githubOrg) && b.contractDigest == env.contractDigest
            && Timely(b.observedAt, env) && b.baselineReachable && WellPlaced(c, b)
            && multiset(RowKeys(b.results)) == multiset(IntentKeys(c.projects))
  {
    SameExactly(RowKeys(b.results), IntentKeys(c.projects));
    PlacedExactly(c, b);
  }

  lemma BatchExactly(env: Env, c: Contract, batch: Option<Batch>)
    ensures BatchIssues(env, c)(batch) == [] <==> ValidBatch(batch) && Conclusive(env, c, batch.value)
  {
    if ValidBatch(batch) { ConclusiveExactly(env, c, batch.value); }
  }

  lemma ConclusiveExactly(env: Env, c: Contract, b: Batch)
    ensures HeadIssues(env, c, b) == [] && ConcatMap(b.results, RowIssue(b.source)) == [] <==> Conclusive(env, c, b)
  {
    HeadExactly(env, c, b);
    RowsExactly(b.source, b.results);
  }

  lemma AllValid(batches: seq<Option<Batch>>)
    requires forall i | 0 <= i < |batches| :: ValidBatch(batches[i])
    ensures |ConcatMap(batches, RunOf())| == |batches| == |Sources(batches)|
    ensures forall i | 0 <= i < |batches| :: batches[i].Some?
              && ConcatMap(batches, RunOf())[i] == batches[i].value.runId
              && Sources(batches)[i] == batches[i].value.source
  {
    if batches != [] { AllValid(batches[..|batches| - 1]); }
  }

  lemma OneRunExactly(runs: seq<string>)
    ensures OneRun(runs) <==> runs != [] && forall i, j | 0 <= i < |runs| && 0 <= j < |runs| :: runs[i] == runs[j]
  {
    var ids := set r | r in runs;
    if runs != [] {
      var r := runs[0];
      assert r in ids;
      if |ids| == 1 {
        assert |ids - {r}| == 0;
        assert ids == {r};
        forall i | 0 <= i < |runs| ensures runs[i] == r { assert runs[i] in ids; }
      }
      if forall i, j | 0 <= i < |runs| && 0 <= j < |runs| :: runs[i] == runs[j] { assert ids == {r}; }
    }
  }

  lemma MatrixParts(env: Env, c: Contract, batches: seq<Option<Batch>>, sources: seq<string>)
    requires sources == SOURCES
    ensures MatrixIssues(env, c, batches) == [] <==>
            && ConcatMap(batches, BatchIssues(env, c)) == []
            && Same(Sources(batches), sources) && OneRun(ConcatMap(batches, RunOf()))
  {
  }

  lemma AllConclusiveExactly(env: Env, c: Contract, batches: seq<Option<Batch>>)
    ensures ConcatMap(batches, BatchIssues(env, c)) == [] <==> AllConclusive(env, c, batches)
  {
    ConcatMapEmpty(batches, BatchIssues(env, c));
    forall i | 0 <= i < |batches|
      ensures BatchIssues(env, c)(batches[i]) == [] <==> ValidBatch(batches[i]) && Conclusive(env, c, batches[i].value)
    {
      BatchExactly(env, c, batches[i]);
    }
  }

  lemma SameRunExactly(batches: seq<Option<Batch>>)
    requires batches != [] && forall i | 0 <= i < |batches| :: ValidBatch(batches[i])
    ensures OneRun(ConcatMap(batches, RunOf())) <==> SameRun(batches)
  {
    var runs := ConcatMap(batches, RunOf());
    AllValid(batches);
    OneRunExactly(runs);
    if SameRun(batches) {
      forall i, j | 0 <= i < |runs| && 0 <= j < |runs| ensures runs[i] == runs[j] {
        assert batches[i].value.runId == batches[j].value.runId;
      }
    }
    if OneRun(runs) {
      forall i, j | 0 <= i < |batches| && 0 <= j < |batches| && batches[i].Some? && batches[j].Some?
        ensures batches[i].value.runId == batches[j].value.runId
      {
        assert runs[i] == runs[j];
      }
    }
  }

  /** The probe audit is silent exactly on a complete matrix. */
  lemma MatrixExactly(env: Env, c: Contract, batches: seq<Option<Batch>>)
    requires batches != []
    ensures MatrixIssues(env, c, batches) == [] <==> Matrix(env, c, batches)
  {
    MatrixParts(env, c, batches, SOURCES);
    AllConclusiveExactly(env, c, batches);
    SameExactly(Sources(batches), SOURCES);
    if AllConclusive(env, c, batches) { SameRunExactly(batches); }
  }

  // ----- counting -----

  function Count(rows: seq<Row>, outcome: Outcome): nat {
    if rows == [] then 0 else (if rows[0].outcome == outcome then 1 else 0) + Count(rows[1..], outcome)
  }

  function Total(batches: seq<Option<Batch>>, outcome: Outcome): nat {
    if batches == [] then 0
    else (if batches[0].Some? then Count(batches[0].value.results, outcome) else 0) + Total(batches[1..], outcome)
  }

  lemma SourceNoSlash(source: string)
    requires source in SOURCES
    ensures '/' !in source
  {
  }

  lemma RowKey(source: string, r: Row)
    requires source in SOURCES && Key(r.provider, r.role) in PROJECT_KEYS
    ensures Key("neon", source) != Key("supabase", source)
    ensures r.role == source <==>
            Key(r.provider, r.role) == Key("neon", source) || Key(r.provider, r.role) == Key("supabase", source)
  {
    SourceNoSlash(source);
    KeyExact("neon", source, "supabase", source);
    KeyExact("neon", source, r.provider, r.role);
    KeyExact("supabase", source, r.provider, r.role);
    KeyProvider(r.provider, r.role);
  }

  lemma KeyProvider(provider: string, role: string)
    requires Key(provider, role) in PROJECT_KEYS
    ensures provider == "neon" || provider == "supabase"
  {
    var i :| 0 <= i < |PROJECT_KEYS| && PROJECT_KEYS[i] == Key(provider, role);
    KeyAt(i);
    NoSlash(ROLES[i % 3]);
    KeyExact(if i < 3 then "neon" else "supabase", ROLES[i % 3], provider, role);
  }

  lemma {:induction false} CountAllowed(source: string, rows: seq<Row>)
    requires source in SOURCES
    requires forall r | r in rows :: r.outcome == Expected(source, r) && Key(r.provider, r.role) in PROJECT_KEYS
    ensures Count(rows, Allowed)
         == multiset(RowKeys(rows))[Key("neon", source)] + multiset(RowKeys(rows))[Key("supabase", source)]
    ensures Count(rows, Denied) == |rows| - Count(rows, Allowed) && Count(rows, Inconclusive) == 0
  {
    if rows != [] {
      var r, rest := rows[0], rows[1..];
      CountAllowed(source, rest);
      RowKey(source, r);
      assert RowKeys(rows) == [Key(r.provider, r.role)] + RowKeys(rest);
      assert multiset(RowKeys(rows)) == multiset{Key(r.provider, r.role)} + multiset(RowKeys(rest));
    }
  }

  lemma ContractedKey(provider: string, source: string)
    requires provider in ["neon", "supabase"] && source in SOURCES
    ensures Key(provider, source) in PROJECT_KEYS <==> source in ROLES
  {
    var keys, roles := PROJECT_KEYS, ROLES;
    if Key(provider, source) in keys {
      var i :| 0 <= i < |keys| && keys[i] == Key(provider, source);
      KeyAt(i);
      NoSlash(roles[i % 3]);
      KeyExact(if i < 3 then "neon" else "supabase", roles[i % 3], provider, source);
    }
    if source in roles {
      var j :| 0 <= j < |roles| && roles[j] == source;
      var i := if provider == "neon" then j else j + 3;
      KeyAt(i);
      assert keys[i] == Key(provider, source);
    }
  }

  lemma KeyCount(key: string)
    ensures multiset(PROJECT_KEYS)[key] == if key in PROJECT_KEYS then 1 else 0
  {
    KeysOnce(key);
    Occurrences(PROJECT_KEYS, key);
  }

  /** A batch holds six observations: two were allowed if its source is a role, none otherwise. */
  predicate Tallied(b: Batch) {
    && Count(b.results, Allowed) == (if b.source in ROLES then 2 else 0)
    && Count(b.results, Denied) == 6 - Count(b.results, Allowed)
    && Count(b.results, Inconclusive) == 0
  }

  lemma RowsKeyed(rows: seq<Row>, keys: seq<string>)
    requires multiset(RowKeys(rows)) == multiset(keys)
    ensures |rows| == |keys| && forall r | r in rows :: Key(r.provider, r.role) in keys
  {
    var names := RowKeys(rows);
    SameSize(names, keys);
    forall r | r in rows ensures Key(r.provider, r.role) in keys {
      var i :| 0 <= i < |rows| && rows[i] == r;
      assert names[i] in multiset(names);
    }
  }

  lemma RowsTallied(source: string, rows: seq<Row>)
    requires source in SOURCES && multiset(RowKeys(rows)) == multiset(PROJECT_KEYS)
    requires forall r | r in rows :: r.outcome == Expected(source, r)
    ensures Count(rows, Allowed) == if source in ROLES then 2 else 0
    ensures Count(rows, Denied) == 6 - Count(rows, Allowed) && Count(rows, Inconclusive) == 0
  {
    RowsKeyed(rows, PROJECT_KEYS);
    CountAllowed(source, rows);
    KeyCount(Key("neon", source));
    KeyCount(Key("supabase", source));
    ContractedKey("neon", source);
    ContractedKey("supabase", source);
  }

  lemma BatchCounts(env: Env, c: Contract, b: Batch)
    requires b.source in SOURCES && Conclusive(env, c, b)
    requires multiset(IntentKeys(c.projects)) == multiset(PROJECT_KEYS)
    ensures Tallied(b)
  {
    BatchTallied(b);
  }

  lemma BatchTallied(b: Batch)
    requires b.source in SOURCES && multiset(RowKeys(b.results)) == multiset(PROJECT_KEYS)
    requires forall r | r in b.results :: r.outcome == if r.role == b.source then Allowed else Denied
    ensures Tallied(b)
  {
    RowsTallied(b.source, b.results);
  }

  function RoleSources(sources: seq<string>): nat {
    if sources == [] then 0 else (if sources[0] in ROLES then 1 else 0) + RoleSources(sources[1..])
  }

  lemma {:induction false} RoleSourcesByMultiset(sources: seq<string>)
    ensures var m := multiset(sources); RoleSources(sources) == m["canonical"] + m["auth"] + m["admin"]
  {
    if sources != [] {
      RoleSourcesByMultiset(sources[1..]);
      assert sources == [sources[0]] + sources[1..];
      assert multiset(sources) == multiset{sources[0]} + multiset(sources[1..]);
      var x := sources[0];
      assert x in ROLES <==> x == "canonical" || x == "auth" || x == "admin";
      assert "canonical" != "auth" && "auth" != "admin" && "canonical" != "admin";
    }
  }

  lemma ThreeRoles(sources: seq<string>)
    requires multiset(sources) == multiset(SOURCES)
    ensures |sources| == 5 && RoleSources(sources) == 3
  {
    SameSize(sources, SOURCES);
    RoleSourcesByMultiset(sources);
    RoleSourcesByMultiset(SOURCES);
  }

  lemma {:induction false} TotalCounts(batches: seq<Option<Batch>>, sources: seq<string>)
    requires forall i | 0 <= i < |batches| :: batches[i].Some? && Tallied(batches[i].value)
    requires |sources| == |batches| && forall i | 0 <= i < |batches| :: sources[i] == batches[i].value.source
    ensures Total(batches, Allowed) == 2 * RoleSources(sources)
    ensures Total(batches, Denied) == 6 * |batches| - 2 * RoleSources(sources)
    ensures Total(batches, Inconclusive) == 0
  {
    if batches != [] {
      assert Tallied(batches[0].value);
      TotalCounts(batches[1..], sources[1..]);
    }
  }

  /** A complete matrix has thirty observations: the six of a project from its
      own role, which were allowed, and twenty-four others, which were denied. */
  lemma ThirtyCells(env: Env, c: Contract, batches: seq<Option<Batch>>)
    requires Matrix(env, c, batches) && multiset(IntentKeys(c.projects)) == multiset(PROJECT_KEYS)
    ensures |batches| == 5
    ensures Total(batches, Allowed) == 6 && Total(batches, Denied) == 24 && Total(batches, Inconclusive) == 0
  {
    AllValid(batches);
    var sources := Sources(batches);
    ThreeRoles(sources);
    forall i | 0 <= i < |batches| ensures Tallied(batches[i].value) { BatchCounts(env, c, batches[i].value); }
    TotalCounts(batches, sources);
  }

  /** The live audit is silent exactly for an active, certified configuration
      probed by a complete matrix. */
  lemma ProbesExactly(env: Env, c: Contract, s: Snapshot, batches: seq<Option<Batch>>)
    ensures ProbeIssues(env, Ok(c), Some(s), batches) == [] <==>
            && SnapshotIssues(env, Ok(c), Some(s)) == [] && c.expectedState == "active"
            && |batches| == 5 && Matrix(env, c, batches)
  {
    if |batches| == 5 { MatrixExactly(env, c, batches); }
  }

  /** Every source was probed once, in one run, with thirty observations. */
  lemma ProbesCertify(env: Env, c: Contract, s: Snapshot, batches: seq<Option<Batch>>)
    requires Sound(env) && SchemaHolds(c)
    requires NoCollision(env, SortBy(s.areas, ByRole(env)), SortBy(c.areas, ByRole(env)))
    requires ProbeIssues(env, Ok(c), Some(s), batches) == []
    ensures Certified(c, s) && Matrix(env, c, batches)
    ensures Total(batches, Allowed) == 6 && Total(batches, Denied) == 24 && Total(batches, Inconclusive) == 0
  {
    ProbesExactly(env, c, s, batches);
    SilenceCertifies(env, c, s);
    SnapshotExactly(env, c, s);
    ThirtyCells(env, c, batches);
  }
}
