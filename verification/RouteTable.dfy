/**
 * The registry's route table, path by path: what each route spells, that no path
 * belongs to two of them, and which methods each takes
 * (workers/shared/github-fallback.js).
 */
module RouteTable {
  import opened Common
  import opened Routes
  import Text

  /** An absolute path of these parts. */
  function At(parts: seq<string>): string { "/" + Text.Join(parts, "/") }

  predicate Tail(s: string) { s != "" && forall c | c in s :: c !in "\n\r\U{2028}\U{2029}" }

  predicate Version(s: string) { VersionGrammar(s, 128) }

  /** The paths of a route. */
  ghost predicate Spelled(spec: RouteSpec, p: string) {
    match spec
    case Healthz => p == At(["healthz"])
    case ListPackages => p == At(["v1", "packages"])
    case GetPackage => exists org, name :: p == At(["v1", "packages", org, name]) && SlugChars(org) && RouteName(name)
    case VersionRoute => exists org, name, v ::
      p == At(["v1", "packages", org, name, "versions", v]) && SlugChars(org) && RouteName(name) && Version(v)
    case Yank => exists org, name, v ::
      p == At(["v1", "packages", org, name, "versions", v, "yank"]) && SlugChars(org) && SlugChars(name) && Version(v)
    case Artifact => exists digest :: p == At(["v1", "artifacts", digest]) && IsSha256(digest)
    case Files => exists org, name, v, tail ::
      p == At(["v1", "files", org, name, v, tail]) && SlugChars(org) && SlugChars(name) && Version(v) && Tail(tail)
    case Search => p == At(["v1", "search"])
    case SemanticSearch => p == At(["v1", "search", "semantic"])
    case Embedding => exists org, name ::
      p == At(["v1", "packages", org, name, "embedding"]) && SlugChars(org) && SlugChars(name)
    case ClaimOrg => p == At(["v1", "orgs"])
    case AuditVerify => exists org :: p == At(["v1", "orgs", org, "audit", "verify"]) && SlugChars(org)
    case Audit => exists org :: p == At(["v1", "orgs", org, "audit"]) && SlugChars(org)
    case GraphExport => exists org, name, v, format ::
      && p == At(["v1", "packages", org, name, "versions", v, "dependency-graph", "export", format])
      && SlugChars(org) && SlugChars(name) && Version(v) && SlugChars(format)
    case Graph => exists org, name, v ::
      && p == At(["v1", "packages", org, name, "versions", v, "dependency-graph"])
      && SlugChars(org) && SlugChars(name) && Version(v)
    case Resolution => exists digest :: p == At(["v1", "resolutions", "sha256:" + digest, "dependency-graph"]) && IsSha256(digest)
  }

  predicate Parts(parts: seq<string>) { parts != [] && forall i | 0 <= i < |parts| :: '/' !in parts[i] }

  lemma AtSplit(p: string, parts: seq<string>)
    requires p != "" && p[0] == '/' && Parts(parts)
    ensures Text.Split(p, '/') == [""] + parts <==> p == At(parts)
  {
    var all := [""] + parts;
    Text.JoinCons("", parts, "/");
    assert "" + "/" + Text.Join(parts, "/") == At(parts);
    forall s | s in all ensures '/' !in s {
      var i :| 0 <= i < |all| && all[i] == s;
      if i > 0 { assert all[i] == parts[i - 1]; }
    }
    Text.SplitJoin(all, '/');
    Text.JoinSplit(p, '/');
  }

  lemma NamesHaveNoSlash(s: string)
    requires SlugChars(s) || RouteName(s) || Version(s) || IsSha256(s)
    ensures '/' !in s
  {
    if NativeSegment(s) { NamesArePlain(s); }
  }

  lemma PackageSpelled(p: string)
    requires p != "" && p[0] == '/'
    ensures Matches(GetPackage, Text.Split(p, '/')) <==> Spelled(GetPackage, p)
  {
    var segs := Text.Split(p, '/');
    forall org, name | SlugChars(org) && RouteName(name)
      ensures segs == ["", "v1", "packages", org, name] <==> p == At(["v1", "packages", org, name])
    {
      NamesHaveNoSlash(org);
      NamesHaveNoSlash(name);
      AtSplit(p, ["v1", "packages", org, name]);
    }
    if Matches(GetPackage, segs) { assert segs == ["", "v1", "packages", segs[3], segs[4]]; }
  }

  lemma VersionSpelled(p: string)
    requires p != "" && p[0] == '/'
    ensures Matches(VersionRoute, Text.Split(p, '/')) <==> Spelled(VersionRoute, p)
  {
    var segs := Text.Split(p, '/');
    forall org, name, v | SlugChars(org) && RouteName(name) && Version(v)
      ensures segs == ["", "v1", "packages", org, name, "versions", v] <==> p == At(["v1", "packages", org, name, "versions", v])
    {
      NamesHaveNoSlash(org);
      NamesHaveNoSlash(name);
      NamesHaveNoSlash(v);
      AtSplit(p, ["v1", "packages", org, name, "versions", v]);
    }
    if Matches(VersionRoute, segs) { assert segs == ["", "v1", "packages", segs[3], segs[4], "versions", segs[6]]; }
  }

  lemma YankSpelled(p: string)
    requires p != "" && p[0] == '/'
    ensures Matches(Yank, Text.Split(p, '/')) <==> Spelled(Yank, p)
  {
    var segs := Text.Split(p, '/');
    forall org, name, v | SlugChars(org) && SlugChars(name) && Version(v)
      ensures segs == ["", "v1", "packages", org, name, "versions", v, "yank"] <==>
              p == At(["v1", "packages", org, name, "versions", v, "yank"])
    {
      NamesHaveNoSlash(org);
      NamesHaveNoSlash(name);
      NamesHaveNoSlash(v);
      AtSplit(p, ["v1", "packages", org, name, "versions", v, "yank"]);
    }
    if Matches(Yank, segs) { assert segs == ["", "v1", "packages", segs[3], segs[4], "versions", segs[6], "yank"]; }
  }

  lemma GraphAt(p: string, org: string, name: string, v: string)
    requires p != "" && p[0] == '/' && SlugChars(org) && SlugChars(name) && Version(v)
    ensures Text.Split(p, '/') == ["", "v1", "packages", org, name, "versions", v, "dependency-graph"] <==>
            p == At(["v1", "packages", org, name, "versions", v, "dependency-graph"])
  {
    NamesHaveNoSlash(org);
    NamesHaveNoSlash(name);
    NamesHaveNoSlash(v);
    var parts := ["v1", "packages", org, name, "versions", v, "dependency-graph"];
    AtSplit(p, parts);
    assert [""] + parts == ["", "v1", "packages", org, name, "versions", v, "dependency-graph"];
  }

  lemma GraphSegments(segs: seq<string>)
    requires Matches(Graph, segs)
    ensures segs == ["", "v1", "packages", segs[3], segs[4], "versions", segs[6], "dependency-graph"]
  {
  }

  lemma GraphMatches(org: string, name: string, v: string)
    requires SlugChars(org) && SlugChars(name) && Version(v)
    ensures Matches(Graph, ["", "v1", "packages", org, name, "versions", v, "dependency-graph"])
  {
  }

  lemma GraphSpelled(p: string)
    requires p != "" && p[0] == '/'
    ensures Matches(Graph, Text.Split(p, '/')) <==> Spelled(Graph, p)
  {
    if Matches(Graph, Text.Split(p, '/')) { GraphIsSpelled(p, Text.Split(p, '/')); }
    if Spelled(Graph, p) { GraphIsMatched(p); }
  }

  lemma GraphIsSpelled(p: string, segs: seq<string>)
    requires p != "" && p[0] == '/' && segs == Text.Split(p, '/') && Matches(Graph, segs)
    ensures Spelled(Graph, p)
  {
    GraphSegments(segs);
    GraphAt(p, segs[3], segs[4], segs[6]);
  }

  lemma GraphIsMatched(p: string)
    requires p != "" && p[0] == '/' && Spelled(Graph, p)
    ensures Matches(Graph, Text.Split(p, '/'))
  {
    var org, name, v :|
      p == At(["v1", "packages", org, name, "versions", v, "dependency-graph"])
      && SlugChars(org) && SlugChars(name) && Version(v);
    GraphAt(p, org, name, v);
    GraphMatches(org, name, v);
  }

  lemma ExportAt(p: string, org: string, name: string, v: string, format: string)
    requires p != "" && p[0] == '/' && SlugChars(org) && SlugChars(name) && Version(v) && SlugChars(format)
    ensures Text.Split(p, '/') == ["", "v1", "packages", org, name, "versions", v, "dependency-graph", "export", format] <==>
            p == At(["v1", "packages", org, name, "versions", v, "dependency-graph", "export", format])
  {
    NamesHaveNoSlash(org);
    NamesHaveNoSlash(name);
    NamesHaveNoSlash(v);
    NamesHaveNoSlash(format);
    var parts := ["v1", "packages", org, name, "versions", v, "dependency-graph", "export", format];
    AtSplit(p, parts);
    assert [""] + parts == ["", "v1", "packages", org, name, "versions", v, "dependency-graph", "export", format];
  }

  lemma ExportSegments(segs: seq<string>)
    requires Matches(GraphExport, segs)
    ensures segs == ["", "v1", "packages", segs[3], segs[4], "versions", segs[6], "dependency-graph", "export", segs[9]]
  {
  }

  lemma ExportSpelled(p: string)
    requires p != "" && p[0] == '/'
    ensures Matches(GraphExport, Text.Split(p, '/')) <==> Spelled(GraphExport, p)
  {
    if Matches(GraphExport, Text.Split(p, '/')) { ExportIsSpelled(p, Text.Split(p, '/')); }
    if Spelled(GraphExport, p) { ExportIsMatched(p); }
  }

  lemma ExportIsSpelled(p: string, segs: seq<string>)
    requires p != "" && p[0] == '/' && segs == Text.Split(p, '/') && Matches(GraphExport, segs)
    ensures Spelled(GraphExport, p)
  {
    ExportSegments(segs);
    ExportAt(p, segs[3], segs[4], segs[6], segs[9]);
  }

  lemma ExportIsMatched(p: string)
    requires p != "" && p[0] == '/' && Spelled(GraphExport, p)
    ensures Matches(GraphExport, Text.Split(p, '/'))
  {
    var org, name, v, format :|
      p == At(["v1", "packages", org, name, "versions", v, "dependency-graph", "export", format])
      && SlugChars(org) && SlugChars(name) && Version(v) && SlugChars(format);
    ExportAt(p, org, name, v, format);
    ExportMatches(org, name, v, format);
  }

  lemma ExportMatches(org: string, name: string, v: string, format: string)
    requires SlugChars(org) && SlugChars(name) && Version(v) && SlugChars(format)
    ensures Matches(GraphExport, ["", "v1", "packages", org, name, "versions", v, "dependency-graph", "export", format])
  {
  }

  lemma EmbeddingSpelled(p: string)
    requires p != "" && p[0] == '/'
    ensures Matches(Embedding, Text.Split(p, '/')) <==> Spelled(Embedding, p)
  {
    var segs := Text.Split(p, '/');
    forall org, name | SlugChars(org) && SlugChars(name)
      ensures segs == ["", "v1", "packages", org, name, "embedding"] <==> p == At(["v1", "packages", org, name, "embedding"])
    {
      NamesHaveNoSlash(org);
      NamesHaveNoSlash(name);
      AtSplit(p, ["v1", "packages", org, name, "embedding"]);
    }
    if Matches(Embedding, segs) { assert segs == ["", "v1", "packages", segs[3], segs[4], "embedding"]; }
  }

  lemma ArtifactSpelled(p: string)
    requires p != "" && p[0] == '/'
    ensures Matches(Artifact, Text.Split(p, '/')) <==> Spelled(Artifact, p)
  {
    var segs := Text.Split(p, '/');
    forall digest | IsSha256(digest)
      ensures segs == ["", "v1", "artifacts", digest] <==> p == At(["v1", "artifacts", digest])
    {
      NamesHaveNoSlash(digest);
      AtSplit(p, ["v1", "artifacts", digest]);
    }
    if Matches(Artifact, segs) {
      assert segs == segs[..3] + [segs[3]];
      assert segs == ["", "v1", "artifacts", segs[3]];
    }
  }

  lemma AuditSpelled(p: string)
    requires p != "" && p[0] == '/'
    ensures Matches(Audit, Text.Split(p, '/')) <==> Spelled(Audit, p)
  {
    var segs := Text.Split(p, '/');
    forall org | SlugChars(org) ensures segs == ["", "v1", "orgs", org, "audit"] <==> p == At(["v1", "orgs", org, "audit"]) {
      NamesHaveNoSlash(org);
      AtSplit(p, ["v1", "orgs", org, "audit"]);
    }
    if Matches(Audit, segs) {
      assert segs == segs[..3] + [segs[3], segs[4]];
      assert segs == ["", "v1", "orgs", segs[3], "audit"];
    }
  }

  lemma VerifySpelled(p: string)
    requires p != "" && p[0] == '/'
    ensures Matches(AuditVerify, Text.Split(p, '/')) <==> Spelled(AuditVerify, p)
  {
    var segs := Text.Split(p, '/');
    forall org | SlugChars(org)
      ensures segs == ["", "v1", "orgs", org, "audit", "verify"] <==> p == At(["v1", "orgs", org, "audit", "verify"])
    {
      NamesHaveNoSlash(org);
      AtSplit(p, ["v1", "orgs", org, "audit", "verify"]);
    }
    if Matches(AuditVerify, segs) {
      assert segs == segs[..3] + [segs[3]] + segs[4..];
      assert segs == ["", "v1", "orgs", segs[3], "audit", "verify"];
    }
  }

  lemma ResolutionSpelled(p: string)
    requires p != "" && p[0] == '/'
    ensures Matches(Resolution, Text.Split(p, '/')) <==> Spelled(Resolution, p)
  {
    var segs := Text.Split(p, '/');
    forall digest | IsSha256(digest)
      ensures segs == ["", "v1", "resolutions", "sha256:" + digest, "dependency-graph"] <==>
              p == At(["v1", "resolutions", "sha256:" + digest, "dependency-graph"])
      ensures ("sha256:" + digest)[..7] == "sha256:" && ("sha256:" + digest)[7..] == digest
    {
      NamesHaveNoSlash(digest);
      AtSplit(p, ["v1", "resolutions", "sha256:" + digest, "dependency-graph"]);
    }
    if Matches(Resolution, segs) {
      assert segs[3] == "sha256:" + segs[3][7..];
      assert segs == segs[..3] + [segs[3], segs[4]];
      assert segs == ["", "v1", "resolutions", "sha256:" + segs[3][7..], "dependency-graph"];
    }
  }

  lemma FixedAt(p: string, parts: seq<string>, segs: seq<string>)
    requires p != "" && p[0] == '/' && Parts(parts) && segs == [""] + parts
    ensures Text.Split(p, '/') == segs <==> p == At(parts)
  {
    AtSplit(p, parts);
  }

  lemma FixedSpelled(spec: RouteSpec, p: string)
    requires p != "" && p[0] == '/' && spec in {Healthz, ListPackages, Search, SemanticSearch, ClaimOrg}
    ensures Matches(spec, Text.Split(p, '/')) <==> Spelled(spec, p)
  {
    match spec
    case Healthz => FixedAt(p, ["healthz"], ["", "healthz"]);
    case ListPackages => FixedAt(p, ["v1", "packages"], ["", "v1", "packages"]);
    case Search => FixedAt(p, ["v1", "search"], ["", "v1", "search"]);
    case SemanticSearch => FixedAt(p, ["v1", "search", "semantic"], ["", "v1", "search", "semantic"]);
    case ClaimOrg => FixedAt(p, ["v1", "orgs"], ["", "v1", "orgs"]);
  }

  lemma {:induction false} JoinLast(parts: seq<string>, tail: string)
    requires parts != []
    ensures Text.Join(parts + [tail], "/") == Text.Join(parts, "/") + "/" + tail
  {
    if |parts| == 1 {
      assert parts + [tail] == [parts[0]] + [tail];
      Text.JoinCons(parts[0], [tail], "/");
    } else {
      JoinLast(parts[1..], tail);
      assert parts + [tail] == [parts[0]] + (parts[1..] + [tail]);
      assert parts == [parts[0]] + parts[1..];
      Text.JoinCons(parts[0], parts[1..] + [tail], "/");
      Text.JoinCons(parts[0], parts[1..], "/");
    }
  }

  /** A path may go on after its parts. */
  lemma TailSplit(head: seq<string>, tail: string)
    requires Parts(head)
    ensures Text.Split(At(head + [tail]), '/') == [""] + head + Text.Split(tail, '/')
  {
    var prefix := At(head);
    AtSplit(prefix, head);
    JoinLast(head, tail);
    assert At(head + [tail]) == prefix + ['/'] + tail;
    Text.SplitConcat(prefix, '/', tail);
  }

  lemma FilesAt(p: string, org: string, name: string, v: string, tail: string)
    requires p != "" && p[0] == '/' && SlugChars(org) && SlugChars(name) && Version(v)
    ensures p == At(["v1", "files", org, name, v, tail]) <==>
            Text.Split(p, '/') == ["", "v1", "files", org, name, v] + Text.Split(tail, '/')
  {
    NamesHaveNoSlash(org);
    NamesHaveNoSlash(name);
    NamesHaveNoSlash(v);
    var head := ["v1", "files", org, name, v];
    TailSplit(head, tail);
    assert head + [tail] == ["v1", "files", org, name, v, tail];
    assert [""] + head == ["", "v1", "files", org, name, v];
    Text.JoinSplit(p, '/');
    Text.JoinSplit(At(head + [tail]), '/');
  }

  lemma FilesSpelled(p: string)
    requires p != "" && p[0] == '/'
    ensures Matches(Files, Text.Split(p, '/')) <==> Spelled(Files, p)
  {
    if Matches(Files, Text.Split(p, '/')) { FilesIsSpelled(p, Text.Split(p, '/')); }
    if Spelled(Files, p) {
      var org, name, v, tail :|
        p == At(["v1", "files", org, name, v, tail]) && SlugChars(org) && SlugChars(name) && Version(v) && Tail(tail);
      FilesAt(p, org, name, v, tail);
      FilesMatch(Text.Split(p, '/'), org, name, v, tail);
    }
  }

  lemma FilesIsSpelled(p: string, segs: seq<string>)
    requires p != "" && p[0] == '/' && segs == Text.Split(p, '/') && Matches(Files, segs)
    ensures Spelled(Files, p)
  {
    var tail := Text.Join(segs[6..], "/");
    FilesSegments(segs);
    Text.SplitParts(p, '/');
    RestSplit(segs);
    FilesAt(p, segs[3], segs[4], segs[5], tail);
  }

  lemma FilesSegments(segs: seq<string>)
    requires Matches(Files, segs)
    ensures segs == ["", "v1", "files", segs[3], segs[4], segs[5]] + segs[6..]
    ensures SlugChars(segs[3]) && SlugChars(segs[4]) && Version(segs[5]) && Tail(Text.Join(segs[6..], "/"))
  {
    assert segs == segs[..3] + [segs[3], segs[4], segs[5]] + segs[6..];
  }

  lemma RestSplit(segs: seq<string>)
    requires |segs| > 6 && forall s | s in segs :: '/' !in s
    ensures Text.Split(Text.Join(segs[6..], "/"), '/') == segs[6..]
  {
    assert forall s | s in segs[6..] :: s in segs;
    Text.SplitJoin(segs[6..], '/');
  }

  lemma FilesMatch(segs: seq<string>, org: string, name: string, v: string, tail: string)
    requires segs == ["", "v1", "files", org, name, v] + Text.Split(tail, '/')
    requires SlugChars(org) && SlugChars(name) && Version(v) && Tail(tail)
    ensures Matches(Files, segs)
  {
    assert segs[6..] == Text.Split(tail, '/');
    Text.JoinSplit(tail, '/');
  }

  lemma MatchSpelled(spec: RouteSpec, p: string)
    requires p != "" && p[0] == '/'
    ensures Matches(spec, Text.Split(p, '/')) <==> Spelled(spec, p)
  {
    match spec
    case GetPackage => PackageSpelled(p);
    case VersionRoute => VersionSpelled(p);
    case Yank => YankSpelled(p);
    case Artifact => ArtifactSpelled(p);
    case Files => FilesSpelled(p);
    case Embedding => EmbeddingSpelled(p);
    case AuditVerify => VerifySpelled(p);
    case Audit => AuditSpelled(p);
    case GraphExport => ExportSpelled(p);
    case Graph => GraphSpelled(p);
    case Resolution => ResolutionSpelled(p);
    case _ => FixedSpelled(spec, p);
  }

  // ----- one route for a path -----

  /** What every path of a route has in common: its length and the parts that are fixed. */
  lemma Disjoint(a: RouteSpec, b: RouteSpec, segs: seq<string>)
    requires Matches(a, segs) && Matches(b, segs)
    ensures a == b
  {
  }

  lemma {:induction false} MatchIsFound(specs: seq<RouteSpec>, segs: seq<string>, spec: RouteSpec)
    requires spec in specs && Matches(spec, segs)
    ensures FirstMatch(specs, segs) == Some(spec)
  {
    if Matches(specs[0], segs) { Disjoint(specs[0], spec, segs); } else { MatchIsFound(specs[1..], segs, spec); }
  }

  lemma {:induction false} FoundMatches(specs: seq<RouteSpec>, segs: seq<string>)
    ensures FirstMatch(specs, segs).Some? ==> Matches(FirstMatch(specs, segs).value, segs)
  {
    if specs != [] && !Matches(specs[0], segs) { FoundMatches(specs[1..], segs); }
  }

  lemma AllSpecs(spec: RouteSpec)
    ensures spec in SPECS
  {
    match spec
    case Healthz => assert SPECS[0] == spec;
    case ListPackages => assert SPECS[1] == spec;
    case GetPackage => assert SPECS[2] == spec;
    case VersionRoute => assert SPECS[3] == spec;
    case Yank => assert SPECS[4] == spec;
    case Artifact => assert SPECS[5] == spec;
    case Files => assert SPECS[6] == spec;
    case Search => assert SPECS[7] == spec;
    case SemanticSearch => assert SPECS[8] == spec;
    case Embedding => assert SPECS[9] == spec;
    case ClaimOrg => assert SPECS[10] == spec;
    case AuditVerify => assert SPECS[11] == spec;
    case Audit => assert SPECS[12] == spec;
    case GraphExport => assert SPECS[13] == spec;
    case Graph => assert SPECS[14] == spec;
    case Resolution => assert SPECS[15] == spec;
  }

  /** The path as it is matched: without its trailing slashes, and only if it is
      short and holds nothing a server could read twice. */
  predicate Canonical(path: string, p: string) {
    && |path| <= 2048 && (forall i | 0 <= i < |path| :: path[i] !in "%\\\0")
    && (forall i | 0 < i < |path| :: !(path[i - 1] == path[i] && path[i] in "./"))
    && p == if path == "" || path == "/" then "/" else if path[|path| - 1] == '/' then path[..|path| - 1] else path
  }

  lemma CanonicalExactly(path: string, p: string)
    ensures NormalizePath(path) == Some(p) <==> Canonical(path, p)
  {
    assert '%' in path ==> exists i :: 0 <= i < |path| && path[i] == '%';
    assert '\\' in path ==> exists i :: 0 <= i < |path| && path[i] == '\\';
    assert '\0' in path ==> exists i :: 0 <= i < |path| && path[i] == '\0';
    DoublesExactly(path);
    if !Text.HasDouble(path, '/') { TrimOne(path); }
  }

  lemma DoublesExactly(path: string)
    ensures (Text.HasDouble(path, '.') || Text.HasDouble(path, '/')) <==>
            exists i :: 0 < i < |path| && path[i - 1] == path[i] && path[i] in "./"
  {
    if i :| 0 <= i < |path| - 1 && path[i] == '.' && path[i + 1] == '.' { assert path[i + 1 - 1] == path[i + 1]; }
    if i :| 0 <= i < |path| - 1 && path[i] == '/' && path[i + 1] == '/' { assert path[i + 1 - 1] == path[i + 1]; }
    if i :| 0 < i < |path| && path[i - 1] == path[i] && path[i] in "./" {
      assert path[i - 1] == path[i - 1 + 1];
    }
  }

  lemma DoubleAtEnd(path: string)
    ensures |path| >= 2 && path[|path| - 2] == path[|path| - 1] == '/' ==> Text.HasDouble(path, '/')
  {
    if |path| >= 2 && path[|path| - 2] == path[|path| - 1] == '/' {
      var i := |path| - 2;
      assert path[i] == '/' && path[i + 1] == '/';
    }
  }

  lemma TrimOne(path: string)
    requires !Text.HasDouble(path, '/')
    ensures Text.TrimEnd(path, '/') == if path != "" && path[|path| - 1] == '/' then path[..|path| - 1] else path
  {
    if path != "" && path[|path| - 1] == '/' {
      var front := path[..|path| - 1];
      DoubleAtEnd(path);
      assert Text.TrimEnd(front, '/') == front;
    }
  }

  /** A path is matched by a route exactly when, in its canonical form, the route spells it. */
  lemma RouteExactly(path: string, spec: RouteSpec)
    requires path != "" && path[0] == '/'
    ensures MatchRoute(path) == Some(spec) <==> exists p :: Canonical(path, p) && Spelled(spec, p)
  {
    if NormalizePath(path).Some? {
      var p := NormalizePath(path).value;
      CanonicalExactly(path, p);
      var segs := Text.Split(p, '/');
      MatchSpelled(spec, p);
      AllSpecs(spec);
      FoundMatches(SPECS, segs);
      if Matches(spec, segs) { MatchIsFound(SPECS, segs, spec); }
    }
    forall p | Canonical(path, p) ensures NormalizePath(path) == Some(p) { CanonicalExactly(path, p); }
  }

  /** Reads are read, versions and embeddings are put, and the other three are posted. */
  lemma MethodsExactly(spec: RouteSpec, verb: string)
    ensures verb in Methods(spec) <==>
            || (verb in {"GET", "HEAD"} && spec !in {Yank, SemanticSearch, Embedding, ClaimOrg})
            || (verb == "PUT" && spec in {VersionRoute, Embedding})
            || (verb == "POST" && spec in {Yank, SemanticSearch, ClaimOrg})
  {
  }

  /** What is done with a request, by route and method. */
  lemma ActionExactly(verb: string, path: string)
    ensures Classify(verb, path) ==
            match MatchRoute(path) {
              case None => DenyRoute
              case Some(spec) =>
                if verb == "OPTIONS" then Preflight
                else if verb == "PUT" && spec in {VersionRoute, Embedding} then OriginWrite
                else if verb == "POST" && spec in {Yank, SemanticSearch, ClaimOrg} then OriginWrite
                else if verb in {"GET", "HEAD"} && spec !in {Yank, SemanticSearch, Embedding, ClaimOrg} then
                  if spec == Healthz then Health
                  else if spec in {GetPackage, VersionRoute} then FallbackRead else OriginRead
                else DenyMethod
            }
  {
    if MatchRoute(path).Some? { MethodsExactly(MatchRoute(path).value, verb); }
  }
}
