/**
 * The registry and CDN path grammars (workers/shared/github-fallback.js and
 * workers/cdn-proxy/src/index.js) and the R2 object keys that edge publishing
 * writes (workers/shared/edge-publish.js). Paths come from a parsed URL, so
 * they are text; regular expressions anchored at both ends are read as the
 * `/`-separated segments they describe.
 */
module Routes {
  import opened Common
  import opened NativeCoordinate
  import Text

  predicate LowerDigit(c: char) { 'a' <= c <= 'z' || '0' <= c <= '9' }

  predicate Hex(c: char) { 'a' <= c <= 'f' || '0' <= c <= '9' }

  predicate AlnumChar(c: char) { LowerDigit(c) || 'A' <= c <= 'Z' }

  predicate VersionChar(c: char) { AlnumChar(c) || c == '.' || c == '+' || c == '-' }

  predicate FileChar(c: char) { VersionChar(c) || c == '_' }

  /** `[a-z0-9-]+` */
  predicate SlugChars(s: string) {
    s != "" && forall i | 0 <= i < |s| :: LowerDigit(s[i]) || s[i] == '-'
  }

  /** `isSlug`: non-empty runs of letters and digits joined by single hyphens. */
  predicate IsSlug(s: string) {
    |s| <= 128 && forall p | p in Text.Split(s, '-') :: p != "" && forall c | c in p :: LowerDigit(c)
  }

  predicate IsSha256(s: string) { |s| == 64 && forall i | 0 <= i < |s| :: Hex(s[i]) }

  predicate NativeSegment(s: string) { SegmentGrammar(s, 1400) }

  predicate IsPackageNameSegment(s: string) { IsSlug(s) || NativeSegment(s) }

  /** `[0-9A-Za-z][0-9A-Za-z.+-]*`, at most `max` characters. */
  predicate VersionGrammar(s: string, max: nat) {
    && 1 <= |s| <= max && AlnumChar(s[0])
    && forall i | 0 <= i < |s| :: VersionChar(s[i])
  }

  /** `isSafeSegment(s, VERSION)` */
  predicate SafeVersionSegment(s: string) { VersionGrammar(s, 128) && !Text.HasDouble(s, '.') }

  predicate RouteName(s: string) { SlugChars(s) || NativeSegment(s) }

  // ----- normalizePath, matchRegistryRoute, classifyRegistryRequest -----

  function NormalizePath(path: string): Option<string> {
    if |path| > 2048 || '%' in path || Text.HasDouble(path, '.') || '\\' in path || '\0' in path
       || Text.HasDouble(path, '/')
    then None
    else if Text.TrimEnd(path, '/') == "" then Some("/")
    else Some(Text.TrimEnd(path, '/'))
  }

  datatype RouteSpec =
    | Healthz | ListPackages | GetPackage | VersionRoute | Yank | Artifact | Files | Search
    | SemanticSearch | Embedding | ClaimOrg | AuditVerify | Audit | GraphExport | Graph | Resolution

  function Methods(spec: RouteSpec): seq<string> {
    match spec
    case VersionRoute => ["GET", "HEAD", "PUT"]
    case Yank => ["POST"]
    case SemanticSearch => ["POST"]
    case Embedding => ["PUT"]
    case ClaimOrg => ["POST"]
    case _ => ["GET", "HEAD"]
  }

  predicate HasFallback(spec: RouteSpec) { spec.GetPackage? || spec.VersionRoute? }

  predicate PackagePrefix(segs: seq<string>) {
    |segs| >= 5 && segs[0] == "" && segs[1] == "v1" && segs[2] == "packages" && SlugChars(segs[3])
  }

  predicate VersionPrefix(segs: seq<string>) {
    PackagePrefix(segs) && |segs| >= 7 && segs[5] == "versions" && VersionGrammar(segs[6], 128)
  }

  /** The rest of a path after `n` segments is non-empty and has no line terminator (`.+`). */
  predicate AnyTail(segs: seq<string>, n: nat) {
    && |segs| > n && Text.Join(segs[n..], "/") != ""
    && forall c | c in Text.Join(segs[n..], "/") :: c != '\n' && c != '\r' && c != '\U{2028}' && c != '\U{2029}'
  }

  predicate Matches(spec: RouteSpec, segs: seq<string>) {
    match spec
    case Healthz => segs == ["", "healthz"]
    case ListPackages => segs == ["", "v1", "packages"]
    case GetPackage => PackagePrefix(segs) && |segs| == 5 && RouteName(segs[4])
    case VersionRoute => VersionPrefix(segs) && |segs| == 7 && RouteName(segs[4])
    case Yank => VersionPrefix(segs) && |segs| == 8 && SlugChars(segs[4]) && segs[7] == "yank"
    case Artifact => |segs| == 4 && segs[..3] == ["", "v1", "artifacts"] && IsSha256(segs[3])
    case Files =>
      && |segs| >= 7 && segs[..3] == ["", "v1", "files"] && SlugChars(segs[3]) && SlugChars(segs[4])
      && VersionGrammar(segs[5], 128) && AnyTail(segs, 6)
    case Search => segs == ["", "v1", "search"]
    case SemanticSearch => segs == ["", "v1", "search", "semantic"]
    case Embedding => PackagePrefix(segs) && |segs| == 6 && SlugChars(segs[4]) && segs[5] == "embedding"
    case ClaimOrg => segs == ["", "v1", "orgs"]
    case AuditVerify =>
      |segs| == 6 && segs[..3] == ["", "v1", "orgs"] && SlugChars(segs[3]) && segs[4..] == ["audit", "verify"]
    case Audit => |segs| == 5 && segs[..3] == ["", "v1", "orgs"] && SlugChars(segs[3]) && segs[4] == "audit"
    case GraphExport =>
      && VersionPrefix(segs) && |segs| == 10 && SlugChars(segs[4]) && segs[7] == "dependency-graph"
      && segs[8] == "export" && SlugChars(segs[9])
    case Graph => VersionPrefix(segs) && |segs| == 8 && SlugChars(segs[4]) && segs[7] == "dependency-graph"
    case Resolution =>
      && |segs| == 5 && segs[..3] == ["", "v1", "resolutions"]
      && |segs[3]| == 71 && segs[3][..7] == "sha256:" && IsSha256(segs[3][7..])
      && segs[4] == "dependency-graph"
  }

  const SPECS: seq<RouteSpec> := [
    Healthz, ListPackages, GetPackage, VersionRoute, Yank, Artifact, Files, Search, SemanticSearch,
    Embedding, ClaimOrg, AuditVerify, Audit, GraphExport, Graph, Resolution]

  function FirstMatch(specs: seq<RouteSpec>, segs: seq<string>): Option<RouteSpec> {
    if specs == [] then None
    else if Matches(specs[0], segs) then Some(specs[0])
    else FirstMatch(specs[1..], segs)
  }

  function MatchRoute(path: string): Option<RouteSpec> {
    match NormalizePath(path)
    case None => None
    case Some(p) => FirstMatch(SPECS, Text.Split(p, '/'))
  }

  datatype Action = Preflight | Health | OriginRead | OriginWrite | FallbackRead | DenyMethod | DenyRoute

  /** `classifyRegistryRequest` for an upper-case method name. */
  function Classify(verb: string, path: string): Action {
    match MatchRoute(path)
    case None => DenyRoute
    case Some(spec) =>
      if verb == "OPTIONS" then Preflight
      else if verb !in Methods(spec) then DenyMethod
      else if spec.Healthz? then Health
      else if verb == "GET" || verb == "HEAD" then
        if HasFallback(spec) then FallbackRead else OriginRead
      else OriginWrite
  }

  // ----- parseRegistryPath -----

  datatype Route =
    | HealthRoute
    | ArtifactRoute(sha256: string)
    | PackageRoute(org: string, name: string)
    | PublishRoute(org: string, name: string, version: string)

  function ParseSegments(segs: seq<string>): Option<Route> {
    if segs == ["", "healthz"] then Some(HealthRoute)
    else if |segs| == 4 && segs[..3] == ["", "v1", "artifacts"] && IsSha256(segs[3]) then
      Some(ArtifactRoute(segs[3]))
    else if PackagePrefix(segs) && |segs| == 7 && segs[5] == "versions"
            && IsSlug(segs[3]) && IsPackageNameSegment(segs[4]) && SafeVersionSegment(segs[6]) then
      Some(PublishRoute(segs[3], segs[4], segs[6]))
    else if PackagePrefix(segs) && |segs| == 5 && IsSlug(segs[3]) && IsPackageNameSegment(segs[4]) then
      Some(PackageRoute(segs[3], segs[4]))
    else None
  }

  function ParseRegistryPath(path: string): Option<Route> {
    match NormalizePath(path)
    case None => None
    case Some(p) => ParseSegments(Text.Split(p, '/'))
  }

  // ----- R2 object keys (edge-publish.js) -----

  /** `ORG_NAME` */
  predicate OrgName(s: string) { SlugChars(s) && s[0] != '-' }

  function VersionPrefixKey(org: string, name: string): string {
    "metadata/" + org + "/" + name + "/versions/"
  }

  function VersionMetadataKey(org: string, name: string, version: string): Option<string> {
    if OrgName(org) && OrgName(name) && VersionGrammar(version, 128) then
      Some(VersionPrefixKey(org, name) + version + ".json")
    else None
  }

  // ----- the CDN handler's keys (cdn-proxy/src/index.js, parseCdnPath) -----

  /** `ARTIFACT_KEY` */
  predicate IsArtifactKey(key: string) {
    && |key| >= 75 && key[..10] == "artifacts/" && IsSha256(key[10..74])
    && (key[74..] == ".tar.gz" || key[74..] == ".zip")
  }

  /** `METADATA_KEY` */
  predicate IsMetadataKey(key: string) {
    var segs := Text.Split(key, '/');
    && |segs| >= 4 && segs[0] == "metadata" && OrgName(segs[1]) && OrgName(segs[2])
    && (if |segs| == 4 then segs[3] == "index.json"
        else |segs| == 5 && segs[3] == "versions" && Text.EndsWith(segs[4], ".json")
             && VersionGrammar(segs[4][..|segs[4]| - 5], 128))
  }

  function TrimStart(s: string): string { if s != "" && s[0] == '/' then TrimStart(s[1..]) else s }

  function CanonicalCdnKey(path: string): Option<string> {
    if |path| > 513 || path == "" || path[0] != '/' || '%' in path || '\\' in path || '\0' in path then None
    else
      var key := Text.TrimEnd(path[1..], '/');
      if key == "" || Text.HasDouble(key, '.') || Text.HasDouble(key, '/') then None else Some(key)
  }

  /** `isSafeSegment(s, FILENAME)`, also for `GIT_REF`. */
  predicate SafeFile(s: string) {
    1 <= |s| <= 128 && !Text.HasDouble(s, '.') && forall i | 0 <= i < |s| :: FileChar(s[i])
  }

  predicate ContentObject(segs: seq<string>) {
    && |segs| == 2 && segs[0] == "artifacts" && |segs[1]| > 65 && IsSha256(segs[1][..64])
    && segs[1][64] == '.' && '_' !in segs[1][65..] && SafeFile(segs[1][65..])
  }

  predicate GithubOrPackageObject(segs: seq<string>) {
    if |segs| == 4 && segs[0] == "github" && segs[3] == "releases.atom" then IsSlug(segs[1]) && IsSlug(segs[2])
    else if |segs| == 5 && segs[0] == "github" then
      && IsSlug(segs[1]) && IsSlug(segs[2]) && segs[3] != "releases.atom"
      && SafeFile(segs[3]) && SafeFile(segs[4])
    else
      && |segs| == 5 && segs[0] == "packages" && IsSlug(segs[1]) && IsSlug(segs[2])
      && SafeVersionSegment(segs[3]) && SafeFile(segs[4])
  }

  /** The `key` that `parseCdnPath` answers. */
  function ParseCdnPath(path: string): Option<string> {
    var key := Text.TrimEnd(TrimStart(path), '/');
    if |path| > 2048 || '%' in path || key == "" || Text.HasDouble(key, '.') || '\\' in key then None
    else
      var segs := Text.Split(key, '/');
      if ContentObject(segs) || GithubOrPackageObject(segs) then Some(key) else None
  }

  /** The R2 key a public GET reads, if its path reads R2 at all. */
  function CdnReads(path: string): Option<string> {
    var direct := CanonicalCdnKey(path);
    var parsed := if ParseCdnPath(path).Some? then ParseCdnPath(path)
                  else if direct.Some? && IsMetadataKey(direct.value) then direct
                  else None;
    if parsed.Some? && (IsArtifactKey(parsed.value) || IsMetadataKey(parsed.value)) then parsed else None
  }

  // ----- facts about slugs and segments -----

  lemma SlugIsChars(s: string)
    requires IsSlug(s)
    ensures SlugChars(s) && s[0] != '-' && s[|s| - 1] != '-'
  {
    var parts := Text.Split(s, '-');
    Text.SplitParts(s, '-');
    assert parts[0] in parts && parts[|parts| - 1] in parts;
    SplitEnds(s);
    forall i | 0 <= i < |s| ensures LowerDigit(s[i]) || s[i] == '-' {
      if s[i] != '-' {
        assert s[i] in s;
        var p :| p in parts && s[i] in p;
      }
    }
  }

  lemma {:induction false} SplitEnds(s: string)
    requires s != ""
    ensures s[0] == '-' ==> Text.Split(s, '-')[0] == ""
    ensures s[|s| - 1] == '-' ==> var parts := Text.Split(s, '-'); parts[|parts| - 1] == ""
  {
    if |s| > 1 {
      SplitEnds(s[1..]);
      Text.SplitParts(s[1..], '-');
      assert s[|s| - 1] == s[1..][|s| - 2];
    } else if s[0] == '-' {
      assert s[1..] == "";
    }
  }

  predicate PlainSegment(s: string) {
    && s != "" && '/' !in s && '%' !in s && '\\' !in s && '\0' !in s && !Text.HasDouble(s, '.')
  }

  lemma NamesArePlain(s: string)
    requires RouteName(s) || SafeVersionSegment(s)
    ensures PlainSegment(s)
  {
    if NativeSegment(s) {
      assert s == PREFIX + s[3..];
      forall i | 0 <= i < |s| ensures UrlSymbol(s[i]) {
        if i < 3 { assert s[i] == PREFIX[i]; }
      }
    }
  }

  /** Joining plain segments gives an absolute path that the router takes as it is. */
  lemma NormalizeJoined(segs: seq<string>)
    requires |segs| >= 2 && segs[0] == "" && forall i | 1 <= i < |segs| :: PlainSegment(segs[i])
    requires |Text.Join(segs, "/")| <= 2048
    ensures NormalizePath(Text.Join(segs, "/")) == Some(Text.Join(segs, "/"))
    ensures Text.Split(Text.Join(segs, "/"), '/') == segs
  {
    var tail := segs[1..];
    var rest := Text.Join(tail, "/");
    JoinedPlain(tail);
    assert segs == [""] + tail;
    var path := Text.Join(segs, "/");
    assert path == "/" + rest;
    Text.DoubleConcat("/", rest, '.');
    Text.DoubleConcat("/", rest, '/');
    assert path[|path| - 1] == rest[|rest| - 1];
    Text.SplitJoin(segs, '/');
  }

  lemma {:induction false} JoinedPlain(segs: seq<string>)
    requires segs != [] && forall s | s in segs :: PlainSegment(s)
    ensures var t := Text.Join(segs, "/");
      && t != "" && t[0] != '/' && t[|t| - 1] != '/'
      && '%' !in t && '\\' !in t && '\0' !in t && !Text.HasDouble(t, '.') && !Text.HasDouble(t, '/')
  {
    var first := segs[0];
    assert first in segs && first[0] in first && first[|first| - 1] in first;
    if |segs| > 1 {
      var rest := Text.Join(segs[1..], "/");
      JoinedPlain(segs[1..]);
      JoinTwo(first, rest);
    } else {
      Text.AbsentNoDouble(first, '/');
    }
  }

  lemma JoinTwo(a: string, b: string)
    requires PlainSegment(a) && b != "" && b[0] != '/' && b[|b| - 1] != '/'
    requires '%' !in b && '\\' !in b && '\0' !in b && !Text.HasDouble(b, '.') && !Text.HasDouble(b, '/')
    ensures var t := a + "/" + b;
      && t[0] != '/' && t[|t| - 1] != '/'
      && '%' !in t && '\\' !in t && '\0' !in t && !Text.HasDouble(t, '.') && !Text.HasDouble(t, '/')
  {
    assert a[0] in a && a[|a| - 1] in a;
    Text.AbsentNoDouble(a, '/');
    Text.DoubleConcat(a, "/", '.');
    Text.DoubleConcat(a, "/", '/');
    Text.DoubleConcat(a + "/", b, '.');
    Text.DoubleConcat(a + "/", b, '/');
  }

  /**
   * Every accepted coordinate of a registry, under any organisation slug, is
   * one package segment: the parser reads it back and a GET is a fallback read.
   */
  lemma CoordinateRoutes(org: string, segment: string)
    requires IsSlug(org) && SegmentGrammar(segment, 1366)
    ensures var path := Text.Join(["", "v1", "packages", org, segment], "/");
      && ParseRegistryPath(path) == Some(PackageRoute(org, segment))
      && Classify("GET", path) == FallbackRead && Classify("HEAD", path) == FallbackRead
  {
    var segs := ["", "v1", "packages", org, segment];
    SlugIsChars(org);
    NamesArePlain(org);
    NamesArePlain(segment);
    JoinFive(org, segment);
    NormalizeJoined(segs);
    assert Matches(GetPackage, segs);
    assert SPECS[1..][0] == ListPackages && SPECS[1..][1..][0] == GetPackage;
    assert FirstMatch(SPECS, segs) == FirstMatch(SPECS[1..], segs);
    assert FirstMatch(SPECS[1..], segs) == FirstMatch(SPECS[1..][1..], segs);
  }

  lemma VersionRouteMatches(segs: seq<string>)
    requires Matches(VersionRoute, segs)
    ensures FirstMatch(SPECS, segs) == Some(VersionRoute)
  {
    assert SPECS[1..][0] == ListPackages && SPECS[1..][1..][0] == GetPackage;
    assert SPECS[1..][1..][1..][0] == VersionRoute;
    assert FirstMatch(SPECS[1..], segs) == FirstMatch(SPECS[1..][1..], segs);
    assert FirstMatch(SPECS[1..][1..], segs) == FirstMatch(SPECS[1..][1..][1..], segs);
  }

  lemma JoinFive(org: string, segment: string)
    ensures |Text.Join(["", "v1", "packages", org, segment], "/")| == 14 + |org| + |segment|
  {
    Text.JoinCons(org, [segment], "/");
    Text.JoinCons("packages", [org, segment], "/");
    Text.JoinCons("v1", ["packages", org, segment], "/");
    Text.JoinCons("", ["v1", "packages", org, segment], "/");
  }

  // ----- published keys through the CDN -----

  lemma OrgNameIsPlain(s: string)
    requires OrgName(s)
    ensures PlainSegment(s) && '.' !in s
  {
  }

  lemma SlugNotNative(name: string)
    requires NativeSegment(name)
    ensures !OrgName(name)
  {
    assert name[1] == name[..3][1] == '1' && name[2] == name[..3][2] == '_';
  }

  lemma TailSegments(name: string, file: string, tail: string)
    requires '/' !in name && '/' !in file && tail == name + "/versions/" + file
    ensures Text.Split(tail, '/') == [name, "versions", file]
  {
    Text.SplitAtom(file, '/');
    Text.SplitHead("versions", '/', file);
    Text.SplitHead(name, '/', "versions/" + file);
    assert "versions" + ['/'] + file == "versions/" + file;
    assert name + ['/'] + ("versions/" + file) == tail;
  }

  lemma VersionKeySegments(org: string, name: string, version: string)
    requires OrgName(org) && OrgName(name) && VersionGrammar(version, 128)
    ensures Text.Split(VersionPrefixKey(org, name) + version + ".json", '/') ==
            ["metadata", org, name, "versions", version + ".json"]
  {
    var file := version + ".json";
    var tail := name + "/versions/" + file;
    TailSegments(name, file, tail);
    Text.SplitHead(org, '/', tail);
    Text.SplitHead("metadata", '/', org + ['/'] + tail);
    assert "metadata" + ['/'] + (org + ['/'] + tail) == VersionPrefixKey(org, name) + version + ".json";
  }

  /** Distinct coordinates never share a version document. */
  lemma VersionKeyInjective(o1: string, n1: string, v1: string, o2: string, n2: string, v2: string)
    requires VersionMetadataKey(o1, n1, v1).Some?
    requires VersionMetadataKey(o1, n1, v1) == VersionMetadataKey(o2, n2, v2)
    ensures o1 == o2 && n1 == n2 && v1 == v2
  {
    VersionKeySegments(o1, n1, v1);
    VersionKeySegments(o2, n2, v2);
    var a, b := v1 + ".json", v2 + ".json";
    assert ["metadata", o1, n1, "versions", a][4] == ["metadata", o2, n2, "versions", b][4];
    assert ["metadata", o1, n1, "versions", a][1] == ["metadata", o2, n2, "versions", b][1];
    assert ["metadata", o1, n1, "versions", a][2] == ["metadata", o2, n2, "versions", b][2];
    assert v1 == a[..|a| - 5] && v2 == b[..|b| - 5];
  }

  lemma VersionKeyDots(org: string, name: string, version: string)
    requires OrgName(org) && OrgName(name) && VersionGrammar(version, 128)
    ensures Text.HasDouble(VersionPrefixKey(org, name) + version + ".json", '.') <==>
            Text.HasDouble(version, '.') || version[|version| - 1] == '.'
    ensures !Text.HasDouble(VersionPrefixKey(org, name) + version + ".json", '/')
  {
    var prefix := VersionPrefixKey(org, name);
    OrgNameIsPlain(org);
    OrgNameIsPlain(name);
    assert '.' !in prefix;
    Text.AbsentNoDouble(prefix, '.');
    Text.DoubleConcat(prefix, version, '.');
    Text.DoubleConcat(prefix + version, ".json", '.');
    assert '/' !in version && '/' !in org && '/' !in name;
    Text.AbsentNoDouble(version, '/');
    Text.AbsentNoDouble(org, '/');
    Text.AbsentNoDouble(name, '/');
    Text.DoubleConcat("metadata/", org, '/');
    Text.DoubleConcat("metadata/" + org, "/", '/');
    Text.DoubleConcat("metadata/" + org + "/", name, '/');
    Text.DoubleConcat("metadata/" + org + "/" + name, "/versions/", '/');
    Text.DoubleConcat(prefix, version, '/');
    Text.DoubleConcat(prefix + version, ".json", '/');
  }

  lemma TrimPlain(key: string)
    requires key != "" && key[0] != '/' && key[|key| - 1] != '/'
    ensures Text.TrimEnd(key, '/') == key && TrimStart("/" + key) == key && ("/" + key)[1..] == key
  {
    assert ("/" + key)[1..] == key;
    assert TrimStart(key) == key;
  }

  lemma AbsentCharacters(org: string, name: string, version: string)
    requires OrgName(org) && OrgName(name) && VersionGrammar(version, 128)
    ensures var key := VersionPrefixKey(org, name) + version + ".json";
      '%' !in key && '\\' !in key && '\0' !in key
  {
  }

  /**
   * A version document whose key a publish wrote can be read through the CDN
   * exactly when its version has no `..` and does not end in a dot: the key
   * `1..json` of version `1.` holds a `..`, which the CDN refuses.
   */
  lemma CdnReadsVersionDocument(org: string, name: string, version: string)
    requires VersionMetadataKey(org, name, version).Some? && |org| <= 128 && |name| <= 128
    ensures var key := VersionMetadataKey(org, name, version).value;
      CdnReads("/" + key) == Some(key) <==> !Text.HasDouble(version, '.') && version[|version| - 1] != '.'
    ensures var key := VersionMetadataKey(org, name, version).value;
      CdnReads("/" + key) in {Some(key), None}
  {
    var key := VersionMetadataKey(org, name, version).value;
    AbsentCharacters(org, name, version);
    VersionKeyDots(org, name, version);
    VersionKeySegments(org, name, version);
    TrimPlain(key);
    MetadataKeyGrammar(key, org, name, version);
    assert '%' !in "/" + key && '\\' !in "/" + key && '\0' !in "/" + key;
    assert CanonicalCdnKey("/" + key) == if Text.HasDouble(key, '.') then None else Some(key);
    assert ParseCdnPath("/" + key).None?;
  }

  lemma MetadataKeyGrammar(key: string, org: string, name: string, version: string)
    requires OrgName(org) && OrgName(name) && VersionGrammar(version, 128)
    requires key == VersionPrefixKey(org, name) + version + ".json"
    ensures IsMetadataKey(key) && !IsArtifactKey(key) && key[..9] == "metadata/"
  {
    VersionKeySegments(org, name, version);
    var file := version + ".json";
    assert file[..|file| - 5] == version && file[|file| - 5..] == ".json";
    assert key[0] == 'm';
  }

  lemma ArtifactSegments(file: string)
    requires '/' !in file
    ensures Text.Split("artifacts/" + file, '/') == ["artifacts", file]
  {
    Text.SplitHead("artifacts", '/', file);
    Text.SplitAtom(file, '/');
    assert "artifacts" + ['/'] + file == "artifacts/" + file;
  }

  lemma ArtifactKeyGrammar(sha256: string, extension: string)
    requires IsSha256(sha256) && (extension == "tar.gz" || extension == "zip")
    ensures IsArtifactKey("artifacts/" + sha256 + "." + extension)
  {
    var key := "artifacts/" + sha256 + "." + extension;
    assert key[..10] == "artifacts/" && key[10..74] == sha256 && key[74..] == "." + extension;
  }

  lemma ArtifactDots(sha256: string, extension: string)
    requires IsSha256(sha256) && (extension == "tar.gz" || extension == "zip")
    ensures var key := "artifacts/" + sha256 + "." + extension;
      !Text.HasDouble(key, '.') && '%' !in key && '\\' !in key
  {
    assert '.' !in sha256;
    Text.AbsentNoDouble(sha256, '.');
    Text.DoubleConcat("artifacts/", sha256, '.');
    Text.DoubleConcat("artifacts/" + sha256, ".", '.');
    Text.DoubleConcat("artifacts/" + sha256 + ".", extension, '.');
  }

  lemma ArtifactContent(sha256: string, extension: string)
    requires IsSha256(sha256) && (extension == "tar.gz" || extension == "zip")
    ensures ContentObject(Text.Split("artifacts/" + sha256 + "." + extension, '/'))
  {
    var file := sha256 + "." + extension;
    assert "artifacts/" + file == "artifacts/" + sha256 + "." + extension;
    assert '/' !in file;
    ArtifactSegments(file);
    assert file[..64] == sha256 && file[64] == '.' && file[65..] == extension;
  }

  /** Artifacts stored under their digest are always readable through the CDN. */
  lemma CdnReadsArtifact(sha256: string, extension: string)
    requires IsSha256(sha256) && (extension == "tar.gz" || extension == "zip")
    ensures var key := "artifacts/" + sha256 + "." + extension;
      IsArtifactKey(key) && CdnReads("/" + key) == Some(key)
  {
    var key := "artifacts/" + sha256 + "." + extension;
    ArtifactKeyGrammar(sha256, extension);
    ArtifactDots(sha256, extension);
    ArtifactContent(sha256, extension);
    TrimPlain(key);
    assert '%' !in "/" + key;
    assert ParseCdnPath("/" + key) == Some(key);
  }
}
