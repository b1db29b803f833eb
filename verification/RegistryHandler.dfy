/**
 * What the registry Worker's `fetch` handler (workers/registry-proxy/src/index.js)
 * does with one request, as a sequence of effects, and the safety of every run.
 * `EdgeService` holds the handler itself.
 *
 * An effect is the act of consulting a source, whether or not it is configured.
 */
module RegistryHandler {
  import opened Common
  import opened Routes
  import Text

  datatype Effect =
    | ProbeOrigin
    | AskOrigin
    | EdgePublish
    | AskCdn(extension: string)
    | AskR2
    | AskNative
    | AskGithub

  /** `None`: not configured, or the request failed. */
  type OriginAnswer = Option<int>

  datatype R2Answer = NothingPublished | Published | NotPublic | BucketFails

  /** A public source finds the package, finds nothing, or throws. */
  datatype Fallback = Hit | Miss | Throws

  datatype CdnAnswer = CdnFails | CdnStatus(status: int)

  datatype World = World(probe: OriginAnswer, origin: OriginAnswer, publishEnabled: bool, publishStatus: int,
                         cdn: Option<(CdnAnswer, CdnAnswer)>, r2: R2Answer, native: Fallback, github: Fallback)

  datatype Response =
    | Problem(status: int, code: string)
    | NoContent
    | FromOrigin(status: int)
    | Degraded
    | FromPublish(status: int)
    | FromCdn(status: int)
    | FromR2
    | FromNative
    | FromGithub

  datatype Run = Run(effects: seq<Effect>, response: Response)

  predicate Unavailable(status: int) { status in {0, 502, 503, 504, 521, 522, 523, 524} }

  predicate Available(answer: OriginAnswer) { answer.Some? && !Unavailable(answer.value) }

  function Unreachable(): Response { Problem(503, "registry_origin_unavailable") }

  /** The publish the edge itself may complete. */
  predicate EdgeWrites(w: World, verb: string, path: string) {
    && Classify(verb, path) == OriginWrite && verb == "PUT"
    && ParseRegistryPath(path).Some? && ParseRegistryPath(path).value.PublishRoute?
    && w.publishEnabled && !Available(w.probe)
  }

  /** A probe is sent before any publish the edge might complete. */
  predicate Probes(w: World, verb: string, path: string) {
    && Classify(verb, path) == OriginWrite && verb == "PUT"
    && ParseRegistryPath(path).Some? && ParseRegistryPath(path).value.PublishRoute?
    && w.publishEnabled
  }

  // ----- what one request does -----

  function CdnEffects(cdn: Option<(CdnAnswer, CdnAnswer)>): seq<Effect> {
    match cdn
    case None => []
    case Some(pair) =>
      if pair.0 == CdnStatus(404) then [AskCdn("tar.gz"), AskCdn("zip")] else [AskCdn("tar.gz")]
  }

  function CdnResponse(cdn: Option<(CdnAnswer, CdnAnswer)>): Option<Response> {
    match cdn
    case None => None
    case Some(pair) =>
      var decisive := if pair.0 == CdnStatus(404) then pair.1 else pair.0;
      if decisive.CdnFails? || decisive.status == 404 then None else Some(FromCdn(decisive.status))
  }

  function FallbackRun(w: World, path: string): Run {
    var route := ParseRegistryPath(path);
    if route.None? || !(route.value.PackageRoute? || route.value.PublishRoute?) then
      Run([], Problem(500, "invalid_edge_state"))
    else if w.r2 == Published then Run([AskR2], FromR2)
    else if w.r2 == NotPublic then Run([AskR2], Problem(404, "not_found"))
    else if w.native == Hit then Run([AskR2, AskNative], FromNative)
    else
      Run([AskR2, AskNative, AskGithub],
          if w.github == Hit then FromGithub
          else if Available(w.origin) then FromOrigin(w.origin.value)
          else Unreachable())
  }

  function ReadRun(w: World, path: string): Run {
    var route := ParseRegistryPath(path);
    if Available(w.origin) then Run([], FromOrigin(w.origin.value))
    else if route.Some? && route.value.ArtifactRoute? then
      Run(CdnEffects(w.cdn), if CdnResponse(w.cdn).Some? then CdnResponse(w.cdn).value else Unreachable())
    else Run([], Unreachable())
  }

  /** What happens once the origin has been asked. */
  function AfterOrigin(w: World, action: Action, path: string): Run {
    if action == OriginWrite then
      Run([], if Available(w.origin) then FromOrigin(w.origin.value) else Unreachable())
    else if action == Health then
      Run([], if w.origin == Some(200) then FromOrigin(200) else Degraded)
    else if Available(w.origin) && w.origin != Some(404) then Run([], FromOrigin(w.origin.value))
    else if action == OriginRead then ReadRun(w, path)
    else FallbackRun(w, path)
  }

  function Handle(w: World, verb: string, path: string): Run {
    match Classify(verb, path)
    case DenyRoute => Run([], Problem(404, "not_registry_route"))
    case DenyMethod => Run([], Problem(405, "method_not_allowed"))
    case Preflight => Run([], NoContent)
    case action => AdmittedRun(w, action, verb, path)
  }

  /** A request with a valid route and method. */
  function AdmittedRun(w: World, action: Action, verb: string, path: string): Run {
    if EdgeWrites(w, verb, path) then Run([ProbeOrigin, EdgePublish], FromPublish(w.publishStatus))
    else
      var before := if Probes(w, verb, path) then [ProbeOrigin, AskOrigin] else [AskOrigin];
      var after := AfterOrigin(w, action, path);
      Run(before + after.effects, after.response)
  }

  // ----- safety of every run -----

  /** The probe carries no body; a publish at the edge and a request forwarded to
      the origin take it along. */
  predicate TakesBody(e: Effect) { e == AskOrigin || e == EdgePublish }

  function BodyReads(effects: seq<Effect>): nat {
    if effects == [] then 0 else (if TakesBody(effects[0]) then 1 else 0) + BodyReads(effects[1..])
  }

  lemma {:induction false} BodyReadsConcat(a: seq<Effect>, b: seq<Effect>)
    ensures BodyReads(a + b) == BodyReads(a) + BodyReads(b)
  {
    if a == [] {
      assert a + b == b;
    } else {
      assert (a + b)[1..] == a[1..] + b;
      BodyReadsConcat(a[1..], b);
    }
  }

  /** After the origin nothing else takes the body, and nothing else is asked to write. */
  lemma AfterOriginEffects(w: World, action: Action, path: string)
    ensures var r := AfterOrigin(w, action, path);
            && Quiet(r.effects) && BodyReads(r.effects) == 0
            && (action == OriginWrite || action == Health ==> r.effects == [])
  {
    ReadsAreQuiet(w, path);
    QuietKeepsBody(AfterOrigin(w, action, path).effects);
  }

  /** Nothing but sources of reads is asked. */
  predicate Quiet(effects: seq<Effect>) { forall i | 0 <= i < |effects| :: ReadSource(effects[i]) }

  lemma {:induction false} QuietKeepsBody(effects: seq<Effect>)
    requires Quiet(effects)
    ensures BodyReads(effects) == 0
  {
    if effects != [] {
      assert ReadSource(effects[0]);
      QuietKeepsBody(effects[1..]);
    }
  }

  lemma ReadsAreQuiet(w: World, path: string)
    ensures Quiet(ReadRun(w, path).effects) && Quiet(FallbackRun(w, path).effects)
  {
  }

  /** The body of a request is consumed at most once, and exactly once unless
      the request is refused. */
  lemma BodyConsumedOnce(w: World, verb: string, path: string)
    ensures var r := Handle(w, verb, path);
            BodyReads(r.effects) == if Classify(verb, path) in {DenyRoute, DenyMethod, Preflight} then 0 else 1
  {
    var action := Classify(verb, path);
    AfterOriginEffects(w, action, path);
    BodyReadsConcat([ProbeOrigin, AskOrigin], AfterOrigin(w, action, path).effects);
    BodyReadsConcat([AskOrigin], AfterOrigin(w, action, path).effects);
    assert BodyReads([]) == 0;
    assert [AskOrigin][1..] == [] && [ProbeOrigin, AskOrigin][1..] == [AskOrigin];
    assert [ProbeOrigin, EdgePublish][1..] == [EdgePublish] && [EdgePublish][1..] == [];
  }

  /** Denied routes and methods, and preflights, do no I/O at all. */
  lemma DeniedDoesNothing(w: World, verb: string, path: string)
    ensures Handle(w, verb, path).effects == [] <==> Classify(verb, path) in {DenyRoute, DenyMethod, Preflight}
  {
  }

  predicate ReadSource(e: Effect) { e.AskCdn? || e == AskR2 || e == AskNative || e == AskGithub }

  /** A write goes to the origin, or to the edge when the probe found the origin
      down; it never reaches a source of reads. */
  lemma WritesStayWrites(w: World, verb: string, path: string)
    requires Classify(verb, path) == OriginWrite
    ensures var r := Handle(w, verb, path);
            && r.effects in {[AskOrigin], [ProbeOrigin, AskOrigin], [ProbeOrigin, EdgePublish]}
            && (forall e | e in r.effects :: !ReadSource(e))
            && (r.effects == [ProbeOrigin, EdgePublish] <==> EdgeWrites(w, verb, path))
            && (r.response.FromPublish? <==> EdgeWrites(w, verb, path))
  {
    assert [AskOrigin] + [] == [AskOrigin] && [ProbeOrigin, AskOrigin] + [] == [ProbeOrigin, AskOrigin];
  }

  // ----- who gets a write -----

  /** A configured origin that answered with none of these is up. */
  predicate Up(answer: OriginAnswer) { answer.Some? && answer.value !in {0, 502, 503, 504, 521, 522, 523, 524} }

  /** A version is published with PUT, and the router takes it for a write. */
  predicate PublishAt(verb: string, path: string) {
    verb == "PUT" && ParseRegistryPath(path).Some? && ParseRegistryPath(path).value.PublishRoute?
  }

  lemma VersionPathActions(path: string)
    requires ParseRegistryPath(path).Some? && ParseRegistryPath(path).value.PublishRoute?
    ensures Classify("PUT", path) == OriginWrite
    ensures Classify("GET", path) == FallbackRead && Classify("HEAD", path) == FallbackRead
  {
    var segs := Text.Split(NormalizePath(path).value, '/');
    if IsSlug(segs[4]) { SlugIsChars(segs[4]); }
    assert Matches(VersionRoute, segs);
    VersionRouteMatches(segs);
  }

  /**
   * The edge publishes exactly when a version is PUT, publishing is enabled,
   * and the probe found the origin down. Every other write is the origin's:
   * its answer when it is up, and a 503 when it is not.
   */
  lemma EdgePublishExactly(w: World, verb: string, path: string)
    ensures EdgePublish in Handle(w, verb, path).effects <==>
            PublishAt(verb, path) && w.publishEnabled && !Up(w.probe)
    ensures EdgePublish in Handle(w, verb, path).effects ==>
              Handle(w, verb, path) == Run([ProbeOrigin, EdgePublish], FromPublish(w.publishStatus))
    ensures Classify(verb, path) == OriginWrite && EdgePublish !in Handle(w, verb, path).effects ==>
              && AskOrigin in Handle(w, verb, path).effects
              && Handle(w, verb, path).response ==
                 if Up(w.origin) then FromOrigin(w.origin.value) else Problem(503, "registry_origin_unavailable")
  {
    if PublishAt(verb, path) { VersionPathActions(path); }
    AfterOriginEffects(w, Classify(verb, path), path);
    UpIsAvailable(w.probe);
    UpIsAvailable(w.origin);
    QuietPublishesNothing(AfterOrigin(w, Classify(verb, path), path).effects);
  }

  /** Refused requests and preflights are answered without asking anybody. */
  lemma RefusedExactly(w: World, verb: string, path: string)
    ensures var r := Handle(w, verb, path);
            match MatchRoute(path)
            case None => r == Run([], Problem(404, "not_registry_route"))
            case Some(spec) =>
              if verb == "OPTIONS" then r == Run([], NoContent)
              else if verb !in Methods(spec) then r == Run([], Problem(405, "method_not_allowed"))
              else r.effects != []
  {
    DeniedDoesNothing(w, verb, path);
  }

  /** Health is the origin's when it answers 200, and degraded otherwise. */
  lemma HealthExactly(w: World, verb: string, path: string)
    requires Classify(verb, path) == Health
    ensures Handle(w, verb, path) == Run([AskOrigin], if w.origin == Some(200) then FromOrigin(200) else Degraded)
  {
    assert [AskOrigin] + [] == [AskOrigin];
  }

  /** The CDN's answer to one format: anything but a 404 or a failure. */
  predicate Answers(answer: CdnAnswer) { answer.CdnStatus? && answer.status != 404 }

  /**
   * Every other read is answered by the origin while it is up. While it is
   * down, an artifact is asked from the CDN, as `tar.gz` and after a 404 as
   * `zip`; all else, and an artifact that is found in neither form, is a 503.
   */
  lemma OriginReadExactly(w: World, verb: string, path: string)
    requires Classify(verb, path) == OriginRead
    ensures var r, artifact := Handle(w, verb, path),
                               ParseRegistryPath(path).Some? && ParseRegistryPath(path).value.ArtifactRoute?;
            if Up(w.origin) then r == Run([AskOrigin], FromOrigin(w.origin.value))
            else if !artifact || w.cdn.None? then r == Run([AskOrigin], Problem(503, "registry_origin_unavailable"))
            else
              var (gzip, zip) := w.cdn.value;
              if gzip != CdnStatus(404) then
                r == Run([AskOrigin, AskCdn("tar.gz")],
                         if Answers(gzip) then FromCdn(gzip.status) else Problem(503, "registry_origin_unavailable"))
              else
                r == Run([AskOrigin, AskCdn("tar.gz"), AskCdn("zip")],
                         if Answers(zip) then FromCdn(zip.status) else Problem(503, "registry_origin_unavailable"))
  {
    UpIsAvailable(w.origin);
    assert [AskOrigin] + [] == [AskOrigin] && [AskOrigin] + [AskCdn("tar.gz")] == [AskOrigin, AskCdn("tar.gz")];
    assert [AskOrigin] + [AskCdn("tar.gz"), AskCdn("zip")] == [AskOrigin, AskCdn("tar.gz"), AskCdn("zip")];
  }

  lemma PublishesWhenDown(w: World, verb: string, path: string)
    ensures EdgeWrites(w, verb, path) <==> PublishAt(verb, path) && w.publishEnabled && !Up(w.probe)
  {
    if PublishAt(verb, path) { VersionPathActions(path); }
    UpIsAvailable(w.probe);
  }

  lemma UpIsAvailable(answer: OriginAnswer)
    ensures Available(answer) <==> Up(answer)
  {
  }

  lemma QuietPublishesNothing(effects: seq<Effect>)
    requires Quiet(effects)
    ensures EdgePublish !in effects
  {
  }

  const READ_ORDER := [AskOrigin, AskR2, AskNative, AskGithub]

  /** Whether a source, consulted in turn, decides the answer. */
  predicate Decides(w: World, source: Effect) {
    match source
    case AskOrigin => Available(w.origin) && w.origin != Some(404)
    case AskR2 => w.r2 == Published || w.r2 == NotPublic
    case AskNative => w.native == Hit
    case AskGithub => w.github == Hit
    case _ => false
  }

  function Decision(w: World, source: Effect): Response
    requires Decides(w, source)
  {
    match source
    case AskOrigin => FromOrigin(w.origin.value)
    case AskR2 => if w.r2 == Published then FromR2 else Problem(404, "not_found")
    case AskNative => FromNative
    case AskGithub => FromGithub
  }

  /** The answer when no source decides: the origin's 404 if it gave one. */
  function Undecided(w: World): Response {
    if Available(w.origin) then FromOrigin(404) else Unreachable()
  }

  /**
   * A fallback read consults a prefix of origin, bucket, native registry and
   * GitHub, no source before the last of them decided, and the answer is that
   * of the last one if it decides, and of the origin otherwise.
   */
  lemma FirstSourceAnswers(w: World, verb: string, path: string)
    requires Classify(verb, path) == FallbackRead && ParseRegistryPath(path).Some?
    ensures var r := Handle(w, verb, path);
            && r.effects <= READ_ORDER && r.effects != []
            && (forall i | 0 <= i < |r.effects| - 1 :: !Decides(w, r.effects[i]))
            && var last := r.effects[|r.effects| - 1];
               if Decides(w, last) then r.response == Decision(w, last)
               else r.effects == READ_ORDER && r.response == Undecided(w)
  {
    FallbackRoutes(verb, path);
    FallbackReads(w, path);
    var r, f := Handle(w, verb, path), FallbackRun(w, path);
    assert r.effects == if Decides(w, AskOrigin) then [AskOrigin] else [AskOrigin] + f.effects;
  }

  /** The same, once the origin has been asked in vain. */
  lemma FallbackReads(w: World, path: string)
    requires ParseRegistryPath(path).Some?
    requires ParseRegistryPath(path).value.PackageRoute? || ParseRegistryPath(path).value.PublishRoute?
    ensures var r := FallbackRun(w, path);
            && r.effects in {[AskR2], [AskR2, AskNative], [AskR2, AskNative, AskGithub]}
            && (forall i | 0 <= i < |r.effects| - 1 :: !Decides(w, r.effects[i]))
            && var last := r.effects[|r.effects| - 1];
               if Decides(w, last) then r.response == Decision(w, last)
               else
                 && last == AskGithub
                 && r.response == if Available(w.origin) then FromOrigin(w.origin.value) else Unreachable()
  {
  }

  /** A non-public object in the bucket ends the run there. */
  lemma NonPublicEndsTheRun(w: World, verb: string, path: string)
    requires Classify(verb, path) == FallbackRead && w.r2 == NotPublic
    ensures var r := Handle(w, verb, path);
            AskR2 in r.effects ==> r == Run([AskOrigin, AskR2], Problem(404, "not_found"))
  {
    assert [AskOrigin] + [AskR2] == [AskOrigin, AskR2];
  }

  // ----- the state the handler calls invalid -----

  lemma {:induction false} FirstMatchIn(specs: seq<RouteSpec>, segs: seq<string>)
    ensures var found := FirstMatch(specs, segs);
            found.Some? ==> found.value in specs && Matches(found.value, segs)
  {
    if specs != [] && !Matches(specs[0], segs) { FirstMatchIn(specs[1..], segs); }
  }

  lemma FallbackSegments(verb: string, path: string)
    requires Classify(verb, path) == FallbackRead
    ensures NormalizePath(path).Some?
    ensures var segs := Text.Split(NormalizePath(path).value, '/');
            Matches(GetPackage, segs) || Matches(VersionRoute, segs)
  {
    FirstMatchIn(SPECS, Text.Split(NormalizePath(path).value, '/'));
  }

  /** A parsed fallback route is a package or a version. */
  lemma FallbackRoutes(verb: string, path: string)
    requires Classify(verb, path) == FallbackRead && ParseRegistryPath(path).Some?
    ensures ParseRegistryPath(path).value.PackageRoute? || ParseRegistryPath(path).value.PublishRoute?
  {
    FallbackSegments(verb, path);
  }

  lemma VersionDots(path: string)
    requires NormalizePath(path).Some?
    ensures forall s | s in Text.Split(NormalizePath(path).value, '/') :: !Text.HasDouble(s, '.')
  {
    var p := NormalizePath(path).value;
    assert !Text.HasDouble(path, '.');
    TrimmedDots(path);
    PartDots(p);
  }

  lemma {:induction false} TrimmedDots(path: string)
    requires !Text.HasDouble(path, '.')
    ensures !Text.HasDouble(Text.TrimEnd(path, '/'), '.')
  {
    if path != "" && path[|path| - 1] == '/' {
      var front := path[..|path| - 1];
      Text.DoubleConcat(front, [path[|path| - 1]], '.');
      assert path == front + [path[|path| - 1]];
      TrimmedDots(front);
    }
  }

  lemma {:induction false} PartDots(p: string)
    requires !Text.HasDouble(p, '.')
    ensures forall s | s in Text.Split(p, '/') :: !Text.HasDouble(s, '.')
  {
    if p != "" {
      assert p == [p[0]] + p[1..];
      Text.DoubleConcat([p[0]], p[1..], '.');
      PartDots(p[1..]);
      var rest := Text.Split(p[1..], '/');
      if p[0] != '/' {
        Text.DoubleConcat([p[0]], rest[0], '.');
        SplitHeadPrefix(p[1..]);
      }
    }
  }

  lemma {:induction false} SplitHeadPrefix(s: string)
    ensures Text.Split(s, '/')[0] <= s
  {
    if s != "" { SplitHeadPrefix(s[1..]); }
  }

  /**
   * The state the handler calls invalid is reachable: the router accepts any
   * run of slug characters where the path parser wants a slug of at most 128
   * characters. It is reached exactly for such names, when the origin did not
   * already answer.
   */
  lemma InvalidStateExactly(w: World, verb: string, path: string)
    requires Classify(verb, path) == FallbackRead
    ensures NormalizePath(path).Some? && |Text.Split(NormalizePath(path).value, '/')| >= 5
    ensures var segs := Text.Split(NormalizePath(path).value, '/');
            Handle(w, verb, path).response == Problem(500, "invalid_edge_state") <==>
            && !Decides(w, AskOrigin)
            && !(IsSlug(segs[3]) && IsPackageNameSegment(segs[4]))
  {
    FallbackSegments(verb, path);
    VersionDots(path);
  }

  /** Whatever slug characters do not make a slug lead there: `-a`, for one. */
  lemma InvalidStateReached(w: World, org: string, name: string)
    requires SlugChars(org) && !IsSlug(org) && SlugChars(name) && |org| + |name| <= 2000 && w.origin.None?
    ensures var path := Text.Join(["", "v1", "packages", org, name], "/");
            Handle(w, "GET", path).response == Problem(500, "invalid_edge_state")
  {
    var segs := ["", "v1", "packages", org, name];
    var path := Text.Join(segs, "/");
    JoinFive(org, name);
    NamesArePlain(org);
    NamesArePlain(name);
    NormalizeJoined(segs);
    PackagePathRoutes(path, segs);
    assert segs[3] == org;
    InvalidStateExactly(w, "GET", path);
  }

  lemma PackagePathRoutes(path: string, segs: seq<string>)
    requires NormalizePath(path) == Some(path) && Text.Split(path, '/') == segs && Matches(GetPackage, segs)
    ensures Classify("GET", path) == FallbackRead
  {
    FiveSegmentRoute(segs);
  }

  lemma FiveSegmentRoute(segs: seq<string>)
    requires Matches(GetPackage, segs)
    ensures FirstMatch(SPECS, segs) == Some(GetPackage)
  {
    assert SPECS[1..][0] == ListPackages && SPECS[1..][1..][0] == GetPackage;
    assert FirstMatch(SPECS, segs) == FirstMatch(SPECS[1..], segs);
    assert FirstMatch(SPECS[1..], segs) == FirstMatch(SPECS[1..][1..], segs);
  }

  /** Organisation `-a` is a run of slug characters and no slug. */
  lemma InvalidStateExample(w: World)
    requires w.origin.None?
    ensures Handle(w, "GET", "/v1/packages/-a/a").response == Problem(500, "invalid_edge_state")
  {
    Text.SplitHead("", '-', "a");
    assert [] + ['-'] + "a" == "-a";
    assert "" in Text.Split("-a", '-');
    InvalidStateReached(w, "-a", "a");
    PackagePath("-a", "a");
    assert "/v1/packages/" + "-a" + "/" + "a" == "/v1/packages/-a/a";
  }

  lemma PackagePath(org: string, name: string)
    ensures Text.Join(["", "v1", "packages", org, name], "/") == "/v1/packages/" + org + "/" + name
  {
    Text.JoinCons(org, [name], "/");
    Text.JoinCons("packages", [org, name], "/");
    Text.JoinCons("v1", ["packages", org, name], "/");
    Text.JoinCons("", ["v1", "packages", org, name], "/");
    var tail := org + "/" + name;
    assert "" + "/" + ("v1" + "/" + ("packages" + "/" + tail)) == "/v1/packages/" + tail;
  }
}
