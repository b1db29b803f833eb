/**
 * The registry Worker's `fetch` handler (workers/registry-proxy/src/index.js)
 * over a live bucket: it publishes with `HandleEdgePublish` and answers reads
 * with `ReadJsonObject` and `R2PackageMetadata`, and what it published it serves.
 *
 * What the network answers is a parameter. An `Edge` handles one request, whose
 * body can be read once.
 */
module EdgeService {
  import opened Common
  import opened Routes
  import opened RegistryHandler
  import opened PublishMeta
  import opened PublishedDocuments
  import PublishSafety
  import PublishedListing
  import JsonText
  import Text
  import Publishing = EdgePublish
  import Reading = MetadataReader
  import Listings = PackageListing

  /** What stays as it is during one request. R2 delivers an object or nothing,
      and answers the list calls for a package. */
  datatype Environment = Environment(
    probe: OriginAnswer, origin: OriginAnswer, cdn: Option<(CdnAnswer, CdnAnswer)>, native: Fallback, github: Fallback,
    hash: Publishing.Digest, cfg: Publishing.Config, parse: Reading.Parse,
    deliver: string -> Option<Reading.R2Object>, pages: (string, string) -> Listings.Answers)

  datatype Request = Request(verb: string, path: string, upload: Publishing.Request)

  // ----- what the bucket answers -----

  function AnswerOf<T>(read: Reading.Read<T>): R2Answer {
    match read
    case Absent => NothingPublished
    case NonPublic => NotPublic
    case Found(_) => Published
  }

  function ReadKey(env: Environment): Listings.Reader {
    (key: string) => Reading.ReadResult(env.parse, env.deliver(key))
  }

  /** `r2PublishedFallback`, through `r2VersionMetadata` or `r2PackageMetadata`. */
  function FromBucket(env: Environment, path: string): R2Answer {
    match ParseRegistryPath(path)
    case Some(PublishRoute(org, name, version)) =>
      var key := VersionMetadataKey(org, name, version);
      if key.None? then NothingPublished else AnswerOf(ReadKey(env)(key.value))
    case Some(PackageRoute(org, name)) => AnswerOf(Listings.Listing(org, name, env.pages(org, name), ReadKey(env)))
    case _ => NothingPublished
  }

  // ----- what the edge publishes -----

  /** The bucket after the edge has taken a publish, and its answer. */
  function PublishHere(env: Environment, store: Publishing.Store, request: Request): (Publishing.Store, int) {
    match ParseRegistryPath(request.path)
    case Some(PublishRoute(org, name, version)) =>
      var (after, phase) := Publishing.Alone(PlanHere(env, request, PublishRoute(org, name, version)), store);
      (after, if phase.Answered? then phase.status else 0)
    case _ => (store, 0)
  }

  function PlanHere(env: Environment, request: Request, route: Route): Publishing.Plan
    requires route.PublishRoute?
  {
    Publishing.PlanPublish(env.hash, env.cfg, request.upload, route)
  }

  /** The sources as one request finds them. */
  function Sources(env: Environment, store: Publishing.Store, request: Request): World {
    World(env.probe, env.origin, env.cfg.enabled, PublishHere(env, store, request).1, env.cdn,
          FromBucket(env, request.path), env.native, env.github)
  }

  function RunOf(env: Environment, store: Publishing.Store, request: Request): Run {
    Handle(Sources(env, store, request), request.verb, request.path)
  }

  /** The bucket that a request leaves. */
  function StoreAfter(env: Environment, store: Publishing.Store, request: Request): Publishing.Store {
    if EdgeWrites(Sources(env, store, request), request.verb, request.path) then PublishHere(env, store, request).0
    else store
  }

  /** The effects of a request that is forwarded to the origin. */
  lemma ForwardedRun(w: World, action: Action, verb: string, path: string)
    requires !EdgeWrites(w, verb, path)
    ensures var r, after := AdmittedRun(w, action, verb, path), AfterOrigin(w, action, path);
            && r.response == after.response
            && r.effects == (if Probes(w, verb, path) then [ProbeOrigin] else []) + ([AskOrigin] + after.effects)
  {
    assert [ProbeOrigin] + [AskOrigin] == [ProbeOrigin, AskOrigin];
  }

  // ----- the handler -----

  class Edge {
    const env: Environment
    const bucket: Publishing.Bucket
    var effects: seq<Effect>
    var bodyUsed: bool

    constructor (e: Environment, b: Publishing.Bucket)
      ensures env == e && bucket == b && effects == [] && !bodyUsed
    {
      env := e;
      bucket := b;
      effects := [];
      bodyUsed := false;
    }

    /** Forwarding a request to the origin takes its body along. */
    method AskTheOrigin() returns (answer: OriginAnswer)
      requires !bodyUsed
      modifies this
      ensures bodyUsed && effects == old(effects) + [AskOrigin] && answer == env.origin
    {
      bodyUsed := true;
      effects := effects + [AskOrigin];
      answer := env.origin;
    }

    /** The probe is a request of its own, without a body. */
    method ProbeTheOrigin() returns (answer: OriginAnswer)
      modifies this`effects
      ensures effects == old(effects) + [ProbeOrigin] && answer == env.probe
    {
      effects := effects + [ProbeOrigin];
      answer := env.probe;
    }

    /** Publishing at the edge reads the body. */
    method Publish(request: Request, route: Route) returns (status: int)
      requires !bodyUsed && ParseRegistryPath(request.path) == Some(route) && route.PublishRoute?
      modifies this, bucket
      ensures bodyUsed && effects == old(effects) + [EdgePublish]
      ensures (bucket.objects, status) == PublishHere(env, old(bucket.objects), request)
    {
      bodyUsed := true;
      effects := effects + [EdgePublish];
      var body;
      status, body := Publishing.HandleEdgePublish(env.hash, bucket, Publishing.Job(env.cfg, request.upload, route));
    }

    /** `r2PublishedFallback` */
    method AskBucket(path: string) returns (answer: R2Answer)
      modifies this`effects
      ensures effects == old(effects) + [AskR2] && answer == FromBucket(env, path)
    {
      effects := effects + [AskR2];
      match ParseRegistryPath(path)
      case Some(PublishRoute(org, name, version)) =>
        var key := VersionMetadataKey(org, name, version);
        if key.None? { return NothingPublished; }
        var read, cancelled := Reading.ReadJsonObject(env.parse, env.deliver(key.value));
        answer := AnswerOf(read);
      case Some(PackageRoute(org, name)) =>
        var listing, calls := Listings.R2PackageMetadata(org, name, env.pages(org, name), ReadKey(env));
        answer := AnswerOf(listing);
      case _ => answer := NothingPublished;
    }

    /** `cdnArtifact` */
    method CdnArtifact() returns (response: Option<Response>)
      modifies this`effects
      ensures effects == old(effects) + CdnEffects(env.cdn)
      ensures response == CdnResponse(env.cdn)
    {
      if env.cdn.None? { return None; }
      var answers := [env.cdn.value.0, env.cdn.value.1];
      var extensions := ["tar.gz", "zip"];
      ghost var asked := [AskCdn("tar.gz"), AskCdn("zip")];
      assert asked[..1] == [AskCdn("tar.gz")] && asked[..2] == asked;
      for i := 0 to 2
        invariant effects == old(effects) + asked[..i]
        invariant i > 0 ==> env.cdn.value.0 == CdnStatus(404)
        invariant i > 1 ==> env.cdn.value.1 == CdnStatus(404)
      {
        effects := effects + [AskCdn(extensions[i])];
        assert asked[..i + 1] == asked[..i] + [asked[i]];
        assert effects == old(effects) + asked[..i + 1];
        match answers[i]
        case CdnFails => return None;
        case CdnStatus(status) => if status != 404 { return Some(FromCdn(status)); }
      }
      return None;
    }

    /** The sources of a fallback read after the origin. */
    method PublicSources(path: string, ghost w: World) returns (response: Response)
      requires Reads(w, path)
      modifies this`effects
      ensures effects == old(effects) + FallbackRun(w, path).effects
      ensures response == FallbackRun(w, path).response
    {
      var route := ParseRegistryPath(path);
      if route.None? || !(route.value.PackageRoute? || route.value.PublishRoute?) {
        return Problem(500, "invalid_edge_state");
      }
      var published := AskBucket(path);
      match published {
        case Published => return FromR2;
        case NotPublic => return Problem(404, "not_found");
        case NothingPublished =>
        case BucketFails =>
      }
      effects := effects + [AskNative];
      if env.native == Hit { return FromNative; }
      effects := effects + [AskGithub];
      if env.github == Hit { return FromGithub; }
      if Available(env.origin) { return FromOrigin(env.origin.value); }
      return Unreachable();
    }

    /**
     * The handler. Its answer and its effects are those of the run that the
     * sources determine, the bucket changes only by a publish at the edge, and
     * the body is read exactly when the request is not refused.
     */
    method Fetch(request: Request) returns (response: Response)
      requires !bodyUsed
      modifies this, bucket
      ensures var r := RunOf(env, old(bucket.objects), request);
              && effects == old(effects) + r.effects && response == r.response
              && bodyUsed == (r.effects != []) && BodyReads(r.effects) == if bodyUsed then 1 else 0
      ensures bucket.objects == StoreAfter(env, old(bucket.objects), request)
      ensures bucket.objects ==
              if PublishAt(request.verb, request.path) && env.cfg.enabled && !Up(env.probe)
              then PublishHere(env, old(bucket.objects), request).0
              else old(bucket.objects)
    {
      ghost var w := Sources(env, bucket.objects, request);
      DeniedDoesNothing(w, request.verb, request.path);
      BodyConsumedOnce(w, request.verb, request.path);
      PublishesWhenDown(w, request.verb, request.path);
      var action := Classify(request.verb, request.path);
      if action == DenyRoute { return Problem(404, "not_registry_route"); }
      if action == DenyMethod { return Problem(405, "method_not_allowed"); }
      if action == Preflight { return NoContent; }
      response := Admitted(action, request, w);
    }

    /** `w` is what the environment amounts to. */
    ghost predicate Reads(w: World, path: string)
      reads this
    {
      && w.probe == env.probe && w.origin == env.origin && w.cdn == env.cdn && w.native == env.native
      && w.github == env.github && w.r2 == FromBucket(env, path)
    }

    method Admitted(action: Action, request: Request, ghost w: World) returns (response: Response)
      requires !bodyUsed && action == Classify(request.verb, request.path) && Reads(w, request.path)
      requires w.publishEnabled == env.cfg.enabled && w.publishStatus == PublishHere(env, bucket.objects, request).1
      modifies this, bucket
      ensures var r := AdmittedRun(w, action, request.verb, request.path);
              effects == old(effects) + r.effects && response == r.response && bodyUsed
      ensures bucket.objects ==
              if EdgeWrites(w, request.verb, request.path) then PublishHere(env, old(bucket.objects), request).0
              else old(bucket.objects)
    {
      var route := if action == OriginWrite && request.verb == "PUT" then ParseRegistryPath(request.path) else None;
      if route.Some? && route.value.PublishRoute? && env.cfg.enabled {
        var probe := ProbeTheOrigin();
        if !Available(probe) {
          var status := Publish(request, route.value);
          return FromPublish(status);
        }
      }
      response := Forward(action, request.path, w);
      ForwardedRun(w, action, request.verb, request.path);
    }

    /** The request goes to the origin, body and all. */
    method Forward(action: Action, path: string, ghost w: World) returns (response: Response)
      requires !bodyUsed && Reads(w, path)
      modifies this
      ensures var r := AfterOrigin(w, action, path);
              effects == old(effects) + ([AskOrigin] + r.effects) && response == r.response && bodyUsed
    {
      var origin := AskTheOrigin();
      response := OriginAnswered(action, path, w, origin);
    }

    /** The rest of a request, once the origin has been asked. */
    method OriginAnswered(action: Action, path: string, ghost w: World, origin: OriginAnswer)
      returns (response: Response)
      requires Reads(w, path) && origin == env.origin
      modifies this`effects
      ensures effects == old(effects) + AfterOrigin(w, action, path).effects
      ensures response == AfterOrigin(w, action, path).response
    {
      var available := Available(origin);
      if action == OriginWrite {
        if available { return FromOrigin(origin.value); }
        return Unreachable();
      }
      if action == Health {
        if available && origin.value == 200 { return FromOrigin(200); }
        return Degraded;
      }
      if available && origin.value != 404 { return FromOrigin(origin.value); }
      if action == OriginRead {
        if available { return FromOrigin(origin.value); }
        var route := ParseRegistryPath(path);
        if route.Some? && route.value.ArtifactRoute? {
          var artifact := CdnArtifact();
          if artifact.Some? { return artifact.value; }
        }
        return Unreachable();
      }
      response := PublicSources(path, w);
    }
  }

  // ----- published at the edge, served at the edge -----

  /** R2 delivers what is stored, whole, in some chunks, and nothing else. */
  ghost predicate Faithful(deliver: string -> Option<Reading.R2Object>, store: Publishing.Store) {
    forall key: string ::
      if key in store then deliver(key).Some? && Delivers(deliver(key).value, store[key]) else deliver(key).None?
  }

  lemma FaithfulRead(env: Environment, store: Publishing.Store, key: string)
    requires Faithful(env.deliver, store)
    ensures ReadKey(env)(key) == StoredRead(env.parse, store, key)
  {
    if key in store { DeliveredRead(env.parse, store, key, env.deliver(key).value); }
  }

  /** A read at which the origin is down or has nothing. */
  predicate AsksBucket(env: Environment, request: Request) {
    request.verb in {"GET", "HEAD"} && (Available(env.origin) ==> env.origin == Some(404))
  }

  lemma PackagePathIsRead(verb: string, path: string)
    requires ParseRegistryPath(path).Some? && ParseRegistryPath(path).value.PackageRoute? && verb in {"GET", "HEAD"}
    ensures Classify(verb, path) == FallbackRead
  {
    var segs := Text.Split(NormalizePath(path).value, '/');
    if IsSlug(segs[4]) { SlugIsChars(segs[4]); }
    assert Matches(GetPackage, segs);
    FiveSegmentRoute(segs);
  }

  /** What such a read does: the bucket decides, or the next source is asked. */
  lemma BucketRead(env: Environment, store: Publishing.Store, request: Request)
    requires AsksBucket(env, request) && ParseRegistryPath(request.path).Some?
    requires ParseRegistryPath(request.path).value.PublishRoute? || ParseRegistryPath(request.path).value.PackageRoute?
    ensures var r, found := RunOf(env, store, request), FromBucket(env, request.path);
            if found == Published then r == Run([AskOrigin, AskR2], FromR2)
            else if found == NotPublic then r == Run([AskOrigin, AskR2], Problem(404, "not_found"))
            else |r.effects| > 2 && r.effects[..3] == [AskOrigin, AskR2, AskNative] && r.response != FromR2
  {
    if ParseRegistryPath(request.path).value.PublishRoute? {
      VersionPathActions(request.path);
    } else {
      PackagePathIsRead(request.verb, request.path);
    }
    SourcesRead(Sources(env, store, request), request.verb, request.path);
  }

  lemma SourcesRead(w: World, verb: string, path: string)
    requires Classify(verb, path) == FallbackRead && !Decides(w, AskOrigin) && ParseRegistryPath(path).Some?
    requires verb in {"GET", "HEAD"}
    ensures var r := Handle(w, verb, path);
            if w.r2 == Published then r == Run([AskOrigin, AskR2], FromR2)
            else if w.r2 == NotPublic then r == Run([AskOrigin, AskR2], Problem(404, "not_found"))
            else |r.effects| > 2 && r.effects[..3] == [AskOrigin, AskR2, AskNative] && r.response != FromR2
  {
    FirstSourceAnswers(w, verb, path);
    if w.r2 == NotPublic { NonPublicEndsTheRun(w, verb, path); }
    ReadPrefix(Handle(w, verb, path).effects);
  }

  /** The prefixes of the order of sources. */
  lemma ReadPrefix(effects: seq<Effect>)
    requires effects <= READ_ORDER && effects != []
    ensures effects in {[AskOrigin], [AskOrigin, AskR2], [AskOrigin, AskR2, AskNative], READ_ORDER}
  {
    assert effects == READ_ORDER[..|effects|];
    assert READ_ORDER[..1] == [AskOrigin] && READ_ORDER[..2] == [AskOrigin, AskR2];
    assert READ_ORDER[..3] == [AskOrigin, AskR2, AskNative] && READ_ORDER[..4] == READ_ORDER;
  }

  /** A publish that the edge answered 201 left its document in the bucket. */
  lemma PutStores(env: Environment, store: Publishing.Store, put: Request) returns (plan: Publishing.Plan)
    requires Publishing.IsDigest(env.hash) && ParsedForm(put.upload)
    requires RunOf(env, store, put).response == FromPublish(201)
    ensures ParseRegistryPath(put.path).Some? && ParseRegistryPath(put.path).value.PublishRoute?
    ensures var route := ParseRegistryPath(put.path).value;
            && plan == PlanHere(env, put, route) && plan.Write?
            && VersionMetadataKey(route.org, route.name, route.version) == Some(plan.versionKey)
            && PublishSafety.DocumentKey(plan.versionKey)
            && AllJson(plan.doc.mirrors) && AllJson(plan.doc.signatures)
            && var after := StoreAfter(env, store, put);
               plan.versionKey in after && after[plan.versionKey] == Publishing.DocObject(plan.doc, PublishMeta.Public)
  {
    PublishedAtEdge(Sources(env, store, put), put.verb, put.path, 201);
    var route := ParseRegistryPath(put.path).value;
    plan := PlanHere(env, put, route);
    PlanOfPut(env.hash, Publishing.Job(env.cfg, put.upload, route), plan);
    CreatedDocument(plan, store);
  }

  lemma PublishedAtEdge(w: World, verb: string, path: string, status: int)
    requires Handle(w, verb, path).response == FromPublish(status)
    ensures EdgeWrites(w, verb, path) && status == w.publishStatus
  {
    var action := Classify(verb, path);
    if action !in {DenyRoute, DenyMethod, Preflight} && !EdgeWrites(w, verb, path) {
      NeverFromPublish(w, action, path);
    }
  }

  lemma NeverFromPublish(w: World, action: Action, path: string)
    ensures !AfterOrigin(w, action, path).response.FromPublish?
  {
  }

  /** A single publish is a run with one publisher. */
  lemma PlanOfPut(hash: Publishing.Digest, job: Publishing.Job, plan: Publishing.Plan)
    requires Publishing.IsDigest(hash) && job.route.PublishRoute? && ParsedForm(job.req)
    requires plan == Publishing.PlanPublish(hash, job.cfg, job.req, job.route)
    ensures plan.Refuse? ==> plan.refusal.status != 201
    ensures plan.Write? ==>
              && VersionMetadataKey(job.route.org, job.route.name, job.route.version) == Some(plan.versionKey)
              && PublishSafety.DocumentKey(plan.versionKey) && plan.versionKey != plan.objectKey
              && AllJson(plan.doc.mirrors) && AllJson(plan.doc.signatures)
  {
    var w := Publishing.World(hash, (id: nat) => job);
    assert Publishing.PlanOf(w, 0) == plan;
    if plan.Write? {
      PublishSafety.WriteKeys(w, 0);
      Publishing.PlanWrites(w, 0);
      PlanIsJson(w, 0);
    } else {
      PublishSafety.RefusalStatus(w, 0);
    }
  }

  lemma CreatedDocument(plan: Publishing.Plan, store: Publishing.Store)
    requires plan.Write? ==> plan.versionKey != plan.objectKey
    requires plan.Refuse? ==> plan.refusal.status != 201
    requires Publishing.Alone(plan, store).1 == Publishing.Answered(201)
    ensures plan.Write?
    ensures var after := Publishing.Alone(plan, store).0;
            plan.versionKey in after && after[plan.versionKey] == Publishing.DocObject(plan.doc, PublishMeta.Public)
  {
  }

  /**
   * End to end: what a PUT published at the edge, every later GET or HEAD of
   * that version answers from the bucket, while the origin is down or does not
   * know the version and whatever other publishers do, exactly when the
   * document is at most 1 MiB. Otherwise the request goes on to the native
   * registries, as if nothing had been published.
   */
  lemma PublishedHereIsServed(env: Environment, store: Publishing.Store, put: Request,
                              w: Publishing.World, more: seq<Publishing.Event>, later: Environment, get: Request)
    requires Publishing.IsDigest(env.hash) && ParsedForm(put.upload)
    requires RunOf(env, store, put).response == FromPublish(201)
    requires Publishing.ValidWorld(w)
    requires ParseRegistryPath(put.path).Some? && ParseRegistryPath(put.path).value.PublishRoute? ==>
               var plan := PlanHere(env, put, ParseRegistryPath(put.path).value);
               plan.Write? ==> Undoes(later.parse, DocumentValue(plan.doc))
    requires Faithful(later.deliver, Publishing.Exec(w, Publishing.Start(StoreAfter(env, store, put)), more).store)
    requires AsksBucket(later, get) && ParseRegistryPath(get.path) == ParseRegistryPath(put.path)
    ensures ParseRegistryPath(put.path).Some? && ParseRegistryPath(put.path).value.PublishRoute?
    ensures var plan := PlanHere(env, put, ParseRegistryPath(put.path).value);
            var last := Publishing.Exec(w, Publishing.Start(StoreAfter(env, store, put)), more).store;
            var r := RunOf(later, last, get);
            && plan.Write?
            && if |DocumentBytes(plan.doc)| <= Publishing.MAX_META then r == Run([AskOrigin, AskR2], FromR2)
               else |r.effects| > 2 && r.effects[..3] == [AskOrigin, AskR2, AskNative] && r.response != FromR2
  {
    var plan := PutStores(env, store, put);
    var after := StoreAfter(env, store, put);
    var last := Publishing.Exec(w, Publishing.Start(after), more).store;
    PublishSafety.DocumentsAreImmutable(w, Publishing.Start(after), more, plan.versionKey);
    DocumentReadsBack(later.parse, last, plan.versionKey, plan.doc);
    FaithfulRead(later, last, plan.versionKey);
    BucketRead(later, last, get);
  }

  /**
   * A version document that is marked non-public is answered 404 for ever, and
   * no source after the bucket is asked about it.
   */
  lemma NonPublicStaysHidden(store: Publishing.Store, w: Publishing.World, events: seq<Publishing.Event>,
                             env: Environment, get: Request, key: string)
    requires Publishing.ValidWorld(w)
    requires ParseRegistryPath(get.path).Some? && ParseRegistryPath(get.path).value.PublishRoute?
    requires var route := ParseRegistryPath(get.path).value;
             VersionMetadataKey(route.org, route.name, route.version) == Some(key)
    requires key in store && !PermitsPublic(store[key].marker)
    requires Faithful(env.deliver, Publishing.Exec(w, Publishing.Start(store), events).store) && AsksBucket(env, get)
    ensures RunOf(env, Publishing.Exec(w, Publishing.Start(store), events).store, get) ==
            Run([AskOrigin, AskR2], Problem(404, "not_found"))
  {
    var last := Publishing.Exec(w, Publishing.Start(store), events).store;
    PublishSafety.DocumentsAreImmutable(w, Publishing.Start(store), events, key);
    FaithfulRead(env, last, key);
    BucketRead(env, last, get);
  }

  /**
   * A package listing whose pages end is answered from the bucket exactly when
   * its newest document, as some publish built it, is at most 1 MiB.
   */
  lemma PackageIsServed(env: Environment, store: Publishing.Store, get: Request, org: string, name: string,
                        objects: seq<Listings.Entry>, d: VersionDoc)
    requires Undoes(env.parse, DocumentValue(d)) && Faithful(env.deliver, store) && AsksBucket(env, get)
    requires ParseRegistryPath(get.path) == Some(PackageRoute(org, name)) && OrgName(name)
    requires Listings.Collected(env.pages(org, name)) == Reading.Found(objects) && Listings.Published(objects) != []
    requires var key := Listings.Published(objects)[0].key;
             key in store && store[key] == Publishing.DocObject(d, PublishMeta.Public)
    requires AllJson(d.mirrors) && AllJson(d.signatures)
    ensures var r := RunOf(env, store, get);
            if |DocumentBytes(d)| <= Publishing.MAX_META then r == Run([AskOrigin, AskR2], FromR2)
            else |r.effects| > 2 && r.effects[..3] == [AskOrigin, AskR2, AskNative] && r.response != FromR2
  {
    PackageFromBucket(env, get.path, org, name, objects);
    FaithfulRead(env, store, Listings.Published(objects)[0].key);
    PublishedListing.ListingReadsNewest(env.parse, store, org, name, objects, d);
    SameNewest(org, name, objects, ReadKey(env), PublishedListing.ReadsFrom(env.parse, store));
    BucketRead(env, store, get);
  }

  lemma PackageFromBucket(env: Environment, path: string, org: string, name: string, objects: seq<Listings.Entry>)
    requires ParseRegistryPath(path) == Some(PackageRoute(org, name)) && OrgName(name)
    requires Listings.Collected(env.pages(org, name)) == Reading.Found(objects)
    ensures FromBucket(env, path) == AnswerOf(Listings.Derive(org, name, objects, ReadKey(env)))
  {
    OrgOfPackage(path, org, name);
  }

  lemma OrgOfPackage(path: string, org: string, name: string)
    requires ParseRegistryPath(path) == Some(PackageRoute(org, name))
    ensures OrgName(org)
  {
    SlugIsChars(org);
  }

  lemma SameNewest(org: string, name: string, objects: seq<Listings.Entry>, a: Listings.Reader, b: Listings.Reader)
    requires Listings.Published(objects) != []
    requires a(Listings.Published(objects)[0].key) == b(Listings.Published(objects)[0].key)
    ensures Listings.Derive(org, name, objects, a) == Listings.Derive(org, name, objects, b)
  {
  }

  // ----- documents that hide themselves -----

  /** The object is restricted by its marker, or its text parses and restricts itself or its package. */
  ghost predicate Hidden(parse: Reading.Parse, entry: Reading.R2Object) {
    || entry.marker.Restricted?
    || exists text :: Reading.Arrives(entry, text) && parse(text).Some? && !Reading.OpenlyPublic(parse(text).value)
  }

  /**
   * While the origin is down or does not know it, a version whose stored object
   * is hidden is answered 404, and no source after the bucket is asked; any
   * other is answered from the bucket or goes on to the next source.
   */
  lemma HiddenIsNotServed(env: Environment, store: Publishing.Store, get: Request, key: string)
    requires AsksBucket(env, get)
    requires ParseRegistryPath(get.path).Some? && ParseRegistryPath(get.path).value.PublishRoute?
    requires var route := ParseRegistryPath(get.path).value;
             VersionMetadataKey(route.org, route.name, route.version) == Some(key)
    ensures env.deliver(key).Some? && Hidden(env.parse, env.deliver(key).value) <==>
            RunOf(env, store, get) == Run([AskOrigin, AskR2], Problem(404, "not_found"))
  {
    Reading.ReadExactly(env.parse, env.deliver(key), JsonText.Null);
    BucketRead(env, store, get);
    assert FromBucket(env, get.path) == AnswerOf(ReadKey(env)(key));
  }

  /** The same for a package whose newest document is hidden. */
  lemma HiddenIsNotListed(env: Environment, store: Publishing.Store, get: Request, org: string, name: string,
                          objects: seq<Listings.Entry>)
    requires AsksBucket(env, get) && ParseRegistryPath(get.path) == Some(PackageRoute(org, name)) && OrgName(name)
    requires Listings.Collected(env.pages(org, name)) == Reading.Found(objects) && Listings.Published(objects) != []
    ensures var key := Listings.Published(objects)[0].key;
            env.deliver(key).Some? && Hidden(env.parse, env.deliver(key).value) <==>
            RunOf(env, store, get) == Run([AskOrigin, AskR2], Problem(404, "not_found"))
  {
    var key := Listings.Published(objects)[0].key;
    PackageFromBucket(env, get.path, org, name, objects);
    Reading.ReadExactly(env.parse, env.deliver(key), JsonText.Null);
    BucketRead(env, store, get);
  }
}
