/**
 * Publishing from the edge (workers/shared/edge-publish.js): the checks of
 * `handleEdgePublish`, its two bucket writes, and every interleaving of any
 * number of publishers over one bucket.
 *
 * Multipart and JSON parsing are library calls, so a request carries their
 * results: parts, and JSON values. SHA-256 is any total function to 64 hexadecimal digits. R2's
 * `put` with `If-None-Match: *` is one atomic create-if-absent step.
 */
module EdgePublish {
  import opened Common
  import opened Utf8
  import opened Routes
  import opened PublishMeta
  import JsonText
  import Text

  type Units = JsonText.Units
  type Json = JsonText.Json

  const MAX_ARTIFACT := 32 * 1024 * 1024
  const MAX_META := 1024 * 1024
  const MAX_SAFE_INTEGER := 0x1F_FFFF_FFFF_FFFF
  const DEFAULT_CDN := "https://cdn.zpkg.net"

  // ----- request data -----

  /** A form part. `json` is what `JSON.parse` makes of the text, if anything. */
  datatype Part =
    | TextPart(raw: Units, json: Option<Json>)
    | FilePart(bytes: seq<Byte>)

  datatype Request = Request(
    authorized: bool,
    contentLength: Option<string>,
    multipart: bool,
    chunks: seq<nat>,
    form: Option<seq<(string, Part)>>)

  datatype Config = Config(enabled: bool, cdnBase: string, now: string)

  // ----- the pieces of edge-publish.js -----

  predicate DigitsOnly(s: string) { s != "" && forall i | 0 <= i < |s| :: '0' <= s[i] <= '9' }

  function HeaderNumber(s: string): nat
    requires forall i | 0 <= i < |s| :: '0' <= s[i] <= '9'
  {
    if s == "" then 0 else HeaderNumber(s[..|s| - 1]) * 10 + (s[|s| - 1] as int - 48)
  }

  /** The canonical decimal `Content-Length`, when it is a safe integer. */
  function DeclaredLength(header: Option<string>): Option<nat> {
    if header.None? || !DigitsOnly(header.value) || (|header.value| > 1 && header.value[0] == '0')
       || HeaderNumber(header.value) > MAX_SAFE_INTEGER
    then None
    else Some(HeaderNumber(header.value))
  }

  function Sum(chunks: seq<nat>): nat {
    if chunks == [] then 0 else Sum(chunks[..|chunks| - 1]) + chunks[|chunks| - 1]
  }

  lemma {:induction false} SumMonotone(chunks: seq<nat>, k: nat)
    requires k <= |chunks|
    ensures Sum(chunks[..k]) <= Sum(chunks)
  {
    if k < |chunks| {
      SumMonotone(chunks[..|chunks| - 1], k);
      assert chunks[..|chunks| - 1][..k] == chunks[..k];
    } else {
      assert chunks[..k] == chunks;
    }
  }

  /** Chunk `i` is the first that overruns the declaration. */
  predicate OverrunAt(chunks: seq<nat>, declared: nat, i: int) {
    0 <= i < |chunks| && Sum(chunks[..i]) <= declared < Sum(chunks[..i + 1])
  }

  /** The counting stream: it stops at the first chunk that overruns the declaration. */
  method CountBody(chunks: seq<nat>, declared: nat) returns (received: nat, exceeded: bool)
    ensures exceeded <==> Sum(chunks) > declared
    ensures !exceeded ==> received == Sum(chunks)
    ensures exceeded ==> exists i :: OverrunAt(chunks, declared, i) && received == Sum(chunks[..i + 1])
  {
    received, exceeded := 0, false;
    var i := 0;
    while i < |chunks|
      invariant 0 <= i <= |chunks| && !exceeded
      invariant received == Sum(chunks[..i]) <= declared
    {
      assert chunks[..i + 1][..i] == chunks[..i];
      received := received + chunks[i];
      if received > declared {
        SumMonotone(chunks, i + 1);
        assert OverrunAt(chunks, declared, i);
        exceeded := true;
        return;
      }
      i := i + 1;
    }
    assert chunks[..i] == chunks;
  }

  /**
   * `artifactExtension`. The table is a plain object, so two lower-cased names
   * are found on its prototype instead, and a template prints what it finds.
   */
  function ArtifactExtension(format: Format): Option<string> {
    match format
    case NoFormat => Some("tar.gz")
    case FormatOther => None
    case FormatText(text) =>
      if text == "" then Some("tar.gz")
      else
        var key := Text.Lower(text);
        if key in {"tar.gz", "targz", "tgz", "gzip"} then Some("tar.gz")
        else if key == "zip" then Some("zip")
        else if key == "constructor" then Some("function Object() { [native code] }")
        else if key == "__proto__" then Some("[object Object]")
        else None
  }

  predicate Inherited(format: Format) {
    format.FormatText? && Text.Lower(format.text) in {"constructor", "__proto__"}
  }

  function ArtifactKey(sha256: string, format: Format): Option<string> {
    if !IsSha256(sha256) || ArtifactExtension(format).None? then None
    else Some("artifacts/" + sha256 + "." + ArtifactExtension(format).value)
  }

  datatype Refusal = Refusal(status: int, code: string)

  /** `validatePublishMeta`; `None` is acceptance. */
  function ValidatePublishMeta(meta: Meta, route: Route): Option<Refusal>
    requires route.PublishRoute?
  {
    if !meta.Meta? then Some(Refusal(400, "invalid_publish_meta"))
    else if meta.org != Some(Utf16(route.org)) || meta.name != Some(Utf16(route.name))
            || meta.version != Some(Utf16(route.version))
    then Some(Refusal(422, "publish_identity_mismatch"))
    else if !PermitsPublic(meta.visibility) || !PermitsPublic(meta.packageVisibility) then
      Some(Refusal(422, "edge_publication_requires_public_visibility"))
    else if meta.sha256.None? || !IsSha256(meta.sha256.value)
            || meta.size.None? || meta.size.value < 0
            || meta.vcsTag.None? || meta.vcsTag.value == []
            || ArtifactExtension(meta.format).None?
    then Some(Refusal(422, "invalid_publish_meta"))
    else None
  }

  function CdnBase(cfg: Config): string { Text.TrimEnd(if cfg.cdnBase == "" then DEFAULT_CDN else cfg.cdnBase, '/') }

  function BuildVersionMetadata(cfg: Config, route: Route, meta: Meta, sha256: string, size: nat): VersionDoc
    requires route.PublishRoute? && meta.Meta? && meta.vcsTag.Some? && ArtifactExtension(meta.format).Some?
  {
    VersionDoc(
      route.org, route.name, route.version, sha256, size,
      if meta.format.FormatText? then meta.format.text else "tar.gz",
      meta.vcsTag.value,
      CdnBase(cfg) + "/artifacts/" + sha256 + "." + ArtifactExtension(meta.format).value,
      if meta.publishedAt.Some? && meta.publishedAt.value != [] then meta.publishedAt.value else Utf16(cfg.now),
      false,
      if meta.vcsCommit == Some([]) then None else meta.vcsCommit,
      meta.facts, meta.mirrors, meta.signatures)
  }

  // ----- handleEdgePublish up to its first write -----

  datatype Plan =
    | Refuse(refusal: Refusal)
    | Write(objectKey: string, bytes: seq<Byte>, versionKey: string, doc: VersionDoc)

  /** A digest function, as `crypto.subtle` provides it. */
  type Digest = seq<Byte> -> string

  ghost predicate IsDigest(hash: Digest) { forall b: seq<Byte> :: IsSha256(hash(b)) }

  function Named(form: seq<(string, Part)>, name: string): seq<Part> {
    if form == [] then []
    else (if form[0].0 == name then [form[0].1] else []) + Named(form[1..], name)
  }

  function PlanForm(hash: Digest, cfg: Config, form: seq<(string, Part)>, route: Route): Plan
    requires route.PublishRoute?
  {
    var metas, artifacts := Named(form, "meta"), Named(form, "artifact");
    if |form| != 2 || |metas| != 1 || |artifacts| != 1 || !metas[0].TextPart? || !artifacts[0].FilePart? then
      Refuse(Refusal(400, "invalid_publish_body"))
    else if |Utf8Bytes(metas[0].raw)| > MAX_META then Refuse(Refusal(413, "invalid_publish_meta"))
    else if metas[0].json.None? then Refuse(Refusal(400, "invalid_publish_meta"))
    else PlanArtifact(hash, cfg, MetaOf(metas[0].json.value), artifacts[0].bytes, route)
  }

  function PlanArtifact(hash: Digest, cfg: Config, meta: Meta, bytes: seq<Byte>, route: Route): Plan
    requires route.PublishRoute?
  {
    var invalid := ValidatePublishMeta(meta, route);
    if invalid.Some? then Refuse(invalid.value)
    else if |bytes| == 0 then Refuse(Refusal(422, "empty_artifact"))
    else if |bytes| > MAX_ARTIFACT then Refuse(Refusal(413, "artifact_too_large"))
    else if hash(bytes) != meta.sha256.value then Refuse(Refusal(422, "artifact_digest_mismatch"))
    else if meta.size.value != |bytes| then Refuse(Refusal(422, "artifact_size_mismatch"))
    else
      var versionKey := VersionMetadataKey(route.org, route.name, route.version);
      var objectKey := ArtifactKey(hash(bytes), meta.format);
      if versionKey.None? || objectKey.None? then Refuse(Refusal(400, "invalid_publish_target"))
      else
        Write(objectKey.value, bytes, versionKey.value,
              BuildVersionMetadata(cfg, route, meta, hash(bytes), |bytes|))
  }

  function PlanPublish(hash: Digest, cfg: Config, req: Request, route: Route): Plan
    requires route.PublishRoute?
  {
    var declared := DeclaredLength(req.contentLength);
    if !cfg.enabled then Refuse(Refusal(503, "registry_origin_unavailable"))
    else if !req.authorized then Refuse(Refusal(401, "unauthorized"))
    else if declared.None? then Refuse(Refusal(411, "length_required"))
    else if declared.value > MAX_ARTIFACT + MAX_META then Refuse(Refusal(413, "artifact_too_large"))
    else if !req.multipart then Refuse(Refusal(400, "invalid_publish_body"))
    else if Sum(req.chunks) > declared.value then Refuse(Refusal(413, "artifact_too_large"))
    else if req.form.None? then Refuse(Refusal(400, "invalid_publish_body"))
    else if Sum(req.chunks) != declared.value then Refuse(Refusal(400, "publish_length_mismatch"))
    else PlanForm(hash, cfg, req.form.value, route)
  }

  // ----- the bucket and its publishers -----

  datatype Object =
    | ArtifactObject(bytes: seq<Byte>, marker: Visibility)
    | DocObject(doc: VersionDoc, marker: Visibility)

  type Store = map<string, Object>

  datatype Job = Job(cfg: Config, req: Request, route: Route)

  /** Everything that does not change during a run: one job per publisher. */
  datatype World = World(hash: Digest, jobs: nat -> Job)

  /** Where a publisher stands. */
  datatype Phase = Idle | Stored | Answered(status: int) | Stopped

  datatype State = State(store: Store, phases: map<nat, Phase>)

  /** A publisher takes its next step, takes it but dies before it can answer,
      or stops without taking it. */
  datatype Event = Advance(id: nat) | AdvanceAndStop(id: nat) | Stop(id: nat)

  ghost predicate ValidWorld(w: World) {
    IsDigest(w.hash) && forall id: nat :: w.jobs(id).route.PublishRoute?
  }

  function PlanOf(w: World, id: nat): Plan {
    var job := w.jobs(id);
    if job.route.PublishRoute? then PlanPublish(w.hash, job.cfg, job.req, job.route)
    else Refuse(Refusal(400, "invalid_publish_target"))
  }

  function PhaseOf(s: State, id: nat): Phase {
    if id in s.phases then s.phases[id] else Idle
  }

  /** The next step of one publisher: the store it leaves and its new phase. */
  function Take(plan: Plan, store: Store, phase: Phase): (Store, Phase) {
    match (plan, phase)
    case (Refuse(r), Idle) => (store, Answered(r.status))
    case (Write(objectKey, bytes, _, _), Idle) =>
      (store[objectKey := ArtifactObject(bytes, Public)], Stored)
    case (Write(_, _, versionKey, doc), Stored) =>
      if versionKey in store then (store, Answered(409))
      else (store[versionKey := DocObject(doc, Public)], Answered(201))
    case _ => (store, phase)
  }

  function Next(w: World, s: State, e: Event): State {
    var phase := PhaseOf(s, e.id);
    if phase.Answered? || phase.Stopped? then s
    else
      var (store, after) := Take(PlanOf(w, e.id), s.store, phase);
      match e
      case Advance(id) => State(store, s.phases[id := after])
      case AdvanceAndStop(id) => State(store, s.phases[id := Stopped])
      case Stop(id) => State(s.store, s.phases[id := Stopped])
  }

  function Exec(w: World, s: State, events: seq<Event>): State {
    if events == [] then s else Next(w, Exec(w, s, events[..|events| - 1]), events[|events| - 1])
  }

  function Start(store: Store): State { State(store, map[]) }

  // ----- the handler over a live bucket -----

  class Bucket {
    var objects: Store

    constructor ()
      ensures objects == map[]
    {
      objects := map[];
    }

    method Put(key: string, value: Object)
      modifies this
      ensures objects == old(objects)[key := value]
    {
      objects := objects[key := value];
    }

    /** `put` with `If-None-Match: *`; false stands for its `null`. */
    method PutIfAbsent(key: string, value: Object) returns (claimed: bool)
      modifies this
      ensures claimed <==> key !in old(objects)
      ensures objects == if claimed then old(objects)[key := value] else old(objects)
    {
      claimed := key !in objects;
      if claimed {
        objects := objects[key := value];
      }
    }
  }

  /** Both steps of one publisher that nobody interrupts. */
  function Alone(plan: Plan, store: Store): (Store, Phase) {
    var (mid, phase) := Take(plan, store, Idle);
    if phase.Stored? then Take(plan, mid, Stored) else (mid, phase)
  }

  /** The body of an answer: an error code, or the published coordinate and digest. */
  datatype Body = Error(code: string) | Accepted(org: string, name: string, version: string, sha256: string)

  /** The body that goes with the status of a plan. */
  function BodyOf(plan: Plan, route: Route, status: int): Body
    requires route.PublishRoute?
  {
    if plan.Refuse? then Error(plan.refusal.code)
    else if status == 409 then Error("version_already_published")
    else Accepted(route.org, route.name, route.version, plan.doc.sha256)
  }

  /** `handleEdgePublish`: its answer and the bucket it leaves. */
  method HandleEdgePublish(hash: Digest, bucket: Bucket, job: Job) returns (status: int, body: Body)
    requires job.route.PublishRoute?
    modifies bucket
    ensures (bucket.objects, Answered(status)) ==
            Alone(PlanPublish(hash, job.cfg, job.req, job.route), old(bucket.objects))
    ensures body == BodyOf(PlanPublish(hash, job.cfg, job.req, job.route), job.route, status)
  {
    if !job.cfg.enabled { return 503, Error("registry_origin_unavailable"); }
    if !job.req.authorized { return 401, Error("unauthorized"); }
    var declared := DeclaredLength(job.req.contentLength);
    if declared.None? { return 411, Error("length_required"); }
    if declared.value > MAX_ARTIFACT + MAX_META { return 413, Error("artifact_too_large"); }
    if !job.req.multipart { return 400, Error("invalid_publish_body"); }
    var received, exceeded := CountBody(job.req.chunks, declared.value);
    if exceeded { return 413, Error("artifact_too_large"); }
    if job.req.form.None? { return 400, Error("invalid_publish_body"); }
    if received != declared.value { return 400, Error("publish_length_mismatch"); }
    var plan := PlanForm(hash, job.cfg, job.req.form.value, job.route);
    if plan.Refuse? { return plan.refusal.status, Error(plan.refusal.code); }
    bucket.Put(plan.objectKey, ArtifactObject(plan.bytes, Public));
    var claimed := bucket.PutIfAbsent(plan.versionKey, DocObject(plan.doc, Public));
    if !claimed { return 409, Error("version_already_published"); }
    return 201, Accepted(job.route.org, job.route.name, job.route.version, plan.doc.sha256);
  }

  // ----- facts about plans -----

  /** The format that a request declares, if its form carries one meta part. */
  function DeclaredFormat(req: Request): Format {
    if req.form.Some? && Named(req.form.value, "meta") != [] && Named(req.form.value, "meta")[0].TextPart?
       && Named(req.form.value, "meta")[0].json.Some? && MetaOf(Named(req.form.value, "meta")[0].json.value).Meta?
    then MetaOf(Named(req.form.value, "meta")[0].json.value).format
    else NoFormat
  }

  /** Where the parts of a plan come from. */
  lemma PlanSource(w: World, id: nat) returns (meta: Meta)
    requires ValidWorld(w) && PlanOf(w, id).Write?
    ensures var job, plan := w.jobs(id), PlanOf(w, id);
      && meta.Meta? && meta.vcsTag.Some? && ArtifactExtension(meta.format).Some?
      && DeclaredFormat(job.req) == meta.format
      && VersionMetadataKey(job.route.org, job.route.name, job.route.version) == Some(plan.versionKey)
      && plan.objectKey == "artifacts/" + w.hash(plan.bytes) + "." + ArtifactExtension(meta.format).value
      && plan.doc == BuildVersionMetadata(job.cfg, job.route, meta, w.hash(plan.bytes), |plan.bytes|)
  {
    var job := w.jobs(id);
    var form := job.req.form.value;
    meta := MetaOf(Named(form, "meta")[0].json.value);
    assert PlanOf(w, id) == PlanArtifact(w.hash, job.cfg, meta, Named(form, "artifact")[0].bytes, job.route);
  }

  lemma PlanWrites(w: World, id: nat)
    requires ValidWorld(w) && PlanOf(w, id).Write?
    ensures var route := w.jobs(id).route;
      var plan := PlanOf(w, id);
      && VersionMetadataKey(route.org, route.name, route.version) == Some(plan.versionKey)
      && |plan.objectKey| > 75 && plan.objectKey[..74] == "artifacts/" + w.hash(plan.bytes)
      && plan.doc.sha256 == w.hash(plan.bytes) && plan.doc.size == |plan.bytes|
      && plan.doc.org == route.org && plan.doc.name == route.name && plan.doc.version == route.version
  {
    var meta := PlanSource(w, id);
    WrittenFacts(w.hash, w.jobs(id).cfg, w.jobs(id).route, meta, PlanOf(w, id));
  }

  lemma WrittenFacts(hash: Digest, cfg: Config, route: Route, meta: Meta, plan: Plan)
    requires IsDigest(hash) && route.PublishRoute? && plan.Write?
    requires meta.Meta? && meta.vcsTag.Some? && ArtifactExtension(meta.format).Some?
    requires plan.objectKey == "artifacts/" + hash(plan.bytes) + "." + ArtifactExtension(meta.format).value
    requires plan.doc == BuildVersionMetadata(cfg, route, meta, hash(plan.bytes), |plan.bytes|)
    ensures |plan.objectKey| > 75 && plan.objectKey[..74] == "artifacts/" + hash(plan.bytes)
    ensures plan.doc.sha256 == hash(plan.bytes) && plan.doc.size == |plan.bytes|
    ensures plan.doc.org == route.org && plan.doc.name == route.name && plan.doc.version == route.version
  {
    var head, extension := "artifacts/" + hash(plan.bytes), ArtifactExtension(meta.format).value;
    assert |hash(plan.bytes)| == 64;
    assert |extension| > 0;
    assert plan.objectKey == head + ("." + extension);
  }

  /** The download URL is the CDN base and the key of the artifact. */
  lemma DownloadUrl(hash: Digest, cfg: Config, route: Route, meta: Meta, plan: Plan)
    requires route.PublishRoute? && plan.Write?
    requires meta.Meta? && meta.vcsTag.Some? && ArtifactExtension(meta.format).Some?
    requires plan.objectKey == "artifacts/" + hash(plan.bytes) + "." + ArtifactExtension(meta.format).value
    requires plan.doc == BuildVersionMetadata(cfg, route, meta, hash(plan.bytes), |plan.bytes|)
    ensures plan.doc.downloadUrl == CdnBase(cfg) + "/" + plan.objectKey
  {
    var base, digest, extension := CdnBase(cfg), hash(plan.bytes), ArtifactExtension(meta.format).value;
    assert base + "/artifacts/" + digest + "." + extension == base + "/" + ("artifacts/" + digest + "." + extension);
  }

  /** The handler is one run of the step machine: two steps with nobody in
      between. On its own a publish answers 409 exactly when the version exists. */
  lemma AloneIsARun(w: World, store: Store, id: nat)
    requires ValidWorld(w)
    ensures var s := Exec(w, Start(store), [Advance(id), Advance(id)]);
      (s.store, PhaseOf(s, id)) == Alone(PlanOf(w, id), store)
    ensures var plan := PlanOf(w, id);
      plan.Write? ==> Alone(plan, store).1 == Answered(if plan.versionKey in store then 409 else 201)
  {
    TwoSteps(w, store, id);
    if PlanOf(w, id).Write? {
      WriteKeysDiffer(w, id);
      AloneAnswers(PlanOf(w, id), store);
    }
  }

  lemma WriteKeysDiffer(w: World, id: nat)
    requires ValidWorld(w) && PlanOf(w, id).Write?
    ensures PlanOf(w, id).versionKey != PlanOf(w, id).objectKey
  {
    PlanWrites(w, id);
    KeysDiffer(w.jobs(id).route, PlanOf(w, id).versionKey, PlanOf(w, id).objectKey, w.hash(PlanOf(w, id).bytes));
  }

  lemma TwoSteps(w: World, store: Store, id: nat)
    ensures var s := Exec(w, Start(store), [Advance(id), Advance(id)]);
      (s.store, PhaseOf(s, id)) == Alone(PlanOf(w, id), store)
  {
    var events := [Advance(id), Advance(id)];
    assert events[..1] == [Advance(id)] && events[..1][..0] == [];
    var s1 := Next(w, Start(store), Advance(id));
    assert Exec(w, Start(store), [Advance(id)]) == s1;
    assert Exec(w, Start(store), events) == Next(w, s1, Advance(id));
  }

  lemma AloneAnswers(plan: Plan, store: Store)
    requires plan.Write? && plan.versionKey != plan.objectKey
    ensures Alone(plan, store).1 == Answered(if plan.versionKey in store then 409 else 201)
  {
  }

  lemma KeysDiffer(route: Route, versionKey: string, objectKey: string, digest: string)
    requires route.PublishRoute? && VersionMetadataKey(route.org, route.name, route.version) == Some(versionKey)
    requires |objectKey| > 75 && objectKey[..74] == "artifacts/" + digest
    ensures versionKey != objectKey
  {
    assert versionKey[0] == 'm' && objectKey[0] == objectKey[..74][0] == 'a';
  }
}
