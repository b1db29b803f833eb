/**
 * What every run of any number of publishers keeps
 * (workers/shared/edge-publish.js, `handleEdgePublish`).
 */
module PublishSafety {
  import opened Common
  import opened Routes
  import opened EdgePublish
  import opened PublishMeta
  import Text
  import Utf8

  predicate DocumentKey(key: string) { key != "" && key[0] == 'm' }

  predicate ObjectKey(key: string) { |key| > 75 && key[..10] == "artifacts/" }

  // ----- one winner -----

  /** What one publisher's phase says about the store. */
  ghost predicate PhaseFacts(w: World, s: State, id: nat) {
    var plan := PlanOf(w, id);
    match PhaseOf(s, id)
    case Stored =>
      && plan.Write? && plan.objectKey in s.store && s.store[plan.objectKey].ArtifactObject?
      && w.hash(s.store[plan.objectKey].bytes) == w.hash(plan.bytes)
    case Answered(status) =>
      if plan.Refuse? then status == plan.refusal.status
      else
        && status in {201, 409} && plan.versionKey in s.store
        && (status == 201 ==> s.store[plan.versionKey] == DocObject(plan.doc, Public))
    case _ => true
  }

  ghost predicate Won(w: World, s: State, id: nat) {
    PhaseOf(s, id) == Answered(201) && PlanOf(w, id).Write?
  }

  ghost predicate Inv(w: World, s: State) {
    && (forall id: nat :: PhaseFacts(w, s, id))
    && (forall p: nat, q: nat :: Won(w, s, p) && Won(w, s, q) && p != q ==>
          PlanOf(w, p).versionKey != PlanOf(w, q).versionKey)
  }

  lemma WriteKeys(w: World, id: nat)
    requires ValidWorld(w) && PlanOf(w, id).Write?
    ensures var plan := PlanOf(w, id);
      && DocumentKey(plan.versionKey) && !DocumentKey(plan.objectKey) && ObjectKey(plan.objectKey)
      && plan.objectKey[..74] == "artifacts/" + w.hash(plan.bytes)
  {
    PlanWrites(w, id);
    var plan := PlanOf(w, id);
    assert plan.versionKey[0] == 'm' && plan.objectKey[0] == 'a';
    assert plan.objectKey[..74] == "artifacts/" + w.hash(plan.bytes);
  }

  /** One step adds a document, refreshes an artifact, or changes no object. */
  lemma StepEffect(w: World, s: State, e: Event)
    requires ValidWorld(w)
    ensures var plan, s' := PlanOf(w, e.id), Next(w, s, e);
      || s'.store == s.store
      || (plan.Write? && s'.store == s.store[plan.objectKey := ArtifactObject(plan.bytes, Public)])
      || (plan.Write? && plan.versionKey !in s.store && PhaseOf(s, e.id) == Stored
          && s'.store == s.store[plan.versionKey := DocObject(plan.doc, Public)])
    ensures forall id: nat | id != e.id :: PhaseOf(Next(w, s, e), id) == PhaseOf(s, id)
  {
  }

  lemma OtherPublisherKeeps(w: World, s: State, e: Event, id: nat)
    requires ValidWorld(w) && PhaseFacts(w, s, id) && id != e.id
    ensures PhaseFacts(w, Next(w, s, e), id)
  {
    StepEffect(w, s, e);
    var plan, mine := PlanOf(w, e.id), PlanOf(w, id);
    if plan.Write? { WriteKeys(w, e.id); }
    if mine.Write? { WriteKeys(w, id); }
    if plan.Write? && mine.Write? && plan.objectKey == mine.objectKey {
      SameDigest(w.hash(plan.bytes), w.hash(mine.bytes), plan.objectKey);
    }
  }

  lemma SameDigest(a: string, b: string, key: string)
    requires |key| > 75 && key[..74] == "artifacts/" + a && key[..74] == "artifacts/" + b
    ensures a == b
  {
    assert a == ("artifacts/" + a)[10..] && b == ("artifacts/" + b)[10..];
  }

  lemma OwnStepKeeps(w: World, s: State, e: Event)
    requires ValidWorld(w) && PhaseFacts(w, s, e.id)
    ensures PhaseFacts(w, Next(w, s, e), e.id)
    ensures Won(w, Next(w, s, e), e.id) ==> Won(w, s, e.id) || PlanOf(w, e.id).versionKey !in s.store
  {
    if PlanOf(w, e.id).Write? { WriteKeys(w, e.id); }
  }

  lemma StepKeepsInv(w: World, s: State, e: Event)
    requires ValidWorld(w) && Inv(w, s)
    ensures Inv(w, Next(w, s, e))
  {
    var s' := Next(w, s, e);
    forall id: nat ensures PhaseFacts(w, s', id) {
      if id == e.id { OwnStepKeeps(w, s, e); } else { OtherPublisherKeeps(w, s, e, id); }
    }
    StepEffect(w, s, e);
    OwnStepKeeps(w, s, e);
    forall p: nat, q: nat | Won(w, s', p) && Won(w, s', q) && p != q
      ensures PlanOf(w, p).versionKey != PlanOf(w, q).versionKey
    {
      assert p != e.id ==> Won(w, s, p) && PhaseFacts(w, s, p);
      assert q != e.id ==> Won(w, s, q) && PhaseFacts(w, s, q);
    }
  }

  lemma {:induction false} RunKeepsInv(w: World, store: Store, events: seq<Event>)
    requires ValidWorld(w)
    ensures Inv(w, Exec(w, Start(store), events))
  {
    if events != [] {
      RunKeepsInv(w, store, events[..|events| - 1]);
      StepKeepsInv(w, Exec(w, Start(store), events[..|events| - 1]), events[|events| - 1]);
    }
  }

  lemma RefusalStatus(w: World, id: nat)
    requires PlanOf(w, id).Refuse?
    ensures PlanOf(w, id).refusal.status in {400, 401, 411, 413, 422, 503}
  {
    var job := w.jobs(id);
    if job.route.PublishRoute? && job.req.form.Some? {
      var form := job.req.form.value;
      FormRefusalStatus(w.hash, job.cfg, form, job.route);
    }
  }

  lemma FormRefusalStatus(hash: Digest, cfg: Config, form: seq<(string, Part)>, route: Route)
    requires route.PublishRoute?
    ensures var plan := PlanForm(hash, cfg, form, route);
      plan.Refuse? ==> plan.refusal.status in {400, 413, 422}
  {
  }

  /**
   * In every interleaving, crashes included, at most one publish of a
   * coordinate answers 201, and then the store holds that publish's document.
   */
  lemma AtMostOnePublishWins(w: World, store: Store, events: seq<Event>, p: nat, q: nat)
    requires ValidWorld(w)
    requires var s := Exec(w, Start(store), events);
      PhaseOf(s, p) == Answered(201) && PhaseOf(s, q) == Answered(201)
    requires w.jobs(p).route == w.jobs(q).route
    ensures p == q
    ensures var plan := PlanOf(w, p);
      plan.Write? && plan.versionKey in Exec(w, Start(store), events).store
      && Exec(w, Start(store), events).store[plan.versionKey] == DocObject(plan.doc, Public)
  {
    RunKeepsInv(w, store, events);
    var s := Exec(w, Start(store), events);
    assert PhaseFacts(w, s, p) && PhaseFacts(w, s, q);
    if PlanOf(w, p).Refuse? { RefusalStatus(w, p); }
    if PlanOf(w, q).Refuse? { RefusalStatus(w, q); }
    PlanWrites(w, p);
    PlanWrites(w, q);
    assert Won(w, s, p) && Won(w, s, q);
  }

  /**
   * A publish that reached the claim answers 201 or 409, and one that was
   * refused before it answers with its refusal; 409 means the version exists.
   */
  lemma AnswersAreHonest(w: World, store: Store, events: seq<Event>, p: nat, status: int)
    requires ValidWorld(w)
    requires PhaseOf(Exec(w, Start(store), events), p) == Answered(status)
    ensures PlanOf(w, p).Write? <==> status == 201 || status == 409
    ensures PlanOf(w, p).Refuse? ==> status == PlanOf(w, p).refusal.status
    ensures status == 409 ==> PlanOf(w, p).versionKey in Exec(w, Start(store), events).store
  {
    RunKeepsInv(w, store, events);
    assert PhaseFacts(w, Exec(w, Start(store), events), p);
    if PlanOf(w, p).Refuse? { RefusalStatus(w, p); }
  }

  // ----- immutability and provenance -----

  /** An established version document never changes, whatever happens next. */
  lemma {:induction false} DocumentsAreImmutable(w: World, s: State, events: seq<Event>, key: string)
    requires ValidWorld(w) && DocumentKey(key) && key in s.store
    ensures key in Exec(w, s, events).store && Exec(w, s, events).store[key] == s.store[key]
  {
    if events != [] {
      var e, mid := events[|events| - 1], Exec(w, s, events[..|events| - 1]);
      DocumentsAreImmutable(w, s, events[..|events| - 1], key);
      StepEffect(w, mid, e);
      if PlanOf(w, e.id).Write? { WriteKeys(w, e.id); }
    }
  }

  /** Objects are never removed. */
  lemma {:induction false} StoreGrows(w: World, s: State, events: seq<Event>)
    requires ValidWorld(w)
    ensures s.store.Keys <= Exec(w, s, events).store.Keys
  {
    if events != [] {
      StoreGrows(w, s, events[..|events| - 1]);
      StepEffect(w, Exec(w, s, events[..|events| - 1]), events[|events| - 1]);
    }
  }

  /** A document that the run added is the document of a publisher that claimed it. */
  lemma {:induction false} NewDocumentsAreClaimed(w: World, store: Store, events: seq<Event>, key: string)
    returns (id: nat)
    requires ValidWorld(w) && DocumentKey(key)
    requires key in Exec(w, Start(store), events).store && key !in store
    ensures PlanOf(w, id).Write? && PlanOf(w, id).versionKey == key
    ensures Exec(w, Start(store), events).store[key] == DocObject(PlanOf(w, id).doc, Public)
  {
    var front, e := events[..|events| - 1], events[|events| - 1];
    var mid := Exec(w, Start(store), front);
    StepEffect(w, mid, e);
    if PlanOf(w, e.id).Write? { WriteKeys(w, e.id); }
    if key in mid.store {
      id := NewDocumentsAreClaimed(w, store, front, key);
    } else {
      id := e.id;
    }
  }

  /** A publish that was answered, or stopped, is never heard of again. */
  lemma {:induction false} AnswersAreFinal(w: World, s: State, events: seq<Event>, id: nat)
    requires PhaseOf(s, id).Answered? || PhaseOf(s, id).Stopped?
    ensures PhaseOf(Exec(w, s, events), id) == PhaseOf(s, id)
  {
    if events != [] {
      AnswersAreFinal(w, s, events[..|events| - 1], id);
      var e, mid := events[|events| - 1], Exec(w, s, events[..|events| - 1]);
      if e.id != id { assert PhaseOf(Next(w, mid, e), id) == PhaseOf(mid, id); }
    }
  }

  // ----- refused publishes leave no trace -----

  function Without(events: seq<Event>, p: nat): seq<Event> {
    if events == [] then []
    else
      var front, e := events[..|events| - 1], events[|events| - 1];
      if e.id == p then Without(front, p) else Without(front, p) + [e]
  }

  /** Two states that only publisher `p` can tell apart. */
  ghost predicate SameExcept(a: State, b: State, p: nat) {
    a.store == b.store && forall id: nat | id != p :: PhaseOf(a, id) == PhaseOf(b, id)
  }

  lemma StepKeepsSame(w: World, a: State, b: State, e: Event, p: nat)
    requires SameExcept(a, b, p)
    ensures e.id != p ==> SameExcept(Next(w, a, e), Next(w, b, e), p)
    ensures e.id == p && PlanOf(w, p).Refuse? ==> SameExcept(Next(w, a, e), b, p)
  {
    if e.id != p {
      assert PhaseOf(a, e.id) == PhaseOf(b, e.id);
      var a', b' := Next(w, a, e), Next(w, b, e);
      forall id: nat | id != p ensures PhaseOf(a', id) == PhaseOf(b', id) {
        assert PhaseOf(a, id) == PhaseOf(b, id);
      }
    }
  }

  /**
   * Deleting every event of a refused publish from a run changes neither the
   * store nor any other publisher: it wrote nothing and influenced nobody.
   */
  lemma {:induction false} RefusedPublishLeavesNoTrace(w: World, store: Store, events: seq<Event>, p: nat)
    requires PlanOf(w, p).Refuse?
    ensures SameExcept(Exec(w, Start(store), events), Exec(w, Start(store), Without(events, p)), p)
  {
    if events != [] {
      var front, e := events[..|events| - 1], events[|events| - 1];
      var kept := Without(front, p);
      RefusedPublishLeavesNoTrace(w, store, front, p);
      StepKeepsSame(w, Exec(w, Start(store), front), Exec(w, Start(store), kept), e, p);
      assert (kept + [e])[..|kept + [e]| - 1] == kept;
    }
  }

  /** Any answer other than 201 or 409 leaves the store as if the publish had never been. */
  lemma OtherStatusesChangeNothing(w: World, store: Store, events: seq<Event>, p: nat, status: int)
    requires ValidWorld(w)
    requires PhaseOf(Exec(w, Start(store), events), p) == Answered(status) && status != 201 && status != 409
    ensures Exec(w, Start(store), events).store == Exec(w, Start(store), Without(events, p)).store
  {
    AnswersAreHonest(w, store, events, p, status);
    RefusedPublishLeavesNoTrace(w, store, events, p);
  }

  // ----- referential integrity -----

  /** The document's download URL ends in this bucket key, which names its digest. */
  predicate PointsTo(doc: VersionDoc, key: string) {
    && ObjectKey(key) && key[..74] == "artifacts/" + doc.sha256
    && Text.EndsWith(doc.downloadUrl, "/" + key)
  }

  /** The stored object is the artifact the document describes. */
  predicate Describes(hash: Digest, doc: VersionDoc, stored: Object) {
    && stored.ArtifactObject? && hash(stored.bytes) == doc.sha256
    && |stored.bytes| == doc.size && PermitsPublic(stored.marker)
  }

  ghost predicate HasArtifact(hash: Digest, store: Store, doc: VersionDoc) {
    exists key :: key in store && PointsTo(doc, key) && Describes(hash, doc, store[key])
  }

  ghost predicate Intact(hash: Digest, store: Store) {
    forall key | key in store && DocumentKey(key) ::
      store[key].DocObject? && PermitsPublic(store[key].marker) && HasArtifact(hash, store, store[key].doc)
  }

  predicate SameLength(hash: Digest, a: seq<Utf8.Byte>, b: seq<Utf8.Byte>) { hash(a) == hash(b) ==> |a| == |b| }

  /** The bytes collide with no stored artifact of another length. */
  predicate Agrees(hash: Digest, store: Store, bytes: seq<Utf8.Byte>) {
    forall k | k in store && store[k].ArtifactObject? :: SameLength(hash, store[k].bytes, bytes)
  }

  /** Among the artifacts stored and the artifacts published, one digest means
      one length. This is all that is assumed about collisions. */
  ghost predicate NoCollision(w: World, store: Store) {
    && (forall p: nat, q: nat | PlanOf(w, p).Write? && PlanOf(w, q).Write? ::
          SameLength(w.hash, PlanOf(w, p).bytes, PlanOf(w, q).bytes))
    && (forall p: nat | PlanOf(w, p).Write? :: Agrees(w.hash, store, PlanOf(w, p).bytes))
  }

  lemma StepKeepsNoCollision(w: World, s: State, e: Event)
    requires ValidWorld(w) && NoCollision(w, s.store)
    ensures NoCollision(w, Next(w, s, e).store)
  {
    StepEffect(w, s, e);
    var plan, s' := PlanOf(w, e.id), Next(w, s, e);
    forall p: nat | PlanOf(w, p).Write? ensures Agrees(w.hash, s'.store, PlanOf(w, p).bytes) {
      assert Agrees(w.hash, s.store, PlanOf(w, p).bytes);
      assert plan.Write? ==> SameLength(w.hash, plan.bytes, PlanOf(w, p).bytes);
    }
  }

  lemma PlanPointsTo(w: World, id: nat)
    requires ValidWorld(w) && PlanOf(w, id).Write?
    ensures PointsTo(PlanOf(w, id).doc, PlanOf(w, id).objectKey)
  {
    WriteKeys(w, id);
    UrlOf(w, id);
    PlanWrites(w, id);
    UrlPointsTo(CdnBase(w.jobs(id).cfg), PlanOf(w, id).doc, PlanOf(w, id).objectKey);
  }

  lemma UrlOf(w: World, id: nat)
    requires ValidWorld(w) && PlanOf(w, id).Write?
    ensures PlanOf(w, id).doc.downloadUrl == CdnBase(w.jobs(id).cfg) + "/" + PlanOf(w, id).objectKey
  {
    var meta := PlanSource(w, id);
    DownloadUrl(w.hash, w.jobs(id).cfg, w.jobs(id).route, meta, PlanOf(w, id));
  }

  lemma UrlPointsTo(base: string, doc: VersionDoc, key: string)
    requires ObjectKey(key) && key[..74] == "artifacts/" + doc.sha256 && doc.downloadUrl == base + "/" + key
    ensures PointsTo(doc, key)
  {
    assert base + "/" + key == base + ("/" + key);
  }

  /** A fresh copy under the same digest still is what the document describes. */
  lemma OverwriteDescribes(hash: Digest, doc: VersionDoc, old_: Object, bytes: seq<Utf8.Byte>, key: string)
    requires PointsTo(doc, key) && Describes(hash, doc, old_) && SameLength(hash, old_.bytes, bytes)
    requires key[..74] == "artifacts/" + hash(bytes)
    ensures Describes(hash, doc, ArtifactObject(bytes, Public))
  {
    SameDigest(hash(bytes), doc.sha256, key);
    assert hash(bytes) == hash(old_.bytes);
  }

  lemma OverwriteKeepsArtifact(hash: Digest, doc: VersionDoc, store: Store, key: string, bytes: seq<Utf8.Byte>)
    requires Agrees(hash, store, bytes) && ObjectKey(key) && key[..74] == "artifacts/" + hash(bytes)
    requires HasArtifact(hash, store, doc)
    ensures HasArtifact(hash, store[key := ArtifactObject(bytes, Public)], doc)
  {
    var store' := store[key := ArtifactObject(bytes, Public)];
    var k :| k in store && PointsTo(doc, k) && Describes(hash, doc, store[k]);
    if k == key { OverwriteDescribes(hash, doc, store[k], bytes, key); }
    assert k in store' && PointsTo(doc, k) && Describes(hash, doc, store'[k]);
  }

  lemma ClaimKeepsArtifact(hash: Digest, doc: VersionDoc, store: Store, key: string, stored: Object)
    requires DocumentKey(key) && HasArtifact(hash, store, doc)
    ensures HasArtifact(hash, store[key := stored], doc)
  {
    var k :| k in store && PointsTo(doc, k) && Describes(hash, doc, store[k]);
    assert k[0] == k[..10][0] == 'a';
    assert k in store[key := stored] && Describes(hash, doc, store[key := stored][k]);
  }

  lemma ClaimHasArtifact(w: World, s: State, id: nat)
    requires ValidWorld(w) && NoCollision(w, s.store) && PhaseFacts(w, s, id) && PhaseOf(s, id) == Stored
    requires PermitsPublic(s.store[PlanOf(w, id).objectKey].marker)
    ensures HasArtifact(w.hash, s.store, PlanOf(w, id).doc)
  {
    PlanPointsTo(w, id);
    PlanWrites(w, id);
    var plan := PlanOf(w, id);
    assert Agrees(w.hash, s.store, plan.bytes);
    assert SameLength(w.hash, s.store[plan.objectKey].bytes, plan.bytes);
    assert Describes(w.hash, plan.doc, s.store[plan.objectKey]);
  }

  /** Whoever stored an artifact stored it with a public marker. */
  ghost predicate StoredPublic(w: World, s: State) {
    forall id: nat :: PhaseOf(s, id) == Stored && PlanOf(w, id).Write? && PlanOf(w, id).objectKey in s.store ==>
      PermitsPublic(s.store[PlanOf(w, id).objectKey].marker)
  }

  lemma OverwriteKeepsIntact(hash: Digest, store: Store, key: string, bytes: seq<Utf8.Byte>)
    requires Agrees(hash, store, bytes) && ObjectKey(key) && key[..74] == "artifacts/" + hash(bytes)
    requires !DocumentKey(key) && Intact(hash, store)
    ensures Intact(hash, store[key := ArtifactObject(bytes, Public)])
  {
    var store' := store[key := ArtifactObject(bytes, Public)];
    forall k | k in store' && DocumentKey(k)
      ensures store'[k].DocObject? && PermitsPublic(store'[k].marker) && HasArtifact(hash, store', store'[k].doc)
    {
      OverwriteKeepsArtifact(hash, store[k].doc, store, key, bytes);
    }
  }

  lemma ClaimKeepsIntact(hash: Digest, store: Store, key: string, doc: VersionDoc)
    requires DocumentKey(key) && HasArtifact(hash, store, doc) && Intact(hash, store)
    ensures Intact(hash, store[key := DocObject(doc, Public)])
  {
    var store' := store[key := DocObject(doc, Public)];
    forall k | k in store' && DocumentKey(k)
      ensures store'[k].DocObject? && PermitsPublic(store'[k].marker) && HasArtifact(hash, store', store'[k].doc)
    {
      ClaimKeepsArtifact(hash, store'[k].doc, store, key, DocObject(doc, Public));
    }
  }

  lemma StepKeepsIntact(w: World, s: State, e: Event)
    requires ValidWorld(w) && NoCollision(w, s.store) && Inv(w, s) && StoredPublic(w, s) && Intact(w.hash, s.store)
    ensures Intact(w.hash, Next(w, s, e).store)
  {
    StepEffect(w, s, e);
    var plan, s' := PlanOf(w, e.id), Next(w, s, e);
    if plan.Write? && s'.store != s.store {
      WriteKeys(w, e.id);
      if PhaseOf(s, e.id) == Stored {
        assert PhaseFacts(w, s, e.id);
        ClaimHasArtifact(w, s, e.id);
        ClaimKeepsIntact(w.hash, s.store, plan.versionKey, plan.doc);
      } else {
        OverwriteKeepsIntact(w.hash, s.store, plan.objectKey, plan.bytes);
      }
    }
  }

  lemma StepKeepsPublic(w: World, s: State, e: Event)
    requires ValidWorld(w) && Inv(w, s) && StoredPublic(w, s)
    ensures StoredPublic(w, Next(w, s, e))
  {
    var s' := Next(w, s, e);
    StepEffect(w, s, e);
    forall id: nat | PhaseOf(s', id) == Stored && PlanOf(w, id).Write? && PlanOf(w, id).objectKey in s'.store
      ensures PermitsPublic(s'.store[PlanOf(w, id).objectKey].marker)
    {
      assert PhaseFacts(w, s, id);
    }
  }

  /**
   * In every reachable state, whatever was interrupted, each version document
   * names an artifact that is already stored, with the digest and the size
   * that the document states, and neither is marked non-public.
   */
  lemma {:induction false} EveryDocumentHasItsArtifact(w: World, store: Store, events: seq<Event>)
    requires ValidWorld(w) && NoCollision(w, store) && Intact(w.hash, store)
    ensures Intact(w.hash, Exec(w, Start(store), events).store)
    ensures NoCollision(w, Exec(w, Start(store), events).store)
    ensures StoredPublic(w, Exec(w, Start(store), events))
  {
    if events != [] {
      var front := events[..|events| - 1];
      EveryDocumentHasItsArtifact(w, store, front);
      RunKeepsInv(w, store, front);
      StepKeepsIntact(w, Exec(w, Start(store), front), events[|events| - 1]);
      StepKeepsNoCollision(w, Exec(w, Start(store), front), events[|events| - 1]);
      StepKeepsPublic(w, Exec(w, Start(store), front), events[|events| - 1]);
    }
  }
}
