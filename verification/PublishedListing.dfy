/**
 * What a package listing says when its newest document was published, and when
 * it answers at all (`r2PackageMetadata` of workers/shared/edge-publish.js).
 */
module PublishedListing {
  import opened Common
  import opened Routes
  import opened Utf8
  import opened JsonText
  import opened PublishMeta
  import opened MetadataReader
  import opened PublishedDocuments
  import opened EdgePublish
  import opened PackageListing
  import PublishSafety

  /** Reading a bucket through `readJsonObject`. */
  function ReadsFrom(parse: Parse, store: Store): Reader { (key: string) => StoredRead(parse, store, key) }

  // ----- the facts a listing takes from a document -----

  /** The package member of a document as the readers see it. */
  function FactsSeen(facts: PackageFacts): PackageField {
    Facts(Unmarked, Some(facts.vcs), Some(facts.repoUrl), facts.description)
  }

  lemma PackageSeen(v: Json, facts: PackageFacts)
    requires Same(v, FactsValue(facts))
    ensures PackageOf(Some(v)) == FactsSeen(facts)
  {
    var w := FactsValue(facts);
    FactsField(facts, "vcs");
    FactsField(facts, "repo_url");
    FactsField(facts, "description");
    FactsField(facts, "visibility");
    LookupSame(v, w, "vcs");
    LookupSame(v, w, "repo_url");
    LookupSame(v, w, "description");
    LookupSame(v, w, "visibility");
  }

  lemma DocumentSeen(v: Json, d: VersionDoc)
    requires Same(v, DocumentValue(d))
    ensures DocumentOf(v) == Record(Unmarked, if d.facts.Some? then FactsSeen(d.facts.value) else NoField)
  {
    var w := DocumentValue(d);
    DocumentHas(d, "visibility");
    DocumentHas(d, "package");
    LookupSame(v, w, "visibility");
    LookupSame(v, w, "package");
    if d.facts.Some? { PackageSeen(Lookup(v, "package").value, d.facts.value); }
  }

  /** The listing whose newest document is `d`. */
  function ListingOf(org: string, name: string, versions: seq<string>, d: VersionDoc): PackageMetadata
    requires versions != []
  {
    var facts := if d.facts.Some? then d.facts.value else PackageFacts([], Utf16("git"), None);
    PackageMetadata(org, name, facts.vcs, facts.repoUrl, versions[0], versions, facts.description)
  }

  // ----- when it answers -----

  /**
   * A listing whose newest document is one that a publish built answers
   * exactly when that document is at most 1 MiB, and then with the facts of
   * that document. An oversized one hides every older version.
   */
  lemma ListingReadsNewest(parse: Parse, store: Store, org: string, name: string, objects: seq<Entry>, d: VersionDoc)
    requires Undoes(parse, DocumentValue(d)) && AllJson(d.mirrors) && AllJson(d.signatures)
    requires Published(objects) != []
    requires var key := Published(objects)[0].key; key in store && store[key] == DocObject(d, Public)
    ensures var versions := VersionsOf(VersionPrefixKey(org, name), Published(objects));
            Derive(org, name, objects, ReadsFrom(parse, store)) ==
            if |DocumentBytes(d)| <= MAX_META then Found(ListingOf(org, name, versions, d)) else Absent
  {
    var key := Published(objects)[0].key;
    DocumentReadsBack(parse, store, key, d);
    var read := StoredRead(parse, store, key);
    if read.Found? { DocumentSeen(read.value, d); }
  }

  /**
   * Over every run from a bucket without documents: a listing that reads what
   * the run stored answers exactly when the newest document, which some
   * publish built, is at most 1 MiB.
   */
  lemma ListingOfPublished(parse: Parse, w: World, store: Store, events: seq<Event>,
                           org: string, name: string, objects: seq<Entry>) returns (id: nat)
    requires ValidWorld(w) && forall p: nat :: ParsedForm(w.jobs(p).req)
    requires forall p: nat :: PlanOf(w, p).Write? ==> Undoes(parse, DocumentValue(PlanOf(w, p).doc))
    requires Published(objects) != []
    requires var key := Published(objects)[0].key;
             && PublishSafety.DocumentKey(key) && key !in store
             && key in Exec(w, Start(store), events).store
    ensures PlanOf(w, id).Write? && PlanOf(w, id).versionKey == Published(objects)[0].key
    ensures var versions := VersionsOf(VersionPrefixKey(org, name), Published(objects));
            Derive(org, name, objects, ReadsFrom(parse, Exec(w, Start(store), events).store)) ==
            if |DocumentBytes(PlanOf(w, id).doc)| <= MAX_META
            then Found(ListingOf(org, name, versions, PlanOf(w, id).doc)) else Absent
  {
    id := PublishSafety.NewDocumentsAreClaimed(w, store, events, Published(objects)[0].key);
    PlanIsJson(w, id);
    ListingReadsNewest(parse, Exec(w, Start(store), events).store, org, name, objects, PlanOf(w, id).doc);
  }
}
