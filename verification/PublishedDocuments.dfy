/**
 * Reading a published version document back: the JSON text that is stored, the
 * readers' gates on its size and its content, and when it is found again.
 *
 * `JSON.parse` is a parameter. All that is assumed of it is that it undoes
 * `JSON.stringify` for the documents at hand, up to the order of properties;
 * `JsonText.StringifyInjective` shows that this asks nothing impossible.
 */
module PublishedDocuments {
  import opened Common
  import opened Utf8
  import opened JsonText
  import opened PublishMeta
  import opened MetadataReader
  import CanonicalJson
  import EdgePublish
  import JsonReading
  import PublishSafety

  /** The parser undoes the printer for this value. */
  predicate Undoes(parse: Parse, v: Json) {
    var parsed := parse(ToScalars(Stringify(v)));
    parsed.Some? && Same(parsed.value, v)
  }

  /** The reader of JSON texts in `JsonReading` is such a parser, for every value. */
  lemma ReaderUndoes(v: Json)
    requires IsJson(v)
    ensures Undoes((cs: seq<Scalar>) => JsonReading.Read(cs), v)
  {
    JsonReading.ReadPrinted(v);
    CanonicalJson.CanonicalExactly(v, v);
  }

  // ----- the gate on the content -----

  lemma RequiredLack(d: VersionDoc, key: string)
    requires key in {"visibility", "package", "mirrors", "signatures", "vcs_commit"}
    ensures Field(RequiredFields(d), key).None?
  {
    var fields := RequiredFields(d);
    assert fields[1..][1..][1..][1..][1..][1..][1..][1..][1..][1..] == [];
    FieldAbsent(fields, key);
  }

  lemma {:induction false} FieldAbsent(fields: Properties, key: string)
    ensures Field(fields, key).None? <==> forall i | 0 <= i < |fields| :: fields[i].0 != key
  {
    if fields != [] {
      FieldAbsent(fields[1..], key);
      if fields[0].0 != key && Field(fields, key).None? {
        forall i | 0 <= i < |fields| ensures fields[i].0 != key {
          if i > 0 { assert fields[1..][i - 1].0 != key; }
        }
      }
    }
  }

  lemma {:induction false} FieldConcat(a: Properties, b: Properties, key: string)
    ensures Field(a + b, key) == if Field(a, key).Some? then Field(a, key) else Field(b, key)
  {
    if a == [] {
      assert a + b == b;
    } else {
      assert (a + b)[1..] == a[1..] + b;
      FieldConcat(a[1..], b, key);
    }
  }

  /** A field that is there under a condition. */
  function If(present: bool, key: string, value: Json): Properties { if present then [(key, value)] else [] }

  lemma IfField(present: bool, name: string, value: Json, key: string)
    ensures Field(If(present, name, value), key) == if present && name == key then Some(value) else None
  {
    if present { assert [(name, value)][1..] == []; }
  }

  lemma OptionalField(d: VersionDoc, key: string)
    ensures Field(OptionalFields(d), key) ==
            if key == "vcs_commit" && d.vcsCommit.Some? then Some(String(d.vcsCommit.value))
            else if key == "package" && d.facts.Some? then Some(FactsValue(d.facts.value))
            else if key == "mirrors" && d.mirrors != [] then Some(List(d.mirrors))
            else if key == "signatures" && d.signatures != [] then Some(List(d.signatures))
            else None
  {
    var commit := String(if d.vcsCommit.Some? then d.vcsCommit.value else []);
    var facts := if d.facts.Some? then FactsValue(d.facts.value) else Null;
    var a, b := If(d.vcsCommit.Some?, "vcs_commit", commit), If(d.facts.Some?, "package", facts);
    var m, s := If(d.mirrors != [], "mirrors", List(d.mirrors)), If(d.signatures != [], "signatures", List(d.signatures));
    assert OptionalFields(d) == a + b + m + s;
    FieldConcat(a + b + m, s, key);
    FieldConcat(a + b, m, key);
    FieldConcat(a, b, key);
    IfField(d.vcsCommit.Some?, "vcs_commit", commit, key);
    IfField(d.facts.Some?, "package", facts, key);
    IfField(d.mirrors != [], "mirrors", List(d.mirrors), key);
    IfField(d.signatures != [], "signatures", List(d.signatures), key);
  }

  /** What the gates look at in a document. */
  lemma DocumentHas(d: VersionDoc, key: string)
    requires key in {"visibility", "package"}
    ensures Lookup(DocumentValue(d), key) ==
            if key == "package" && d.facts.Some? then Some(FactsValue(d.facts.value)) else None
  {
    LookupField(DocumentFields(d), key);
    FieldConcat(RequiredFields(d), OptionalFields(d), key);
    RequiredLack(d, key);
    OptionalField(d, key);
  }

  lemma FactsField(facts: PackageFacts, key: string)
    requires key in {"vcs", "repo_url", "description", "visibility"}
    ensures Lookup(FactsValue(facts), key) ==
            if key == "vcs" then Some(String(facts.vcs))
            else if key == "repo_url" then Some(String(facts.repoUrl))
            else if key == "description" && facts.description.Some? then Some(String(facts.description.value))
            else None
  {
    var description := String(if facts.description.Some? then facts.description.value else []);
    var a := [("repo_url", String(facts.repoUrl)), ("vcs", String(facts.vcs))];
    var b := If(facts.description.Some?, "description", description);
    LookupField(a + b, key);
    FieldConcat(a, b, key);
    IfField(facts.description.Some?, "description", description, key);
    assert a[1..] == [("vcs", String(facts.vcs))] && a[1..][1..] == [];
    assert Field(a[1..], key) == if key == "vcs" then Some(String(facts.vcs)) else None;
    assert FactsValue(facts) == Object(Members(a + b));
  }

  lemma FactsUnmarked(facts: PackageFacts)
    ensures Lookup(FactsValue(facts), "visibility").None?
  {
    FactsField(facts, "visibility");
  }

  /** The gate on the content never rejects a document that a publish built. */
  lemma ContentGateAdmits(d: VersionDoc, v: Json)
    requires Same(v, DocumentValue(d))
    ensures Admit(v) == Found(v)
  {
    var doc := DocumentValue(d);
    DocumentHas(d, "visibility");
    DocumentHas(d, "package");
    LookupSame(v, doc, "visibility");
    LookupSame(v, doc, "package");
    if d.facts.Some? {
      FactsUnmarked(d.facts.value);
      LookupSame(Lookup(v, "package").value, FactsValue(d.facts.value), "visibility");
    }
  }

  // ----- reading stored objects -----

  function BytesOf(stored: EdgePublish.Object): seq<Byte> {
    match stored
    case ArtifactObject(bytes, _) => bytes
    case DocObject(doc, _) => DocumentBytes(doc)
  }

  /** What a reader finds under a key, whatever the chunks. */
  function StoredRead(parse: Parse, store: EdgePublish.Store, key: string): Read<Json> {
    if key !in store then Absent
    else if !PermitsPublic(store[key].marker) then NonPublic
    else
      var bytes := BytesOf(store[key]);
      Interpret(parse, if |bytes| <= EdgePublish.MAX_META then Decode(bytes) else None)
  }

  /** R2 delivers the object: all its bytes, in some chunks. */
  predicate Delivers(entry: R2Object, stored: EdgePublish.Object) {
    && entry.marker == stored.marker && entry.body.Some? && !entry.body.value.fails
    && Flatten(entry.body.value.chunks) == BytesOf(stored) && entry.size == |BytesOf(stored)|
  }

  /** A delivered object is read as its bytes say, for every chunking. */
  lemma DeliveredRead(parse: Parse, store: EdgePublish.Store, key: string, entry: R2Object)
    requires key in store && Delivers(entry, store[key])
    ensures ReadResult(parse, Some(entry)) == StoredRead(parse, store, key)
  {
  }

  lemma DocumentDecodes(d: VersionDoc)
    requires AllJson(d.mirrors) && AllJson(d.signatures)
    ensures Decode(DocumentBytes(d)) == Some(ToScalars(DocumentText(d)))
  {
    var text := DocumentText(d);
    assert text[0] == 123;
    var cs := ToScalars(text);
    assert cs[0] == 123;
    DecodeExactly(Encode(cs), cs);
    assert StripBom(cs) == cs;
  }

  /**
   * A stored document that a publish built is found again exactly when its
   * UTF-8 form is at most 1 MiB, and then it is the document that was built,
   * up to the order of properties; otherwise it reads as absent.
   */
  lemma DocumentReadsBack(parse: Parse, store: EdgePublish.Store, key: string, d: VersionDoc)
    requires Undoes(parse, DocumentValue(d)) && AllJson(d.mirrors) && AllJson(d.signatures)
    requires key in store && store[key] == EdgePublish.DocObject(d, Public)
    ensures StoredRead(parse, store, key).Found? <==> |DocumentBytes(d)| <= EdgePublish.MAX_META
    ensures StoredRead(parse, store, key).Found? ==> Same(StoredRead(parse, store, key).value, DocumentValue(d))
    ensures !StoredRead(parse, store, key).Found? ==> StoredRead(parse, store, key) == Absent
  {
    DocumentDecodes(d);
    DocumentIsJson(d);
    assert Stringify(DocumentValue(d)) == DocumentText(d);
    ContentGateAdmits(d, parse(ToScalars(DocumentText(d))).value);
  }

  // ----- over every run -----

  /** `JSON.parse` yields JSON values. */
  predicate ParsedForm(req: EdgePublish.Request) {
    req.form.Some? ==>
      forall i | 0 <= i < |req.form.value| && req.form.value[i].1.TextPart? && req.form.value[i].1.json.Some? ::
        IsJson(req.form.value[i].1.json.value)
  }

  lemma {:induction false} NamedIn(form: seq<(string, EdgePublish.Part)>, name: string, p: EdgePublish.Part)
    requires p in EdgePublish.Named(form, name)
    ensures exists i :: 0 <= i < |form| && form[i].1 == p
  {
    if form[0].1 == p {
      assert form[0].1 == p;
    } else {
      NamedIn(form[1..], name, p);
      var i :| 0 <= i < |form[1..]| && form[1..][i].1 == p;
      assert form[i + 1].1 == p;
    }
  }

  lemma InsideIsJson(v: Json, key: string)
    requires IsJson(v)
    ensures Lookup(v, key).Some? ==> IsJson(Lookup(v, key).value)
  {
    if v.Object? { FindIn(v.members, Utf16(key)); }
  }

  lemma MetaIsJson(v: Json)
    requires IsJson(v) && MetaOf(v).Meta?
    ensures AllJson(MetaOf(v).mirrors) && AllJson(MetaOf(v).signatures)
  {
    InsideIsJson(v, "mirrors");
    InsideIsJson(v, "signatures");
  }

  lemma PlanIsJson(w: EdgePublish.World, id: nat)
    requires EdgePublish.ValidWorld(w) && EdgePublish.PlanOf(w, id).Write? && ParsedForm(w.jobs(id).req)
    ensures var d := EdgePublish.PlanOf(w, id).doc; AllJson(d.mirrors) && AllJson(d.signatures)
  {
    var form := w.jobs(id).req.form.value;
    var meta := EdgePublish.PlanSource(w, id);
    var part := EdgePublish.Named(form, "meta")[0];
    NamedIn(form, "meta", part);
    MetaIsJson(part.json.value);
  }

  /**
   * A publish answered 201 is found by every later reader, whatever other
   * publishers do, exactly when its document is at most 1 MiB. Past that the
   * version reads as absent for ever.
   */
  lemma PublishedIsRead(parse: Parse, w: EdgePublish.World, store: EdgePublish.Store,
                        events: seq<EdgePublish.Event>, more: seq<EdgePublish.Event>, id: nat)
    requires EdgePublish.ValidWorld(w) && ParsedForm(w.jobs(id).req)
    requires EdgePublish.PlanOf(w, id).Write? ==> Undoes(parse, DocumentValue(EdgePublish.PlanOf(w, id).doc))
    requires EdgePublish.PhaseOf(EdgePublish.Exec(w, EdgePublish.Start(store), events), id) == EdgePublish.Answered(201)
    ensures var plan := EdgePublish.PlanOf(w, id);
            var later := EdgePublish.Exec(w, EdgePublish.Exec(w, EdgePublish.Start(store), events), more).store;
            && plan.Write?
            && var read := StoredRead(parse, later, plan.versionKey);
               if |DocumentBytes(plan.doc)| <= EdgePublish.MAX_META
               then read.Found? && Same(read.value, DocumentValue(plan.doc))
               else read == Absent
  {
    var s := EdgePublish.Exec(w, EdgePublish.Start(store), events);
    PublishSafety.AtMostOnePublishWins(w, store, events, id, id);
    var plan := EdgePublish.PlanOf(w, id);
    PublishSafety.WriteKeys(w, id);
    PublishSafety.DocumentsAreImmutable(w, s, more, plan.versionKey);
    PlanIsJson(w, id);
    DocumentReadsBack(parse, EdgePublish.Exec(w, s, more).store, plan.versionKey, plan.doc);
  }
}
