/**
 * Concrete publishes that are accepted and can not be used: a document that is
 * too long to be read back, and an artifact key that nobody can read.
 */
module PublishExamples {
  import opened Common
  import opened Utf8
  import opened JsonText
  import opened PublishMeta
  import opened Routes
  import opened EdgePublish
  import opened MetadataReader
  import PublishReadable
  import PublishedDocuments
  import Text

  // ----- lengths of printed values -----

  function Repeat(v: Json, n: nat): seq<Json> { if n == 0 then [] else [v] + Repeat(v, n - 1) }

  function Size(parts: seq<Units>): nat { if parts == [] then 0 else |parts[0]| + Size(parts[1..]) }

  lemma {:induction false} JoinSize(parts: seq<Units>)
    requires parts != []
    ensures |Text.Join(parts, [COMMA])| == Size(parts) + |parts| - 1
  {
    if |parts| > 1 { JoinSize(parts[1..]); }
  }

  lemma {:induction false} RepeatSize(v: Json, n: nat)
    ensures |Repeat(v, n)| == n && Size(PrintItems(Repeat(v, n))) == n * |Stringify(v)|
    ensures IsJson(v) ==> AllJson(Repeat(v, n))
  {
    if n > 0 {
      RepeatSize(v, n - 1);
      var items := Repeat(v, n);
      assert items[1..] == Repeat(v, n - 1);
      assert PrintItems(items)[1..] == PrintItems(items[1..]);
      assert n * |Stringify(v)| == |Stringify(v)| + (n - 1) * |Stringify(v)|;
    }
  }

  lemma ListSize(v: Json, n: nat)
    requires n > 0
    ensures |Stringify(List(Repeat(v, n)))| == n * |Stringify(v)| + n + 1
  {
    RepeatSize(v, n);
    JoinSize(PrintItems(Repeat(v, n)));
  }

  /** The printed properties, each with what separates it from the next. */
  function FieldsSize(fields: Properties): nat {
    if fields == [] then 0
    else |Quote(Utf16(fields[0].0))| + |Stringify(fields[0].1)| + 2 + FieldsSize(fields[1..])
  }

  lemma {:induction false} MembersSize(fields: Properties)
    ensures Size(PrintMembers(Members(fields))) + |fields| == FieldsSize(fields)
  {
    if fields != [] {
      MembersSize(fields[1..]);
      assert Members(fields)[1..] == Members(fields[1..]);
      var parts := PrintMembers(Members(fields));
      assert parts[1..] == PrintMembers(Members(fields[1..]));
    }
  }

  lemma ObjectSize(fields: Properties)
    requires fields != []
    ensures |Stringify(Object(Members(fields)))| == FieldsSize(fields) + 1
  {
    MembersSize(fields);
    JoinSize(PrintMembers(Members(fields)));
  }

  lemma {:induction false} FieldFits(fields: Properties, i: nat)
    requires i < |fields|
    ensures |Stringify(fields[i].1)| <= FieldsSize(fields)
  {
    if i > 0 { FieldFits(fields[1..], i - 1); }
  }

  lemma {:induction false} QuoteSize(s: Units)
    ensures |Quote(s)| <= 6 * |s| + 2
  {
    EscapeSize(s);
  }

  lemma {:induction false} EscapeSize(s: Units)
    ensures |Escape(s)| <= 6 * |s|
  {
    if s == [] {
    } else if StartsWithPair(s) {
      EscapeSize(s[2..]);
    } else {
      EscapeSize(s[1..]);
    }
  }

  lemma {:induction false} FromScalarsSize(cs: seq<Scalar>)
    ensures |cs| <= |FromScalars(cs)| <= 2 * |cs|
  {
    if cs != [] { FromScalarsSize(cs[1..]); }
  }

  lemma TextSize(s: string)
    ensures |Stringify(String(Utf16(s)))| <= 12 * |s| + 2
  {
    FromScalarsSize(seq(|s|, i requires 0 <= i < |s| => s[i] as int));
    QuoteSize(Utf16(s));
  }

  /** UTF-8 takes one to three bytes for every UTF-16 code unit. */
  lemma {:induction false} Utf8Size(u: Units)
    ensures |u| <= |Utf8Bytes(u)| <= 3 * |u|
  {
    if u != [] {
      var n := if StartsWithPair(u) then 2 else 1;
      var cs, rest := ToScalars(u), ToScalars(u[n..]);
      assert cs == [cs[0]] + rest;
      EncodeConcat([cs[0]], rest);
      EncodeSnoc([], cs[0]);
      assert [] + [cs[0]] == [cs[0]];
      Utf8Size(u[n..]);
    }
  }

  // ----- a meta part -----

  function Package(): Json {
    Object(Members([("org", String(Utf16("a"))), ("name", String(Utf16("a"))), ("version", String(Utf16("1")))]))
  }

  function Manifest(): Json { Object(Members([("package", Package())])) }

  /** The meta part of a one-byte artifact of package `a/a`, version 1, with one more field. */
  function MetaFields(digest: string, extra: (string, Json)): Properties {
    [("manifest", Manifest()), ("sha256", String(Utf16(digest))), ("size", Number([49])),
     ("vcs_tag", String(Utf16("v"))), extra]
  }

  function MetaValue(digest: string, extra: (string, Json)): Json { Object(Members(MetaFields(digest, extra))) }

  predicate ExtraName(name: string) { name in {"format", "signatures"} }

  lemma PackageFields()
    ensures var p := Package();
            && TextOf(Lookup(p, "org")) == Some(Utf16("a")) && TextOf(Lookup(p, "name")) == Some(Utf16("a"))
            && TextOf(Lookup(p, "version")) == Some(Utf16("1"))
            && Lookup(p, "visibility").None? && Lookup(p, "repository").None? && IsJson(p)
  {
    var fields := [("org", String(Utf16("a"))), ("name", String(Utf16("a"))), ("version", String(Utf16("1")))];
    assert fields[0].0 == "org" && fields[1].0 == "name" && fields[2].0 == "version";
    assert DistinctNames(fields);
    MembersDistinct(fields);
    FieldAt(fields, 0);
    FieldAt(fields, 1);
    FieldAt(fields, 2);
    PublishedDocuments.FieldAbsent(fields, "visibility");
    PublishedDocuments.FieldAbsent(fields, "repository");
    LookupField(fields, "org");
    LookupField(fields, "name");
    LookupField(fields, "version");
    LookupField(fields, "visibility");
    LookupField(fields, "repository");
  }

  lemma ManifestFields()
    ensures Lookup(Manifest(), "package") == Some(Package()) && IsJson(Manifest())
  {
    var fields := [("package", Package())];
    assert DistinctNames(fields) && fields[0].0 == "package";
    PackageFields();
    MembersDistinct(fields);
    FieldAt(fields, 0);
    LookupField(fields, "package");
  }

  lemma MetaNames(digest: string, extra: (string, Json))
    requires ExtraName(extra.0)
    ensures DistinctNames(MetaFields(digest, extra))
    ensures forall i | 0 <= i < 5 :: MetaFields(digest, extra)[i].0 == ["manifest", "sha256", "size", "vcs_tag", extra.0][i]
  {
  }

  lemma MetaHas(digest: string, extra: (string, Json), key: string)
    requires ExtraName(extra.0)
    ensures Lookup(MetaValue(digest, extra), key) ==
            if key == "manifest" then Some(Manifest())
            else if key == "sha256" then Some(String(Utf16(digest)))
            else if key == "size" then Some(Number([49]))
            else if key == "vcs_tag" then Some(String(Utf16("v")))
            else if key == extra.0 then Some(extra.1)
            else None
  {
    var fields := MetaFields(digest, extra);
    MetaNames(digest, extra);
    LookupField(fields, key);
    if key in ["manifest", "sha256", "size", "vcs_tag", extra.0] {
      var i :| 0 <= i < 5 && ["manifest", "sha256", "size", "vcs_tag", extra.0][i] == key;
      FieldAt(fields, i);
    } else {
      PublishedDocuments.FieldAbsent(fields, key);
    }
  }

  lemma MetaJson(digest: string, extra: (string, Json))
    requires ExtraName(extra.0) && IsJson(extra.1)
    ensures IsJson(MetaValue(digest, extra))
  {
    MetaNames(digest, extra);
    MembersDistinct(MetaFields(digest, extra));
    ManifestFields();
    var fields := MetaFields(digest, extra);
    forall i | 0 <= i < 5 ensures IsJson(fields[i].1) {
    }
  }

  lemma DigestIsAscii(digest: string)
    requires IsSha256(digest)
    ensures AsciiOf(Some(String(Utf16(digest)))) == Some(digest)
  {
    AsciiExactly(Some(String(Utf16(digest))), digest);
  }

  /** How the publish reads it. */
  lemma MetaRead(digest: string, extra: (string, Json))
    requires ExtraName(extra.0) && IsSha256(digest)
    ensures MetaOf(MetaValue(digest, extra)) ==
            Meta(Some(Utf16("a")), Some(Utf16("a")), Some(Utf16("1")), Unmarked, Unmarked, Some(digest), Some(1), Some(Utf16("v")),
                 FormatOf(if extra.0 == "format" then Some(extra.1) else None), None, None, None, [],
                 ItemsOf(if extra.0 == "signatures" then Some(extra.1) else None))
  {
    MetaHas(digest, extra, "manifest");
    MetaHas(digest, extra, "visibility");
    MetaHas(digest, extra, "sha256");
    MetaHas(digest, extra, "size");
    MetaHas(digest, extra, "vcs_tag");
    MetaHas(digest, extra, "format");
    MetaHas(digest, extra, "published_at");
    MetaHas(digest, extra, "vcs_commit");
    MetaHas(digest, extra, "mirrors");
    MetaHas(digest, extra, "signatures");
    ManifestFields();
    PackageFields();
    DigestIsAscii(digest);
    OneIsOne();
  }

  lemma OneIsOne()
    ensures IntegerOf(Some(Number([49]))) == Some(1)
  {
    assert [49][..0] == [];
    assert DecimalOf([49]) == 1;
  }

  // ----- accepted publishes -----

  const ROUTE := PublishRoute("a", "a", "1")

  /** A publish of the one-byte artifact, with the length of its body declared. */
  function Upload(raw: Units, meta: Json): Request {
    Request(true, Some("1000000"), true, [1000000], Some([("meta", TextPart(raw, Some(meta))), ("artifact", FilePart([0]))]))
  }

  lemma DeclaredMillion()
    ensures DeclaredLength(Some("1000000")) == Some(1000000) && Sum([1000000]) == 1000000
  {
    assert "1"[..0] == "";
    TimesTen("1");
    TimesTen("10");
    TimesTen("100");
    TimesTen("1000");
    TimesTen("10000");
    TimesTen("100000");
    assert "100000" + "0" == "1000000" && "10000" + "0" == "100000" && "1000" + "0" == "10000";
    assert "100" + "0" == "1000" && "10" + "0" == "100" && "1" + "0" == "10";
    assert [1000000][..0] == [];
  }

  lemma TimesTen(s: string)
    requires forall i | 0 <= i < |s| :: '0' <= s[i] <= '9'
    ensures HeaderNumber(s + "0") == 10 * HeaderNumber(s)
  {
    assert (s + "0")[..|s|] == s;
  }

  lemma FormParts(raw: Units, meta: Json)
    ensures var form := Upload(raw, meta).form.value;
            Named(form, "meta") == [TextPart(raw, Some(meta))] && Named(form, "artifact") == [FilePart([0])]
  {
    NamedTwo("meta", "artifact", TextPart(raw, Some(meta)), FilePart([0]));
  }

  lemma NamedTwo(a: string, b: string, x: Part, y: Part)
    requires a != b
    ensures Named([(a, x), (b, y)], a) == [x] && Named([(a, x), (b, y)], b) == [y]
  {
    var form := [(a, x), (b, y)];
    assert form[1..] == [(b, y)] && form[1..][1..] == [];
    assert Named(form[1..], a) == [] && Named(form[1..], b) == [y];
  }

  lemma RouteKey()
    ensures VersionMetadataKey("a", "a", "1") == Some("metadata/a/a/versions/1.json")
  {
    assert "1"[0] == '1' && "a"[0] == 'a';
    assert VersionPrefixKey("a", "a") + "1" + ".json" == "metadata/a/a/versions/1.json";
  }

  /** The plan of such a publish, when its meta part is read as `meta`. */
  lemma UploadPlan(hash: Digest, cfg: Config, raw: Units, value: Json, meta: Meta)
    requires IsDigest(hash) && cfg.enabled && |Utf8Bytes(raw)| <= MAX_META
    requires MetaOf(value) == meta
    requires meta.Meta? && meta.org == Some(Utf16("a")) && meta.name == Some(Utf16("a"))
    requires meta.version == Some(Utf16("1"))
    requires meta.visibility == Unmarked && meta.packageVisibility == Unmarked
    requires meta.sha256 == Some(hash([0])) && meta.size == Some(1)
    requires meta.vcsTag.Some? && meta.vcsTag.value != [] && ArtifactExtension(meta.format).Some?
    ensures PlanPublish(hash, cfg, Upload(raw, value), ROUTE) ==
            Write("artifacts/" + hash([0]) + "." + ArtifactExtension(meta.format).value, [0],
                  "metadata/a/a/versions/1.json", BuildVersionMetadata(cfg, ROUTE, meta, hash([0]), 1))
  {
    DeclaredMillion();
    FormParts(raw, value);
    RouteKey();
    assert PlanForm(hash, cfg, Upload(raw, value).form.value, ROUTE) == PlanArtifact(hash, cfg, meta, [0], ROUTE);
    assert PlanPublish(hash, cfg, Upload(raw, value), ROUTE) == PlanForm(hash, cfg, Upload(raw, value).form.value, ROUTE);
  }

  // ----- a document that outgrows its reader -----

  /** `1e20` as the client writes it. */
  const SHORT: Units := [49, 101, 50, 48]

  /** `1e20` as `JSON.stringify` writes it: a one and twenty zeros. */
  function Long(): Units { [49] + seq(20, _ => 48) }

  function Signatures(numeral: Units, count: nat): (string, Json) {
    ("signatures", List(Repeat(Number(numeral), count)))
  }

  lemma ShortMeta(digest: string, count: nat)
    requires |digest| == 64 && 0 < count <= 65_000
    ensures |Utf8Bytes(Stringify(MetaValue(digest, Signatures(SHORT, count))))| <= MAX_META
  {
    ListSize(Number(SHORT), count);
    NameSize("signatures");
    MetaSize(digest, Signatures(SHORT, count), 5 * count + 1);
  }

  /** A meta part is little more than its extra field. */
  lemma MetaSize(digest: string, extra: (string, Json), size: nat)
    requires |digest| == 64 && |Stringify(extra.1)| == size && |extra.0| <= 10
    ensures |Utf8Bytes(Stringify(MetaValue(digest, extra)))| <= 3 * size + 10_000
  {
    var fields := MetaFields(digest, extra);
    ObjectSize(fields);
    FiveFields(fields);
    MetaFieldSizes(digest);
    NameSize(extra.0);
    Utf8Size(Stringify(MetaValue(digest, extra)));
  }

  lemma MetaFieldSizes(digest: string)
    requires |digest| == 64
    ensures FieldSize(("manifest", Manifest())) <= 1200 && FieldSize(("sha256", String(Utf16(digest)))) <= 1000
    ensures FieldSize(("size", Number([49]))) <= 100 && FieldSize(("vcs_tag", String(Utf16("v")))) <= 200
  {
    ManifestSize();
    TextSize(digest);
    TextSize("v");
    NameSize("manifest");
    NameSize("sha256");
    NameSize("size");
    NameSize("vcs_tag");
  }

  lemma NameSize(s: string)
    ensures |Quote(Utf16(s))| <= 12 * |s| + 2
  {
    TextSize(s);
  }

  lemma FiveFields(fields: Properties)
    requires |fields| == 5
    ensures FieldsSize(fields) == FieldSize(fields[0]) + FieldSize(fields[1]) + FieldSize(fields[2])
                                  + FieldSize(fields[3]) + FieldSize(fields[4])
  {
    assert fields[1..][0] == fields[1] && fields[1..][1..] == fields[2..] && fields[2..][1..] == fields[3..];
    assert fields[3..][1..] == fields[4..] && fields[4..][1..] == [];
    assert FieldsSize(fields[4..]) == FieldSize(fields[4]);
    assert FieldsSize(fields[3..]) == FieldSize(fields[3]) + FieldsSize(fields[4..]);
    assert FieldsSize(fields[2..]) == FieldSize(fields[2]) + FieldsSize(fields[3..]);
    assert FieldsSize(fields[1..]) == FieldSize(fields[1]) + FieldsSize(fields[2..]);
  }

  function FieldSize(field: (string, Json)): nat { |Quote(Utf16(field.0))| + |Stringify(field.1)| + 2 }

  lemma ManifestSize()
    ensures |Stringify(Manifest())| <= 1000
  {
    var fields := [("org", String(Utf16("a"))), ("name", String(Utf16("a"))), ("version", String(Utf16("1")))];
    ObjectSize(fields);
    NameSize("org");
    NameSize("name");
    NameSize("version");
    TextSize("a");
    TextSize("1");
    assert fields[1..][1..][1..] == [];
    assert FieldsSize(fields) == FieldSize(fields[0]) + FieldSize(fields[1]) + FieldSize(fields[2]);
    var outer := [("package", Package())];
    ObjectSize(outer);
    NameSize("package");
    assert outer[1..] == [];
  }

  lemma LongIsNumeral()
    ensures Numeral(Long()) && |Long()| == 21
  {
  }

  lemma LongSignatures(count: nat)
    requires count > 0
    ensures IsJson(Signatures(Long(), count).1) && |Stringify(Signatures(Long(), count).1)| == 22 * count + 1
    ensures |Repeat(Number(Long()), count)| == count
  {
    LongIsNumeral();
    ListSize(Number(Long()), count);
    RepeatSize(Number(Long()), count);
  }

  /** A document is at least as long as its signatures. */
  lemma DocumentOutgrows(d: VersionDoc)
    requires d.signatures != []
    ensures |DocumentBytes(d)| > |Stringify(List(d.signatures))|
  {
    var fields := DocumentFields(d);
    assert fields[|fields| - 1] == ("signatures", List(d.signatures));
    ObjectSize(fields);
    FieldFits(fields, |fields| - 1);
    Utf8Size(DocumentText(d));
  }

  /**
   * A publish can store a document that is never read. Its meta part fits into
   * 1 MiB as it was sent, with every signature the number `1e20`; parsed, these
   * are numbers that print with 21 digits, and so the document prints them. The
   * publish is answered 201, a second attempt 409, and every reader finds
   * nothing, however it parses.
   */
  lemma OversizedPublish(parse: Parse, hash: Digest, cfg: Config, count: nat)
    requires IsDigest(hash) && cfg.enabled && 50_000 <= count <= 65_000
    ensures var value := MetaValue(hash([0]), Signatures(Long(), count));
            var raw := Stringify(MetaValue(hash([0]), Signatures(SHORT, count)));
            var plan := PlanPublish(hash, cfg, Upload(raw, value), ROUTE);
            && IsJson(value) && |Utf8Bytes(raw)| <= MAX_META
            && plan.Write? && |DocumentBytes(plan.doc)| > MAX_META
            && var (store, answer) := Alone(plan, map[]);
               && answer == Answered(201) && Alone(plan, store).1 == Answered(409)
               && PublishedDocuments.StoredRead(parse, store, plan.versionKey) == Absent
  {
    var digest := hash([0]);
    var extra := Signatures(Long(), count);
    var value, raw := MetaValue(digest, extra), Stringify(MetaValue(digest, Signatures(SHORT, count)));
    assert IsSha256(digest);
    ShortMeta(digest, count);
    LongSignatures(count);
    MetaJson(digest, extra);
    MetaRead(digest, extra);
    var meta := MetaOf(value);
    UploadPlan(hash, cfg, raw, value, meta);
    var plan := PlanPublish(hash, cfg, Upload(raw, value), ROUTE);
    assert plan.doc.signatures == Repeat(Number(Long()), count);
    DocumentOutgrows(plan.doc);
    NeverRead(parse, plan);
  }

  lemma NeverRead(parse: Parse, plan: Plan)
    requires plan.Write? && plan.versionKey != plan.objectKey
    requires |DocumentBytes(plan.doc)| > MAX_META
    ensures var (store, answer) := Alone(plan, map[]);
            && answer == Answered(201) && Alone(plan, store).1 == Answered(409)
            && PublishedDocuments.StoredRead(parse, store, plan.versionKey) == Absent
  {
    var (store, answer) := Alone(plan, map[]);
    AloneAnswers(plan, map[]);
    AloneAnswers(plan, store);
  }

  // ----- an artifact that nobody can read -----

  /** The upload of an artifact with a declared format. */
  function FormatUpload(digest: string, format: string): Request {
    var value := MetaValue(digest, ("format", String(Utf16(format))));
    Upload(Stringify(value), value)
  }

  /**
   * A publish that declares a format which is a name of the prototype, in
   * whatever case, is accepted and answered 201, and its artifact is stored
   * under a key the CDN refuses. `constructor` is such a format.
   */
  lemma InheritedPublish(hash: Digest, cfg: Config, format: string)
    requires IsDigest(hash) && cfg.enabled && Inherited(FormatText(format))
    ensures Inherited(FormatText("constructor"))
    ensures PublishedDocuments.ParsedForm(FormatUpload(hash([0]), format))
    ensures var plan := PlanPublish(hash, cfg, FormatUpload(hash([0]), format), ROUTE);
            && plan.Write? && Alone(plan, map[]).1 == Answered(201)
            && plan.objectKey in Alone(plan, map[]).0 && CdnReads("/" + plan.objectKey).None?
  {
    assert Text.Lower("constructor") == "constructor";
    var text := String(Utf16(format));
    assert IsSha256(hash([0]));
    InheritedAscii(format);
    AsciiExactly(Some(String(Utf16(format))), format);
    TextSize(format);
    MetaSize(hash([0]), ("format", text), |Stringify(text)|);
    FormatPublish(hash, cfg, text, FormatText(format));
    StoredUnread(hash([0]), format, PlanPublish(hash, cfg, FormatUpload(hash([0]), format), ROUTE));
    UploadParsed(Stringify(MetaValue(hash([0]), ("format", text))), MetaValue(hash([0]), ("format", text)));
  }

  lemma UploadParsed(raw: Units, value: Json)
    requires IsJson(value)
    ensures PublishedDocuments.ParsedForm(Upload(raw, value))
  {
  }

  lemma StoredUnread(digest: string, format: string, plan: Plan)
    requires IsSha256(digest) && Inherited(FormatText(format)) && ArtifactExtension(FormatText(format)).Some?
    requires plan.Write? && plan.versionKey == "metadata/a/a/versions/1.json"
    requires plan.objectKey == "artifacts/" + digest + "." + ArtifactExtension(FormatText(format)).value
    ensures Alone(plan, map[]).1 == Answered(201) && plan.objectKey in Alone(plan, map[]).0
    ensures CdnReads("/" + plan.objectKey).None?
  {
    PublishReadable.FormatIsReadable(digest, FormatText(format), plan.objectKey);
    assert plan.objectKey[0] == 'a' && plan.versionKey[0] == 'm';
    AloneAnswers(plan, map[]);
  }

  lemma InheritedAscii(format: string)
    requires Inherited(FormatText(format))
    ensures |format| <= 11 && format != "" && forall i | 0 <= i < |format| :: format[i] as int < 0x80
    ensures ArtifactExtension(FormatText(format)).Some?
  {
    assert |Text.Lower(format)| == |format|;
    forall i | 0 <= i < |format| ensures format[i] as int < 0x80 {
      assert Text.Lower(format)[i] in "constructor" || Text.Lower(format)[i] in "__proto__";
    }
  }

  /** The plan of a publish that declares a format. */
  lemma FormatPublish(hash: Digest, cfg: Config, text: Json, format: Format)
    requires IsDigest(hash) && cfg.enabled && IsJson(text) && FormatOf(Some(text)) == format
    requires ArtifactExtension(format).Some?
    requires |Utf8Bytes(Stringify(MetaValue(hash([0]), ("format", text))))| <= MAX_META
    ensures var value := MetaValue(hash([0]), ("format", text));
            var plan := PlanPublish(hash, cfg, Upload(Stringify(value), value), ROUTE);
            && IsJson(value) && plan.Write?
            && plan.versionKey == "metadata/a/a/versions/1.json"
            && plan.objectKey == "artifacts/" + hash([0]) + "." + ArtifactExtension(format).value
  {
    var extra := ("format", text);
    var value := MetaValue(hash([0]), extra);
    assert IsSha256(hash([0]));
    MetaJson(hash([0]), extra);
    MetaRead(hash([0]), extra);
    UploadPlan(hash, cfg, Stringify(value), value, MetaOf(value));
  }
}
