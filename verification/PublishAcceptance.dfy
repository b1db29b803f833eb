/**
 * Which publishes are accepted, what the first reason of every refusal is, and
 * what an accepted publish writes, in terms of the request alone.
 */
module PublishAcceptance {
  import opened Common
  import opened Checks
  import opened Utf8
  import opened JsonText
  import opened Routes
  import opened PublishMeta
  import opened EdgePublish
  import opened PublishedDocuments
  import Text

  // ----- lengths -----

  /** The decimal form of a number, without leading zeros. */
  function Numeral(n: nat): string {
    if n < 10 then [(48 + n) as char] else Numeral(n / 10) + [(48 + n % 10) as char]
  }

  lemma {:induction false} NumeralRead(n: nat)
    ensures DigitsOnly(Numeral(n)) && HeaderNumber(Numeral(n)) == n
    ensures Numeral(n)[0] == '0' ==> n == 0 && |Numeral(n)| == 1
  {
    if n >= 10 {
      NumeralRead(n / 10);
      assert Numeral(n)[..|Numeral(n)| - 1] == Numeral(n / 10);
    } else {
      assert Numeral(n)[..0] == "";
    }
  }

  lemma {:induction false} ReadNumeral(s: string)
    requires DigitsOnly(s) && (s[0] == '0' ==> |s| == 1)
    ensures Numeral(HeaderNumber(s)) == s
    ensures s[0] != '0' ==> HeaderNumber(s) > 0
  {
    var front := s[..|s| - 1];
    assert s == front + [s[|s| - 1]];
    if front != "" {
      assert front[0] == s[0];
      ReadNumeral(front);
    } else {
      assert HeaderNumber(front) == 0;
    }
  }

  /** The header spells a safe integer in its canonical form. */
  predicate Declares(header: Option<string>, n: nat) {
    header == Some(Numeral(n)) && n < 0x20_0000_0000_0000
  }

  lemma DeclaredExactly(header: Option<string>, n: nat)
    ensures DeclaredLength(header) == Some(n) <==> Declares(header, n)
  {
    NumeralRead(n);
    if DeclaredLength(header).Some? { ReadNumeral(header.value); }
  }

  // ----- the form -----

  /** One text part `meta` and one file part `artifact`, in either order. */
  predicate Holds(form: seq<(string, Part)>, meta: Part, artifact: Part) {
    && meta.TextPart? && artifact.FilePart?
    && (form == [("meta", meta), ("artifact", artifact)] || form == [("artifact", artifact), ("meta", meta)])
  }

  lemma {:induction false} NamedCount(form: seq<(string, Part)>, name: string)
    ensures |Named(form, name)| <= |form|
    ensures |form| == 2 ==> Named(form, name) == (if form[0].0 == name then [form[0].1] else [])
                                                 + (if form[1].0 == name then [form[1].1] else [])
  {
    if form != [] { NamedCount(form[1..], name); }
    if |form| == 2 { assert form[1..][1..] == [] && form[1..][0] == form[1]; }
  }

  lemma FormExactly(form: seq<(string, Part)>, meta: Part, artifact: Part)
    ensures (|form| == 2 && Named(form, "meta") == [meta] && Named(form, "artifact") == [artifact]
             && meta.TextPart? && artifact.FilePart?) <==> Holds(form, meta, artifact)
  {
    NamedCount(form, "meta");
    NamedCount(form, "artifact");
    assert "meta" != "artifact";
    if |form| == 2 && Named(form, "meta") == [meta] && Named(form, "artifact") == [artifact] {
      if form[0].0 == "meta" {
        assert Named(form, "meta")[0] == form[0].1;
        assert form[1].0 == "artifact";
        assert Named(form, "artifact")[0] == form[1].1;
        assert form == [("meta", meta), ("artifact", artifact)];
      } else {
        assert form[1].0 == "meta" && form[0].0 == "artifact";
        assert Named(form, "meta")[0] == form[1].1 && Named(form, "artifact")[0] == form[0].1;
        assert form == [("artifact", artifact), ("meta", meta)];
      }
    }
    if Holds(form, meta, artifact) {
      assert [] + [meta] == [meta] && [artifact] + [] == [artifact];
    }
  }

  // ----- the meta part -----

  function PackageIn(v: Json): Option<Json> { Inside(Lookup(v, "manifest"), "package") }

  predicate Says(v: Json, key: string, text: string) { Lookup(v, key) == Some(String(Utf16(text))) }

  /** No visibility, or `"public"`. */
  predicate Open(v: Json) { Lookup(v, "visibility").Some? ==> Says(v, "visibility", "public") }

  /** The names of the format table, and the two it inherits. */
  ghost predicate FormatNamed(v: Json, extension: string) {
    var format := Lookup(v, "format");
    || (extension == "tar.gz" && (format.None? || format.value.Null?))
    || exists text :: Says(v, "format", text) && Spells(text, extension)
  }

  predicate Spells(text: string, extension: string) {
    match Text.Lower(text)
    case "" => extension == "tar.gz"
    case "tar.gz" => extension == "tar.gz"
    case "targz" => extension == "tar.gz"
    case "tgz" => extension == "tar.gz"
    case "gzip" => extension == "tar.gz"
    case "zip" => extension == "zip"
    case "constructor" => extension == "function Object() { [native code] }"
    case "__proto__" => extension == "[object Object]"
    case _ => false
  }

  // ----- reasons to refuse -----

  function Need(holds: bool, status: int, code: string): Case<Refusal> { Case(holds, Refusal(status, code)) }

  ghost predicate Declared(req: Request, least: nat, most: nat) {
    exists n: nat :: Declares(req.contentLength, n) && least <= n <= most
  }

  predicate Parted(req: Request, meta: Part, artifact: Part) {
    req.form.Some? && Holds(req.form.value, meta, artifact)
  }

  const LIMIT: nat := 33 * 1024 * 1024

  /** What the request itself has to meet. */
  ghost function RequestCases(cfg: Config, req: Request): seq<Case<Refusal>> {
    var received := Sum(req.chunks);
    [Need(cfg.enabled, 503, "registry_origin_unavailable"),
     Need(req.authorized, 401, "unauthorized"),
     Need(exists n: nat :: Declares(req.contentLength, n), 411, "length_required"),
     Need(Declared(req, 0, LIMIT), 413, "artifact_too_large"),
     Need(req.multipart, 400, "invalid_publish_body"),
     Need(Declared(req, received, LIMIT), 413, "artifact_too_large"),
     Need(req.form.Some?, 400, "invalid_publish_body"),
     Need(Declared(req, received, received), 400, "publish_length_mismatch"),
     Need(exists meta, artifact :: Parted(req, meta, artifact), 400, "invalid_publish_body")]
  }

  /** What the parts have to meet before the meta part is looked into. */
  function PartCases(raw: Units, json: Option<Json>): seq<Case<Refusal>> {
    [Need(|Utf8Bytes(raw)| <= 1024 * 1024, 413, "invalid_publish_meta"),
     Need(json.Some?, 400, "invalid_publish_meta")]
  }

  /** A package record and what it has to say. */
  predicate HasPackage(v: Json) { PackageIn(v).Some? && (PackageIn(v).value.Object? || PackageIn(v).value.List?) }

  predicate NamesRoute(v: Json, route: Route)
    requires route.PublishRoute?
  {
    && PackageIn(v).Some? && Says(PackageIn(v).value, "org", route.org)
    && Says(PackageIn(v).value, "name", route.name) && Says(PackageIn(v).value, "version", route.version)
  }

  predicate OpenToAll(v: Json) { Open(v) && (PackageIn(v).Some? ==> Open(PackageIn(v).value)) }

  ghost predicate Described(v: Json) {
    && (exists digest :: IsSha256(digest) && Says(v, "sha256", digest))
    && IntegerOf(Lookup(v, "size")).Some? && IntegerOf(Lookup(v, "size")).value >= 0
    && Lookup(v, "vcs_tag").Some? && Lookup(v, "vcs_tag").value.String? && Lookup(v, "vcs_tag").value.units != []
    && exists extension :: FormatNamed(v, extension)
  }

  ghost function MetaCases(hash: Digest, v: Json, bytes: seq<Byte>, route: Route): seq<Case<Refusal>>
    requires route.PublishRoute?
  {
    [Need(HasPackage(v), 400, "invalid_publish_meta"),
     Need(NamesRoute(v, route), 422, "publish_identity_mismatch"),
     Need(OpenToAll(v), 422, "edge_publication_requires_public_visibility"),
     Need(Described(v), 422, "invalid_publish_meta"),
     Need(bytes != [], 422, "empty_artifact"),
     Need(|bytes| <= 32 * 1024 * 1024, 413, "artifact_too_large"),
     Need(Says(v, "sha256", hash(bytes)), 422, "artifact_digest_mismatch"),
     Need(IntegerOf(Lookup(v, "size")) == Some(|bytes|), 422, "artifact_size_mismatch"),
     Need(VersionMetadataKey(route.org, route.name, route.version).Some?, 400, "invalid_publish_target")]
  }

  // ----- the verdict -----

  /** The first reason to refuse a publish, once its parts are known. */
  ghost function Verdict(hash: Digest, cfg: Config, req: Request, route: Route): Option<Refusal>
    requires route.PublishRoute?
  {
    var early := First(RequestCases(cfg, req));
    if early.Some? then early
    else if exists meta, artifact :: Parted(req, meta, artifact) then
      var meta, artifact :| Parted(req, meta, artifact);
      PartVerdict(hash, meta.raw, meta.json, artifact.bytes, route)
    else None
  }

  ghost function PartVerdict(hash: Digest, raw: Units, json: Option<Json>, bytes: seq<Byte>, route: Route): Option<Refusal>
    requires route.PublishRoute?
  {
    Before(First(PartCases(raw, json)), if json.Some? then First(MetaCases(hash, json.value, bytes, route)) else None)
  }

  function RefusalOf(plan: Plan): Option<Refusal> { if plan.Refuse? then Some(plan.refusal) else None }

  lemma LengthCases(req: Request)
    ensures var n := DeclaredLength(req.contentLength);
            && (n.Some? <==> exists n: nat :: Declares(req.contentLength, n))
            && (forall least: nat, most: nat ::
                  Declared(req, least, most) <==> n.Some? && least <= n.value <= most)
  {
    forall n: nat ensures DeclaredLength(req.contentLength) == Some(n) <==> Declares(req.contentLength, n) {
      DeclaredExactly(req.contentLength, n);
    }
  }

  lemma RequestExactly(hash: Digest, cfg: Config, req: Request, route: Route)
    requires route.PublishRoute?
    ensures var early := First(RequestCases(cfg, req));
            if early.Some? then PlanPublish(hash, cfg, req, route) == Refuse(early.value)
            else
              && (exists meta, artifact :: Parted(req, meta, artifact))
              && PlanPublish(hash, cfg, req, route) == PlanForm(hash, cfg, req.form.value, route)
  {
    LengthCases(req);
    var cs := RequestCases(cfg, req);
    FirstNine(cs[0], cs[1], cs[2], cs[3], cs[4], cs[5], cs[6], cs[7], cs[8]);
    assert cs == [cs[0], cs[1], cs[2], cs[3], cs[4], cs[5], cs[6], cs[7], cs[8]];
    if req.form.Some? { FormCases(hash, cfg, req, route); }
  }

  lemma FormCases(hash: Digest, cfg: Config, req: Request, route: Route)
    requires route.PublishRoute? && req.form.Some?
    ensures (!exists meta, artifact :: Parted(req, meta, artifact)) ==>
              PlanForm(hash, cfg, req.form.value, route) == Refuse(Refusal(400, "invalid_publish_body"))
  {
    var form := req.form.value;
    var metas, artifacts := Named(form, "meta"), Named(form, "artifact");
    if |metas| == 1 && |artifacts| == 1 {
      FormExactly(form, metas[0], artifacts[0]);
      assert Parted(req, metas[0], artifacts[0]) <==> Holds(form, metas[0], artifacts[0]);
    }
  }

  // ----- the meta part, read -----

  lemma TableIsAscii(text: string, extension: string)
    requires Spells(text, extension)
    ensures Ascii(text)
  {
    var t := Text.Lower(text);
    assert t in ["", "tar.gz", "targz", "tgz", "gzip", "zip", "constructor", "__proto__"];
    assert forall i | 0 <= i < |t| :: t[i] as int < 0x80;
    forall i | 0 <= i < |text| ensures text[i] as int < 0x80 { assert t[i] as int < 0x80; }
  }

  lemma ExtensionExactly(text: string, extension: string)
    ensures ArtifactExtension(FormatText(text)) == Some(extension) <==> Spells(text, extension)
  {
    if text == "" { assert Text.Lower(text) == ""; } else { assert Text.Lower(text) != ""; }
  }

  lemma FormatExactly(v: Json, extension: string)
    ensures ArtifactExtension(FormatOf(Lookup(v, "format"))) == Some(extension) <==> FormatNamed(v, extension)
  {
    var format := Lookup(v, "format");
    if AsciiOf(format).Some? {
      AsciiExactly(format, AsciiOf(format).value);
      ExtensionExactly(AsciiOf(format).value, extension);
    }
    forall text | Says(v, "format", text) && Spells(text, extension)
      ensures ArtifactExtension(FormatOf(format)) == Some(extension)
    {
      TableIsAscii(text, extension);
      AsciiExactly(format, text);
      ExtensionExactly(text, extension);
    }
  }

  lemma DigestExactly(v: Json)
    ensures (AsciiOf(Lookup(v, "sha256")).Some? && IsSha256(AsciiOf(Lookup(v, "sha256")).value))
            <==> exists digest :: IsSha256(digest) && Says(v, "sha256", digest)
    ensures forall digest | IsSha256(digest) ::
              AsciiOf(Lookup(v, "sha256")) == Some(digest) <==> Says(v, "sha256", digest)
  {
    var read := AsciiOf(Lookup(v, "sha256"));
    if read.Some? { AsciiExactly(Lookup(v, "sha256"), read.value); }
    forall digest | IsSha256(digest) ensures read == Some(digest) <==> Says(v, "sha256", digest) {
      AsciiExactly(Lookup(v, "sha256"), digest);
    }
  }

  lemma OpenExactly(v: Json)
    ensures PermitsPublic(VisibilityOf(v)) <==> Open(v)
  {
  }

  lemma DescribedExactly(v: Json, meta: Meta)
    requires meta == MetaOf(v) && meta.Meta?
    ensures Described(v) <==>
            && meta.sha256.Some? && IsSha256(meta.sha256.value) && meta.size.Some? && meta.size.value >= 0
            && meta.vcsTag.Some? && meta.vcsTag.value != [] && ArtifactExtension(meta.format).Some?
  {
    DigestExactly(v);
    var format := FormatOf(Lookup(v, "format"));
    if ArtifactExtension(format).Some? { FormatExactly(v, ArtifactExtension(format).value); }
    forall extension | FormatNamed(v, extension) ensures ArtifactExtension(format) == Some(extension) {
      FormatExactly(v, extension);
    }
  }

  lemma ValidExactly(v: Json, route: Route, meta: Meta)
    requires route.PublishRoute? && meta == MetaOf(v)
    ensures ValidatePublishMeta(meta, route) ==
            if !HasPackage(v) then Some(Refusal(400, "invalid_publish_meta"))
            else if !NamesRoute(v, route) then Some(Refusal(422, "publish_identity_mismatch"))
            else if !OpenToAll(v) then Some(Refusal(422, "edge_publication_requires_public_visibility"))
            else if !Described(v) then Some(Refusal(422, "invalid_publish_meta"))
            else None
    ensures HasPackage(v) <==> meta.Meta?
  {
    if meta.Meta? {
      DescribedExactly(v, meta);
      OpenExactly(v);
      OpenExactly(PackageIn(v).value);
    }
  }

  lemma MetaExactly(hash: Digest, cfg: Config, v: Json, bytes: seq<Byte>, route: Route)
    requires IsDigest(hash) && route.PublishRoute?
    ensures RefusalOf(PlanArtifact(hash, cfg, MetaOf(v), bytes, route)) == First(MetaCases(hash, v, bytes, route))
  {
    var meta := MetaOf(v);
    var cs := MetaCases(hash, v, bytes, route);
    FirstNine(cs[0], cs[1], cs[2], cs[3], cs[4], cs[5], cs[6], cs[7], cs[8]);
    assert cs == [cs[0], cs[1], cs[2], cs[3], cs[4], cs[5], cs[6], cs[7], cs[8]];
    ValidExactly(v, route, meta);
    DigestExactly(v);
    assert IsSha256(hash(bytes));
    ArtifactExactly(hash, cfg, v, meta, bytes, route);
  }

  lemma ArtifactExactly(hash: Digest, cfg: Config, v: Json, meta: Meta, bytes: seq<Byte>, route: Route)
    requires route.PublishRoute? && IsSha256(hash(bytes)) && meta == MetaOf(v)
    ensures var plan, invalid := PlanArtifact(hash, cfg, meta, bytes, route), ValidatePublishMeta(meta, route);
            RefusalOf(plan) ==
            if invalid.Some? then invalid
            else if bytes == [] then Some(Refusal(422, "empty_artifact"))
            else if |bytes| > 32 * 1024 * 1024 then Some(Refusal(413, "artifact_too_large"))
            else if !Says(v, "sha256", hash(bytes)) then Some(Refusal(422, "artifact_digest_mismatch"))
            else if IntegerOf(Lookup(v, "size")) != Some(|bytes|) then Some(Refusal(422, "artifact_size_mismatch"))
            else if VersionMetadataKey(route.org, route.name, route.version).None? then
              Some(Refusal(400, "invalid_publish_target"))
            else None
  {
    DigestExactly(v);
  }

  lemma PartsExactly(hash: Digest, cfg: Config, form: seq<(string, Part)>, route: Route, meta: Part, artifact: Part)
    requires IsDigest(hash) && route.PublishRoute? && Holds(form, meta, artifact)
    ensures RefusalOf(PlanForm(hash, cfg, form, route)) == PartVerdict(hash, meta.raw, meta.json, artifact.bytes, route)
  {
    FormExactly(form, meta, artifact);
    FirstTwo(PartCases(meta.raw, meta.json)[0], PartCases(meta.raw, meta.json)[1]);
    if meta.json.Some? { MetaExactly(hash, cfg, meta.json.value, artifact.bytes, route); }
  }

  /** Every refusal gives the first reason there is, and without one the publish is accepted. */
  lemma VerdictExactly(hash: Digest, cfg: Config, req: Request, route: Route)
    requires IsDigest(hash) && route.PublishRoute?
    ensures RefusalOf(PlanPublish(hash, cfg, req, route)) == Verdict(hash, cfg, req, route)
  {
    RequestExactly(hash, cfg, req, route);
    if First(RequestCases(cfg, req)).None? {
      forall meta, artifact | Parted(req, meta, artifact)
        ensures RefusalOf(PlanPublish(hash, cfg, req, route)) ==
                PartVerdict(hash, meta.raw, meta.json, artifact.bytes, route)
      {
        PartsExactly(hash, cfg, req.form.value, route, meta, artifact);
      }
    }
  }

  // ----- what is accepted, and what is written then -----

  /** A request that may publish: who sends it, its length, and its two parts. */
  predicate Sent(cfg: Config, req: Request, raw: Units, v: Json, bytes: seq<Byte>) {
    && cfg.enabled && req.authorized && req.multipart
    && Declares(req.contentLength, Sum(req.chunks)) && Sum(req.chunks) <= 33 * 1024 * 1024
    && Parted(req, TextPart(raw, Some(v)), FilePart(bytes)) && |Utf8Bytes(raw)| <= 1024 * 1024
  }

  /** A meta part that describes these bytes, for this route, to everybody. */
  ghost predicate Describes(hash: Digest, v: Json, bytes: seq<Byte>, route: Route, extension: string)
    requires route.PublishRoute?
  {
    && NamesRoute(v, route) && OpenToAll(v)
    && Says(v, "sha256", hash(bytes)) && IntegerOf(Lookup(v, "size")) == Some(|bytes|)
    && 1 <= |bytes| <= 32 * 1024 * 1024
    && Lookup(v, "vcs_tag").Some? && Lookup(v, "vcs_tag").value.String? && Lookup(v, "vcs_tag").value.units != []
    && FormatNamed(v, extension)
    && VersionMetadataKey(route.org, route.name, route.version).Some?
  }

  /**
   * A publish is accepted exactly when it is sent as it has to be and its meta
   * part describes the file.
   */
  lemma AcceptedExactly(hash: Digest, cfg: Config, req: Request, route: Route)
    requires IsDigest(hash) && route.PublishRoute?
    ensures PlanPublish(hash, cfg, req, route).Write? <==>
            exists raw, v, bytes, extension ::
              Sent(cfg, req, raw, v, bytes) && Describes(hash, v, bytes, route, extension)
  {
    RequestExactly(hash, cfg, req, route);
    SentCases(cfg, req);
    if First(RequestCases(cfg, req)).None? {
      forall meta, artifact | Parted(req, meta, artifact)
        ensures PlanPublish(hash, cfg, req, route).Write? <==> PartsAccepted(hash, meta, artifact, route)
      {
        PartsAcceptedExactly(hash, cfg, req.form.value, meta, artifact, route);
      }
      var meta, artifact :| Parted(req, meta, artifact);
      if PlanPublish(hash, cfg, req, route).Write? {
        assert meta == TextPart(meta.raw, Some(meta.json.value)) && artifact == FilePart(artifact.bytes);
        assert Sent(cfg, req, meta.raw, meta.json.value, artifact.bytes);
      }
    }
  }

  ghost predicate PartsAccepted(hash: Digest, meta: Part, artifact: Part, route: Route)
    requires meta.TextPart? && artifact.FilePart? && route.PublishRoute?
  {
    && meta.json.Some? && |Utf8Bytes(meta.raw)| <= 1024 * 1024
    && exists extension :: Describes(hash, meta.json.value, artifact.bytes, route, extension)
  }

  lemma PartsAcceptedExactly(hash: Digest, cfg: Config, form: seq<(string, Part)>, meta: Part, artifact: Part, route: Route)
    requires IsDigest(hash) && route.PublishRoute? && Holds(form, meta, artifact)
    ensures PlanForm(hash, cfg, form, route).Write? <==> PartsAccepted(hash, meta, artifact, route)
  {
    PartsExactly(hash, cfg, form, route, meta, artifact);
    FirstTwo(PartCases(meta.raw, meta.json)[0], PartCases(meta.raw, meta.json)[1]);
    if meta.json.Some? { DescribesCases(hash, meta.json.value, artifact.bytes, route); }
  }

  /** What is needed of the request and its length, all at once. */
  lemma SentCases(cfg: Config, req: Request)
    ensures First(RequestCases(cfg, req)).None? <==>
            && cfg.enabled && req.authorized && req.multipart
            && Declares(req.contentLength, Sum(req.chunks)) && Sum(req.chunks) <= 33 * 1024 * 1024
            && exists meta, artifact :: Parted(req, meta, artifact)
  {
    var cs := RequestCases(cfg, req);
    FirstNine(cs[0], cs[1], cs[2], cs[3], cs[4], cs[5], cs[6], cs[7], cs[8]);
    assert cs == [cs[0], cs[1], cs[2], cs[3], cs[4], cs[5], cs[6], cs[7], cs[8]];
    LengthCases(req);
    DeclaredExactly(req.contentLength, Sum(req.chunks));
  }

  lemma DescribesCases(hash: Digest, v: Json, bytes: seq<Byte>, route: Route)
    requires IsDigest(hash) && route.PublishRoute?
    ensures First(MetaCases(hash, v, bytes, route)).None? <==>
            exists extension :: Describes(hash, v, bytes, route, extension)
  {
    var cs := MetaCases(hash, v, bytes, route);
    FirstNine(cs[0], cs[1], cs[2], cs[3], cs[4], cs[5], cs[6], cs[7], cs[8]);
    assert cs == [cs[0], cs[1], cs[2], cs[3], cs[4], cs[5], cs[6], cs[7], cs[8]];
    assert IsSha256(hash(bytes));
    if Described(v) {
      var extension :| FormatNamed(v, extension);
      assert First(MetaCases(hash, v, bytes, route)).None? ==> Describes(hash, v, bytes, route, extension);
    }
    if NamesRoute(v, route) {
      assert PackageIn(v).value.Object?;
    }
  }

  /** A property that is carried over when it is a non-empty text. */
  predicate Kept(d: Json, v: Json, key: string) {
    var given := Lookup(v, key);
    Lookup(d, key) == if given.Some? && given.value.String? && given.value.units != [] then given else None
  }

  /** The same for a non-empty list: not one entry is lost or changed. */
  predicate KeptList(d: Json, v: Json, key: string) {
    var given := Lookup(v, key);
    Lookup(d, key) == if given.Some? && given.value.List? && given.value.items != [] then given else None
  }

  /** The facts about the package, when its repository has a URL. */
  predicate KeptFacts(d: Json, v: Json) {
    var repository := Inside(PackageIn(v), "repository");
    var url, vcs, about := Inside(repository, "url"), Inside(repository, "vcs"), Inside(PackageIn(v), "description");
    if url.None? || !url.value.String? then Lookup(d, "package").None?
    else
      && Lookup(d, "package").Some?
      && var facts := Lookup(d, "package").value;
         && Lookup(facts, "repo_url") == url
         && Lookup(facts, "vcs") == (if vcs.Some? && vcs.value.String? then vcs else Some(String(Utf16("git"))))
         && Lookup(facts, "description") == if about.Some? && about.value.String? then about else None
  }

  /** The configured CDN, or the public one, without its trailing slashes. */
  predicate BaseOf(cfg: Config, base: string) {
    var given := if cfg.cdnBase == "" then "https://cdn.zpkg.net" else cfg.cdnBase;
    && base <= given && (forall i | |base| <= i < |given| :: given[i] == '/')
    && (base != "" ==> base[|base| - 1] != '/')
  }

  lemma {:induction false} TrimmedEnd(s: string)
    ensures var t := Text.TrimEnd(s, '/');
            t <= s && (forall i | |t| <= i < |s| :: s[i] == '/') && (t != "" ==> t[|t| - 1] != '/')
  {
    if s != "" && s[|s| - 1] == '/' {
      TrimmedEnd(s[..|s| - 1]);
      assert forall i | 0 <= i < |s| - 1 :: s[..|s| - 1][i] == s[i];
    }
  }

  /** What the version document says, in terms of the request. */
  ghost predicate Carries(d: Json, v: Json, cfg: Config, route: Route, digest: string, size: nat, extension: string)
    requires route.PublishRoute?
  {
    var format, published := Lookup(v, "format"), Lookup(v, "published_at");
    && Says(d, "org", route.org) && Says(d, "name", route.name) && Says(d, "version", route.version)
    && Says(d, "sha256", digest) && Lookup(d, "size") == Some(Number(Decimal(size)))
    && Lookup(d, "format") == (if format.None? || format.value.Null? then Some(String(Utf16("tar.gz"))) else format)
    && Lookup(d, "vcs_tag") == Lookup(v, "vcs_tag")
    && (exists base :: BaseOf(cfg, base) && Says(d, "download_url", base + "/artifacts/" + digest + "." + extension))
    && Lookup(d, "published_at") ==
       (if published.Some? && published.value.String? && published.value.units != [] then published
        else Some(String(Utf16(cfg.now))))
    && Lookup(d, "yanked") == Some(Bool(false))
    && Kept(d, v, "vcs_commit") && KeptList(d, v, "mirrors") && KeptList(d, v, "signatures") && KeptFacts(d, v)
  }

  lemma RequiredAt(d: VersionDoc, i: nat)
    requires i < |RequiredFields(d)|
    ensures Lookup(DocumentValue(d), RequiredFields(d)[i].0) == Some(RequiredFields(d)[i].1)
  {
    FieldsDistinct(d);
    assert DocumentFields(d)[i] == RequiredFields(d)[i];
    FieldAt(DocumentFields(d), i);
    LookupField(DocumentFields(d), RequiredFields(d)[i].0);
  }

  lemma OptionalAt(d: VersionDoc, key: string)
    requires key in {"vcs_commit", "package", "mirrors", "signatures"}
    ensures Lookup(DocumentValue(d), key) == Field(OptionalFields(d), key)
  {
    LookupField(DocumentFields(d), key);
    FieldConcat(RequiredFields(d), OptionalFields(d), key);
    RequiredLack(d, key);
  }

  /** What a document prints is what it holds. */
  lemma DocumentSays(d: VersionDoc)
    ensures var v := DocumentValue(d);
            && Says(v, "org", d.org) && Says(v, "name", d.name) && Says(v, "version", d.version)
            && Says(v, "sha256", d.sha256) && Lookup(v, "size") == Some(Number(Decimal(d.size)))
            && Says(v, "format", d.format) && Lookup(v, "vcs_tag") == Some(String(d.vcsTag))
            && Says(v, "download_url", d.downloadUrl) && Lookup(v, "published_at") == Some(String(d.publishedAt))
            && Lookup(v, "yanked") == Some(Bool(d.yanked))
  {
    RequiredAt(d, 0);
    RequiredAt(d, 1);
    RequiredAt(d, 2);
    RequiredAt(d, 3);
    RequiredAt(d, 4);
    RequiredAt(d, 5);
    RequiredAt(d, 6);
    RequiredAt(d, 7);
    RequiredAt(d, 8);
    RequiredAt(d, 9);
  }

  lemma FactsSaid(facts: PackageFacts)
    ensures var v := FactsValue(facts);
            && Lookup(v, "repo_url") == Some(String(facts.repoUrl)) && Lookup(v, "vcs") == Some(String(facts.vcs))
            && Lookup(v, "description") ==
               if facts.description.Some? then Some(String(facts.description.value)) else None
  {
    FactsField(facts, "repo_url");
    FactsField(facts, "vcs");
    FactsField(facts, "description");
  }

  lemma OptionalSays(d: VersionDoc, v: Json, meta: Meta)
    requires meta == MetaOf(v) && meta.Meta?
    requires d.vcsCommit == (if meta.vcsCommit == Some([]) then None else meta.vcsCommit)
    requires d.mirrors == meta.mirrors && d.signatures == meta.signatures && d.facts == meta.facts
    ensures var doc := DocumentValue(d);
            Kept(doc, v, "vcs_commit") && KeptList(doc, v, "mirrors") && KeptList(doc, v, "signatures") && KeptFacts(doc, v)
  {
    OptionalAt(d, "vcs_commit");
    OptionalAt(d, "mirrors");
    OptionalAt(d, "signatures");
    OptionalAt(d, "package");
    OptionalField(d, "vcs_commit");
    OptionalField(d, "mirrors");
    OptionalField(d, "signatures");
    OptionalField(d, "package");
    FactsKept(d, v);
  }

  lemma FactsKept(d: VersionDoc, v: Json)
    requires PackageIn(v).Some? && d.facts == FactsOf(PackageIn(v).value)
    requires Lookup(DocumentValue(d), "package") == if d.facts.Some? then Some(FactsValue(d.facts.value)) else None
    ensures KeptFacts(DocumentValue(d), v)
  {
    if d.facts.Some? { FactsSaid(d.facts.value); }
  }

  lemma FormatKept(v: Json, extension: string)
    requires FormatNamed(v, extension)
    ensures var format := Lookup(v, "format");
            Some(String(Utf16(if FormatOf(format).FormatText? then FormatOf(format).text else "tar.gz"))) ==
            if format.None? || format.value.Null? then Some(String(Utf16("tar.gz"))) else format
  {
    FormatExactly(v, extension);
    var format := Lookup(v, "format");
    if AsciiOf(format).Some? { AsciiExactly(format, AsciiOf(format).value); }
  }

  lemma BuiltCarries(cfg: Config, route: Route, v: Json, meta: Meta, digest: string, size: nat, extension: string)
    requires route.PublishRoute? && meta == MetaOf(v) && meta.Meta? && meta.vcsTag.Some?
    requires FormatNamed(v, extension) && ArtifactExtension(meta.format) == Some(extension)
    ensures Carries(DocumentValue(BuildVersionMetadata(cfg, route, meta, digest, size)), v, cfg, route, digest, size, extension)
  {
    var d := BuildVersionMetadata(cfg, route, meta, digest, size);
    DocumentSays(d);
    OptionalSays(d, v, meta);
    FormatKept(v, extension);
    TrimmedEnd(if cfg.cdnBase == "" then DEFAULT_CDN else cfg.cdnBase);
    assert BaseOf(cfg, CdnBase(cfg));
  }

  /**
   * An accepted publish writes its file under its digest and extension, and a
   * document that says what the request said: the route's coordinate, the
   * digest and length of the file, and the tag, format, mirrors and signatures
   * as they were sent.
   */
  lemma WrittenExactly(hash: Digest, cfg: Config, req: Request, route: Route, raw: Units, v: Json, bytes: seq<Byte>,
                       extension: string)
    requires IsDigest(hash) && route.PublishRoute?
    requires Sent(cfg, req, raw, v, bytes) && Describes(hash, v, bytes, route, extension)
    ensures var plan := PlanPublish(hash, cfg, req, route);
            && plan.Write? && plan.bytes == bytes
            && plan.objectKey == "artifacts/" + hash(bytes) + "." + extension
            && plan.versionKey == "metadata/" + route.org + "/" + route.name + "/versions/" + route.version + ".json"
            && Carries(DocumentValue(plan.doc), v, cfg, route, hash(bytes), |bytes|, extension)
  {
    SentPlan(hash, cfg, req, route, raw, v, bytes);
    DescribesCases(hash, v, bytes, route);
    MetaExactly(hash, cfg, v, bytes, route);
    PlanWritten(hash, cfg, route, v, MetaOf(v), bytes, extension);
  }

  lemma SentPlan(hash: Digest, cfg: Config, req: Request, route: Route, raw: Units, v: Json, bytes: seq<Byte>)
    requires route.PublishRoute? && Sent(cfg, req, raw, v, bytes)
    ensures PlanPublish(hash, cfg, req, route) == PlanArtifact(hash, cfg, MetaOf(v), bytes, route)
  {
    var meta, artifact := TextPart(raw, Some(v)), FilePart(bytes);
    assert Parted(req, meta, artifact);
    SentCases(cfg, req);
    RequestExactly(hash, cfg, req, route);
    FormPlan(hash, cfg, req.form.value, route, meta, artifact);
  }

  lemma FormPlan(hash: Digest, cfg: Config, form: seq<(string, Part)>, route: Route, meta: Part, artifact: Part)
    requires route.PublishRoute? && Holds(form, meta, artifact) && meta.json.Some? && |Utf8Bytes(meta.raw)| <= 1024 * 1024
    ensures PlanForm(hash, cfg, form, route) == PlanArtifact(hash, cfg, MetaOf(meta.json.value), artifact.bytes, route)
  {
    FormExactly(form, meta, artifact);
  }

  lemma PlanWritten(hash: Digest, cfg: Config, route: Route, v: Json, meta: Meta, bytes: seq<Byte>, extension: string)
    requires route.PublishRoute? && meta == MetaOf(v) && FormatNamed(v, extension)
    requires PlanArtifact(hash, cfg, meta, bytes, route).Write?
    ensures var plan := PlanArtifact(hash, cfg, meta, bytes, route);
            && plan.bytes == bytes && plan.objectKey == "artifacts/" + hash(bytes) + "." + extension
            && plan.versionKey == "metadata/" + route.org + "/" + route.name + "/versions/" + route.version + ".json"
            && Carries(DocumentValue(plan.doc), v, cfg, route, hash(bytes), |bytes|, extension)
  {
    FormatExactly(v, extension);
    PlanKeys(hash, cfg, route, meta, bytes, extension);
    BuiltCarries(cfg, route, v, meta, hash(bytes), |bytes|, extension);
  }

  lemma PlanKeys(hash: Digest, cfg: Config, route: Route, meta: Meta, bytes: seq<Byte>, extension: string)
    requires route.PublishRoute? && PlanArtifact(hash, cfg, meta, bytes, route).Write?
    requires meta.Meta? ==> ArtifactExtension(meta.format) == Some(extension)
    ensures meta.Meta? && meta.vcsTag.Some?
    ensures PlanArtifact(hash, cfg, meta, bytes, route) ==
            Write("artifacts/" + hash(bytes) + "." + extension, bytes,
                  "metadata/" + route.org + "/" + route.name + "/versions/" + route.version + ".json",
                  BuildVersionMetadata(cfg, route, meta, hash(bytes), |bytes|))
  {
  }

  /**
   * What the handler does with a bucket: a refused publish leaves it alone and
   * answers the first reason; an accepted one stores its file, and its document
   * and a 201 unless the version is taken, which is a 409.
   */
  lemma AnswerExactly(hash: Digest, cfg: Config, req: Request, route: Route, store: Store)
    requires IsDigest(hash) && route.PublishRoute?
    ensures var plan, verdict := PlanPublish(hash, cfg, req, route), Verdict(hash, cfg, req, route);
            if verdict.Some? then Alone(plan, store) == (store, Answered(verdict.value.status))
            else
              && plan.Write?
              && var stored := store[plan.objectKey := ArtifactObject(plan.bytes, Public)];
                 Alone(plan, store) ==
                 if plan.versionKey in store then (stored, Answered(409))
                 else (stored[plan.versionKey := DocObject(plan.doc, Public)], Answered(201))
    ensures var plan, verdict := PlanPublish(hash, cfg, req, route), Verdict(hash, cfg, req, route);
            if verdict.Some? then forall status :: BodyOf(plan, route, status) == Error(verdict.value.code)
            else
              && BodyOf(plan, route, 409) == Error("version_already_published")
              && BodyOf(plan, route, 201) == Accepted(route.org, route.name, route.version, plan.doc.sha256)
  {
    VerdictExactly(hash, cfg, req, route);
    var plan := PlanPublish(hash, cfg, req, route);
    if plan.Write? {
      var w := World(hash, (id: nat) => Job(cfg, req, route));
      assert PlanOf(w, 0) == plan;
      WriteKeysDiffer(w, 0);
      WrittenStore(plan, store);
    }
  }

  lemma WrittenStore(plan: Plan, store: Store)
    requires plan.Write? && plan.versionKey != plan.objectKey
    ensures var stored := store[plan.objectKey := ArtifactObject(plan.bytes, Public)];
            Alone(plan, store) ==
            if plan.versionKey in store then (stored, Answered(409))
            else (stored[plan.versionKey := DocObject(plan.doc, Public)], Answered(201))
  {
  }
}
