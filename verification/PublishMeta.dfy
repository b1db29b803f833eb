/**
 * The meta part of a publish and the version document made of it
 * (workers/shared/edge-publish.js), as JSON values.
 */
module PublishMeta {
  import opened Common
  import opened Utf8
  import opened JsonText

  // ----- reading JSON values -----

  function Find(members: seq<Member>, key: Units): Option<Json> {
    if members == [] then None
    else if members[0].key == key then Some(members[0].value)
    else Find(members[1..], key)
  }

  /** `value[key]` for an own property of an object. */
  function Lookup(v: Json, key: string): Option<Json> {
    if v.Object? then Find(v.members, Utf16(key)) else None
  }

  function Inside(v: Option<Json>, key: string): Option<Json> { if v.Some? then Lookup(v.value, key) else None }

  function TextOf(v: Option<Json>): Option<Units> {
    if v.Some? && v.value.String? then Some(v.value.units) else None
  }

  predicate IsAscii(u: Units) { forall i | 0 <= i < |u| :: u[i] < 0x80 }

  /** A text in ASCII. Every other text is unlike all the texts it is compared with. */
  function AsciiOf(v: Option<Json>): Option<string> {
    var text := TextOf(v);
    if text.Some? && IsAscii(text.value)
    then Some(seq(|text.value|, i requires 0 <= i < |text.value| => text.value[i] as char))
    else None
  }

  predicate Ascii(s: string) { forall i | 0 <= i < |s| :: s[i] as int < 0x80 }

  lemma AsciiExactly(v: Option<Json>, s: string)
    ensures AsciiOf(v) == Some(s) <==> Ascii(s) && v == Some(String(Utf16(s)))
  {
    if Ascii(s) && v == Some(String(Utf16(s))) {
      Utf16Ascii(s);
      var u := v.value.units;
      assert u == Utf16(s) && IsAscii(u);
      assert seq(|u|, i requires 0 <= i < |u| => u[i] as char) == s;
    }
    if AsciiOf(v) == Some(s) {
      var u := v.value.units;
      assert s == seq(|u|, i requires 0 <= i < |u| => u[i] as char);
      forall i | 0 <= i < |s| ensures s[i] as int == u[i] < 0x80 { assert s[i] == u[i] as char; }
      Utf16Ascii(s);
      assert u == Utf16(s);
      assert v == Some(String(u));
    }
  }

  /** `record.visibility`: missing, the string `"public"`, or anything else. */
  datatype Visibility = Unmarked | Public | Restricted

  predicate PermitsPublic(v: Visibility) { !v.Restricted? }

  function VisibilityOf(record: Json): Visibility {
    var v := Lookup(record, "visibility");
    if v.None? then Unmarked else if v.value == String(Utf16("public")) then Public else Restricted
  }

  function Digits(s: Units): bool { s != [] && forall i | 0 <= i < |s| :: 48 <= s[i] < 58 }

  function DecimalOf(s: Units): nat
    requires forall i | 0 <= i < |s| :: 48 <= s[i] < 58
  {
    if s == [] then 0 else DecimalOf(s[..|s| - 1]) * 10 + (s[|s| - 1] - 48)
  }

  /** The integer a printed number is. JavaScript prints integers from 1e21 on
      with an exponent; they are integers, but no byte count. */
  function IntegerOf(v: Option<Json>): Option<int> {
    if v.None? || !v.value.Number? || v.value.numeral == [] then None
    else
      var n := v.value.numeral;
      if Digits(n) then Some(DecimalOf(n))
      else if n[0] == 45 && Digits(n[1..]) then Some(Negated(DecimalOf(n[1..])))
      else if HasExponent(n) then Some(if n[0] == 45 then -HUGE else HUGE)
      else None
  }

  function Negated(n: int): int { -n }

  const HUGE: int := 1_000_000_000_000_000_000_000

  /** `e+` in a printed number. */
  predicate HasExponent(n: Units) { exists i :: 0 <= i < |n| - 1 && n[i] == 101 && n[i + 1] == 43 }

  // ----- the meta part -----

  /** `meta.format`: `undefined` or `null`, an ASCII string, or anything else. */
  datatype Format = NoFormat | FormatText(text: string) | FormatOther

  function FormatOf(v: Option<Json>): Format {
    if v.None? || v.value.Null? then NoFormat
    else if AsciiOf(v).Some? then FormatText(AsciiOf(v).value)
    else FormatOther
  }

  datatype PackageFacts = PackageFacts(repoUrl: Units, vcs: Units, description: Option<Units>)

  /** What the publish looks at; `None` stands for a missing field or one of the wrong type. */
  datatype Meta =
    | NotAnObject
    | NoPackage
    | Meta(org: Option<Units>, name: Option<Units>, version: Option<Units>,
           visibility: Visibility, packageVisibility: Visibility,
           sha256: Option<string>, size: Option<int>, vcsTag: Option<Units>, format: Format,
           publishedAt: Option<Units>, vcsCommit: Option<Units>, facts: Option<PackageFacts>,
           mirrors: seq<Json>, signatures: seq<Json>)

  function ItemsOf(v: Option<Json>): seq<Json> { if v.Some? && v.value.List? then v.value.items else [] }

  function FactsOf(pkg: Json): Option<PackageFacts> {
    var repository := Lookup(pkg, "repository");
    var url, vcs := TextOf(Inside(repository, "url")), TextOf(Inside(repository, "vcs"));
    if url.None? then None
    else Some(PackageFacts(url.value, if vcs.Some? then vcs.value else Utf16("git"), TextOf(Lookup(pkg, "description"))))
  }

  function MetaOf(meta: Json): Meta {
    var pkg := Inside(Lookup(meta, "manifest"), "package");
    if !meta.Object? && !meta.List? then NotAnObject
    else if pkg.None? || (!pkg.value.Object? && !pkg.value.List?) then NoPackage
    else
      Meta(TextOf(Inside(pkg, "org")), TextOf(Inside(pkg, "name")), TextOf(Inside(pkg, "version")),
           VisibilityOf(meta), VisibilityOf(pkg.value),
           AsciiOf(Lookup(meta, "sha256")), IntegerOf(Lookup(meta, "size")), TextOf(Lookup(meta, "vcs_tag")),
           FormatOf(Lookup(meta, "format")), TextOf(Lookup(meta, "published_at")), TextOf(Lookup(meta, "vcs_commit")),
           FactsOf(pkg.value), ItemsOf(Lookup(meta, "mirrors")), ItemsOf(Lookup(meta, "signatures")))
  }

  // ----- the version document -----

  /** The version document consumers read. It has no `visibility` field. */
  datatype VersionDoc = VersionDoc(
    org: string, name: string, version: string, sha256: string, size: nat, format: string,
    vcsTag: Units, downloadUrl: string, publishedAt: Units, yanked: bool,
    vcsCommit: Option<Units>, facts: Option<PackageFacts>, mirrors: seq<Json>, signatures: seq<Json>)

  /** Properties by name, in insertion order. */
  type Properties = seq<(string, Json)>

  function Members(fields: Properties): (r: seq<Member>)
    ensures |r| == |fields| && forall i | 0 <= i < |r| :: r[i] == Member(Utf16(fields[i].0), fields[i].1)
  {
    if fields == [] then [] else [Member(Utf16(fields[0].0), fields[0].1)] + Members(fields[1..])
  }

  function Decimal(n: nat): Units { if n < 10 then [48 + n] else Decimal(n / 10) + [48 + n % 10] }

  function FactsValue(facts: PackageFacts): Json {
    Object(Members(
      [("repo_url", String(facts.repoUrl)), ("vcs", String(facts.vcs))]
      + if facts.description.Some? then [("description", String(facts.description.value))] else []))
  }

  function RequiredFields(d: VersionDoc): Properties {
    [("org", String(Utf16(d.org))), ("name", String(Utf16(d.name))), ("version", String(Utf16(d.version))),
     ("sha256", String(Utf16(d.sha256))), ("size", Number(Decimal(d.size))), ("format", String(Utf16(d.format))),
     ("vcs_tag", String(d.vcsTag)), ("download_url", String(Utf16(d.downloadUrl))),
     ("published_at", String(d.publishedAt)), ("yanked", Bool(d.yanked))]
  }

  function OptionalFields(d: VersionDoc): Properties {
    (if d.vcsCommit.Some? then [("vcs_commit", String(d.vcsCommit.value))] else [])
    + (if d.facts.Some? then [("package", FactsValue(d.facts.value))] else [])
    + (if d.mirrors != [] then [("mirrors", List(d.mirrors))] else [])
    + (if d.signatures != [] then [("signatures", List(d.signatures))] else [])
  }

  function DocumentFields(d: VersionDoc): Properties { RequiredFields(d) + OptionalFields(d) }

  function DocumentValue(d: VersionDoc): Json { Object(Members(DocumentFields(d))) }

  /** `JSON.stringify(versionMetadata)` */
  function DocumentText(d: VersionDoc): Units { Stringify(DocumentValue(d)) }

  /** The bytes R2 stores. */
  function DocumentBytes(d: VersionDoc): seq<Byte> { Utf8Bytes(DocumentText(d)) }

  // ----- looking properties up -----

  function Field(fields: Properties, key: string): Option<Json> {
    if fields == [] then None else if fields[0].0 == key then Some(fields[0].1) else Field(fields[1..], key)
  }

  /** Looking a property up goes by its name. */
  lemma {:induction false} LookupField(fields: Properties, key: string)
    ensures Lookup(Object(Members(fields)), key) == Field(fields, key)
  {
    if fields != [] {
      Utf16Injective(fields[0].0, key);
      LookupField(fields[1..], key);
      assert Members(fields)[1..] == Members(fields[1..]);
    }
  }

  predicate DistinctNames(fields: Properties) {
    forall i, j | 0 <= i < j < |fields| :: fields[i].0 != fields[j].0
  }

  lemma MembersDistinct(fields: Properties)
    requires DistinctNames(fields)
    ensures DistinctKeys(Members(fields))
  {
    forall i, j | 0 <= i < j < |fields| ensures Members(fields)[i].key != Members(fields)[j].key {
      Utf16Injective(fields[i].0, fields[j].0);
    }
  }

  lemma {:induction false} FieldAt(fields: Properties, i: nat)
    requires i < |fields| && DistinctNames(fields)
    ensures Field(fields, fields[i].0) == Some(fields[i].1)
  {
    if i > 0 {
      assert fields[0].0 != fields[i].0;
      FieldAt(fields[1..], i - 1);
    }
  }

  lemma {:induction false} FindIn(members: seq<Member>, key: Units)
    ensures Find(members, key).Some? <==> exists i :: 0 <= i < |members| && members[i].key == key
    ensures Find(members, key).Some? ==>
              exists i :: 0 <= i < |members| && members[i].key == key && members[i].value == Find(members, key).value
  {
    if members != [] && members[0].key != key {
      FindIn(members[1..], key);
      if i :| 0 <= i < |members| && members[i].key == key { assert members[1..][i - 1].key == key; }
      if Find(members[1..], key).Some? {
        var i :| 0 <= i < |members[1..]| && members[1..][i].key == key && members[1..][i].value == Find(members[1..], key).value;
        assert members[i + 1].key == key;
      }
    }
  }

  /** The same value, up to the order of properties, has the same properties. */
  lemma LookupSame(v: Json, w: Json, key: string)
    requires Same(v, w)
    ensures Lookup(v, key).Some? <==> Lookup(w, key).Some?
    ensures Lookup(v, key).Some? ==> Same(Lookup(v, key).value, Lookup(w, key).value)
  {
    if v.Object? {
      var k := Utf16(key);
      FindIn(v.members, k);
      FindIn(w.members, k);
      assert k in Keys(v.members) <==> k in Keys(w.members);
      if Find(v.members, k).Some? {
        var i :| 0 <= i < |v.members| && v.members[i].key == k && v.members[i].value == Find(v.members, k).value;
        var j :| 0 <= j < |w.members| && w.members[j].key == k && w.members[j].value == Find(w.members, k).value;
      }
    }
  }

  // ----- the document is a JSON value -----

  lemma {:induction false} DecimalIsNumeral(n: nat)
    ensures Numeral(Decimal(n)) && Digits(Decimal(n)) && DecimalOf(Decimal(n)) == n
  {
    if n >= 10 {
      DecimalIsNumeral(n / 10);
      assert Decimal(n)[..|Decimal(n)| - 1] == Decimal(n / 10);
    }
  }

  predicate AllJson(items: seq<Json>) { forall i | 0 <= i < |items| :: IsJson(items[i]) }

  lemma OptionalNames(d: VersionDoc)
    ensures DistinctNames(OptionalFields(d))
    ensures forall i | 0 <= i < |OptionalFields(d)| ::
              OptionalFields(d)[i].0 in {"vcs_commit", "package", "mirrors", "signatures"}
  {
  }

  lemma RequiredNames(d: VersionDoc)
    ensures DistinctNames(RequiredFields(d))
    ensures forall i | 0 <= i < |RequiredFields(d)| ::
              RequiredFields(d)[i].0 !in {"vcs_commit", "package", "mirrors", "signatures", "visibility"}
  {
  }

  lemma FieldsDistinct(d: VersionDoc)
    ensures DistinctNames(DocumentFields(d))
  {
    RequiredNames(d);
    OptionalNames(d);
    var a, b, all := RequiredFields(d), OptionalFields(d), DocumentFields(d);
    forall i, j | 0 <= i < j < |all| ensures all[i].0 != all[j].0 {
      if i >= |a| { assert b[i - |a|].0 != b[j - |a|].0; }
    }
  }

  lemma FactsIsJson(facts: PackageFacts)
    ensures IsJson(FactsValue(facts))
  {
    var fields := [("repo_url", String(facts.repoUrl)), ("vcs", String(facts.vcs))]
                  + if facts.description.Some? then [("description", String(facts.description.value))] else [];
    assert "repo_url" != "vcs" && "vcs" != "description" && "repo_url" != "description";
    MembersDistinct(fields);
  }

  lemma DocumentIsJson(d: VersionDoc)
    requires AllJson(d.mirrors) && AllJson(d.signatures)
    ensures IsJson(DocumentValue(d))
  {
    FieldsDistinct(d);
    MembersDistinct(DocumentFields(d));
    DecimalIsNumeral(d.size);
    if d.facts.Some? { FactsIsJson(d.facts.value); }
    RequiredAreJson(d);
    OptionalAreJson(d);
    var fields := DocumentFields(d);
    forall i | 0 <= i < |fields| ensures IsJson(Members(fields)[i].value) {
      if i >= |RequiredFields(d)| { assert fields[i] == OptionalFields(d)[i - |RequiredFields(d)|]; }
    }
  }

  lemma RequiredAreJson(d: VersionDoc)
    ensures forall i | 0 <= i < |RequiredFields(d)| :: IsJson(RequiredFields(d)[i].1)
  {
    DecimalIsNumeral(d.size);
  }

  lemma OptionalAreJson(d: VersionDoc)
    requires AllJson(d.mirrors) && AllJson(d.signatures)
    ensures forall i | 0 <= i < |OptionalFields(d)| :: IsJson(OptionalFields(d)[i].1)
  {
    if d.facts.Some? { FactsIsJson(d.facts.value); }
  }
}
