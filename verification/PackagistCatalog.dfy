/**
 * Versions and downloads of a Packagist package (workers/shared/native-packagist.js).
 *
 * The URL parser is a parameter.
 */
module PackagistCatalog {
  import opened Common
  import opened Routes
  import opened Packagist
  import opened Values
  import opened Urls
  import opened PercentDecoding
  import Strings = Text

  /** The repository and commit an archive is built from. */
  datatype Binding = Binding(owner: string, repo: string, reference: string)

  datatype Candidate = Candidate(url: string, publishedAt: Option<Value>, validation: Binding)

  predicate PartChar(c: char) { AlnumChar(c) || c == '.' || c == '_' || c == '-' }

  predicate SafeGithubPart(s: string) {
    && 1 <= |s| <= 100 && AlnumChar(s[0]) && (forall i | 0 <= i < |s| :: PartChar(s[i]))
    && !Strings.HasDouble(s, '.')
  }

  predicate GitReference(s: string) { (|s| == 40 || |s| == 64) && forall i | 0 <= i < |s| :: Hex(s[i]) }

  predicate SafeVersion(s: string) {
    && 1 <= |s| <= 128 && AlnumChar(s[0])
    && (forall i | 0 <= i < |s| :: AlnumChar(s[i]) || s[i] in ".!_+~-")
    && !Strings.HasDouble(s, '.')
    && !("dev-" <= Strings.Lower(s)) && !Strings.EndsWith(Strings.Lower(s), "-dev")
  }

  predicate SafeComponent(s: string) {
    1 <= |s| <= 192 && AlnumChar(s[0]) && forall i | 0 <= i < |s| :: PartChar(s[i])
  }

  /** `packagistCoordinate(...) !== null` */
  predicate ValidCoordinate(coordinate: string) {
    && !Strings.HasDouble(coordinate, '.') && '\\' !in coordinate
    && var parts := Strings.Split(coordinate, '/'); |parts| == 2 && SafeComponent(parts[0]) && SafeComponent(parts[1])
  }

  // ----- reading an expanded version -----

  /** `entry[key]`, which looks at the prototype when the property is missing. */
  function Get(e: Entry, key: string): Option<Value> {
    if key in e.own then Some(e.own[key])
    else if e.proto.Some? && key in e.proto.value then Some(e.proto.value[key])
    else None
  }

  function JoinStrings(items: seq<Value>): string {
    if items == [] then ""
    else if |items| == 1 then ElementString(items[0])
    else ElementString(items[0]) + "," + JoinStrings(items[1..])
  }

  /** How an array prints an element. */
  function ElementString(v: Value): string {
    match v
    case Null => ""
    case Bool(b) => if b then "true" else "false"
    case Number(n, _) => n
    case Text(t) => t
    case List(items) => JoinStrings(items)
    case Record(_) => "[object Object]"
  }

  /** `String(value || "")` */
  function StringOr(v: Option<Value>): string { if Truthy(v) then ElementString(v.value) else "" }

  function TrimSlashes(s: string): string { Strings.TrimEnd(TrimStart(s), '/') }

  function TrimStart(s: string): string {
    if s != "" && s[0] == '/' then TrimStart(s[1..]) else s
  }

  function GithubRepository(parse: Parser, value: Option<Value>): Option<(string, string)> {
    var text := TextOf(value);
    if text.None? then None
    else
      var t := text.value;
      var url := parse(if Strings.EndsWith(t, ".git") then t[..|t| - 4] else t);
      if url.None? || url.value.protocol != "https:" || url.value.hostname != "github.com" || !Bare(url.value) then None
      else
        var parts := Strings.Split(TrimSlashes(url.value.pathname), '/');
        if |parts| != 2 || !SafeGithubPart(parts[0]) || !SafeGithubPart(parts[1]) then None
        else Some((parts[0], parts[1]))
  }

  function GithubApiZipball(parse: Parser, value: Option<Value>): Option<Binding> {
    var text := TextOf(value);
    if text.None? then None
    else
      var url := parse(text.value);
      if url.None? || url.value.protocol != "https:" || url.value.hostname != "api.github.com" || !Bare(url.value) then None
      else
        var parts := Strings.Split(url.value.pathname, '/');
        if |parts| != 6 || parts[0] != "" || Strings.Lower(parts[1]) != "repos" || parts[2] == "" || parts[3] == ""
           || Strings.Lower(parts[4]) != "zipball" || !GitReference(Strings.Lower(parts[5]))
        then None
        else
          var owner, repo := DecodeUriComponent(parts[2]), DecodeUriComponent(parts[3]);
          if owner.None? || repo.None? || !SafeGithubPart(owner.value) || !SafeGithubPart(repo.value) then None
          else Some(Binding(owner.value, repo.value, Strings.Lower(parts[5])))
  }

  predicate NoChecksum(shasum: Option<Value>) { shasum.None? || shasum.value == Null || shasum.value == Text("") }

  /** `packagistGithubZip` */
  function GithubZip(parse: Parser, e: Entry, coordinate: string): Option<Binding> {
    var version, dist, source := TextOf(Get(e, "version")), Get(e, "dist"), Get(e, "source");
    if TextOf(Get(e, "name")) != Some(coordinate) || version.None? || !SafeVersion(version.value) then None
    else if dist.None? || !dist.value.Record? || Property(dist.value, "type") != Some(Text("zip")) then None
    else if !NoChecksum(Property(dist.value, "shasum")) then None
    else
      var reference := Strings.Lower(StringOr(Property(dist.value, "reference")));
      if !GitReference(reference) then None
      else if source.None? || !source.value.Record? || Property(source.value, "type") != Some(Text("git"))
              || Strings.Lower(StringOr(Property(source.value, "reference"))) != reference then None
      else
        var repository := GithubRepository(parse, Property(source.value, "url"));
        var advertised := GithubApiZipball(parse, Property(dist.value, "url"));
        if repository.None? || advertised.None?
           || Strings.Lower(advertised.value.owner) != Strings.Lower(repository.value.0)
           || Strings.Lower(advertised.value.repo) != Strings.Lower(repository.value.1)
           || advertised.value.reference != reference
        then None
        else Some(Binding(repository.value.0, repository.value.1, reference))
  }

  function VersionOf(e: Entry): Option<string> { TextOf(Get(e, "version")) }

  // ----- packagistVersions, packagistDownload, packagistLatest -----

  /** `expandPackagistVersions`, with its test of the coordinate. */
  function Versions(body: Value, coordinate: string): seq<Entry> {
    if ValidCoordinate(coordinate) then Expand(body, coordinate) else []
  }

  /** What the catalog reads of an expanded version. */
  datatype Row = Row(version: Option<string>, binding: Option<Binding>, time: Option<Value>)

  function RowOf(parse: Parser, e: Entry, coordinate: string): Row {
    Row(VersionOf(e), GithubZip(parse, e, coordinate), Get(e, "time"))
  }

  function Rows(parse: Parser, entries: seq<Entry>, coordinate: string): (rows: seq<Row>)
    ensures |rows| == |entries| && forall i | 0 <= i < |rows| :: rows[i] == RowOf(parse, entries[i], coordinate)
  {
    if entries == [] then []
    else Rows(parse, entries[..|entries| - 1], coordinate) + [RowOf(parse, entries[|entries| - 1], coordinate)]
  }

  function Catalog(parse: Parser, body: Value, coordinate: string): seq<Row> {
    Rows(parse, Versions(body, coordinate), coordinate)
  }

  predicate Binds(r: Row) { r.binding.Some? && r.version.Some? }

  /** Versions that bind, in order of first appearance. */
  function Listed(rows: seq<Row>): seq<string> {
    if rows == [] then []
    else
      var before := Listed(rows[..|rows| - 1]);
      var r := rows[|rows| - 1];
      if Binds(r) && r.version.value !in before then before + [r.version.value] else before
  }

  /** Only entries with a safe version are bound. */
  lemma BoundVersion(parse: Parser, e: Entry, coordinate: string)
    ensures GithubZip(parse, e, coordinate).Some? ==> VersionOf(e).Some? && SafeVersion(VersionOf(e).value)
  {
  }

  method PackagistVersions(parse: Parser, body: Value, coordinate: string) returns (versions: seq<string>)
    ensures versions == Listed(Catalog(parse, body, coordinate))
  {
    var entries: seq<Entry> := [];
    if ValidCoordinate(coordinate) { entries := ExpandPackagistVersions(body, coordinate); }
    CatalogBinds(parse, body, coordinate);
    versions := ListRows(Rows(parse, entries, coordinate));
  }

  method ListRows(rows: seq<Row>) returns (versions: seq<string>)
    requires forall r | r in rows :: r.binding.Some? ==> r.version.Some?
    ensures versions == Listed(rows)
  {
    versions := [];
    var seen: set<string> := {};
    for i := 0 to |rows|
      invariant versions == Listed(rows[..i])
      invariant seen == set v | v in versions
    {
      assert rows[..i + 1][..i] == rows[..i];
      if rows[i].binding.None? || rows[i].version.value in seen { continue; }
      seen := seen + {rows[i].version.value};
      versions := versions + [rows[i].version.value];
    }
    assert rows[..|rows|] == rows;
  }

  function Find(rows: seq<Row>, version: string): Option<Row> {
    if rows == [] then None
    else if rows[0].version == Some(version) then Some(rows[0])
    else Find(rows[1..], version)
  }

  function ArchivePath(b: Binding): string {
    "/" + EncodeComponent(b.owner) + "/" + EncodeComponent(b.repo) + "/zip/" + b.reference
  }

  function Offer(row: Option<Row>): Option<Candidate> {
    if row.None? || row.value.binding.None? then None
    else
      var b := row.value.binding.value;
      Some(Candidate("https://codeload.github.com" + ArchivePath(b), row.value.time, b))
  }

  function Download(parse: Parser, body: Value, coordinate: string, version: string): Option<Candidate> {
    if !SafeVersion(version) then None else Offer(Find(Catalog(parse, body, coordinate), version))
  }

  function LatestOf(rows: seq<Row>, versions: seq<string>): Option<string> {
    if rows == [] then if versions == [] then None else Some(versions[0])
    else if rows[0].version.Some? && rows[0].version.value in versions then rows[0].version
    else LatestOf(rows[1..], versions)
  }

  /** `isAllowedPackagistDownloadUrl` */
  predicate Allowed(parse: Parser, rawUrl: string, c: Candidate) {
    var b := c.validation;
    && SafeGithubPart(b.owner) && SafeGithubPart(b.repo) && GitReference(b.reference)
    && var url := parse(rawUrl);
       && url.Some? && url.value.protocol == "https:" && url.value.hostname == "codeload.github.com" && Bare(url.value)
       && url.value.pathname == ArchivePath(b) && rawUrl == c.url
  }

  // ----- listed and downloadable versions -----

  predicate Distinct(versions: seq<string>) {
    forall i, j | 0 <= i < j < |versions| :: versions[i] != versions[j]
  }

  predicate BindsAs(r: Row, version: string) { Binds(r) && r.version == Some(version) }

  /** The list holds exactly the versions of binding entries, each once. */
  lemma {:induction false} ListedExactly(rows: seq<Row>, version: string)
    ensures version in Listed(rows) <==> exists i :: 0 <= i < |rows| && BindsAs(rows[i], version)
    ensures Distinct(Listed(rows))
  {
    if rows != [] {
      var n := |rows| - 1;
      var front := rows[..n];
      ListedExactly(front, version);
      if version in Listed(front) {
        var i :| 0 <= i < n && BindsAs(front[i], version);
        assert BindsAs(rows[i], version);
      }
      if i :| 0 <= i < |rows| && BindsAs(rows[i], version) {
        if i < n { assert BindsAs(front[i], version); }
      }
    }
  }

  /** Entry `i` is the first that carries the version. */
  predicate FirstAt(rows: seq<Row>, version: string, i: int) {
    && 0 <= i < |rows| && rows[i].version == Some(version)
    && forall j | 0 <= j < i :: rows[j].version != Some(version)
  }

  lemma {:induction false} FindFirst(rows: seq<Row>, version: string) returns (i: nat)
    ensures Find(rows, version).Some? ==> FirstAt(rows, version, i) && rows[i] == Find(rows, version).value
    ensures Find(rows, version).None? ==> forall j | 0 <= j < |rows| :: rows[j].version != Some(version)
  {
    i := 0;
    if rows != [] && rows[0].version != Some(version) {
      var k := FindFirst(rows[1..], version);
      i := k + 1;
      forall j | 0 <= j < i && j < |rows| ensures rows[j].version != Some(version) || Find(rows, version).None? {
        if j > 0 { assert rows[1..][j - 1] == rows[j]; }
      }
      if Find(rows, version).None? {
        forall j | 0 <= j < |rows| ensures rows[j].version != Some(version) {
          if j > 0 { assert rows[1..][j - 1] == rows[j]; }
        }
      }
    }
  }

  predicate UniqueVersions(rows: seq<Row>) {
    forall i, j | 0 <= i < j < |rows| && rows[i].version.Some? :: rows[i].version != rows[j].version
  }

  lemma CatalogBinds(parse: Parser, body: Value, coordinate: string)
    ensures forall r | r in Catalog(parse, body, coordinate) ::
              r.binding.Some? ==> r.version.Some? && SafeVersion(r.version.value)
  {
    var entries := Versions(body, coordinate);
    forall i | 0 <= i < |entries|
      ensures var r := RowOf(parse, entries[i], coordinate);
              r.binding.Some? ==> r.version.Some? && SafeVersion(r.version.value)
    {
      BoundVersion(parse, entries[i], coordinate);
    }
  }

  lemma OfferExactly(rows: seq<Row>, version: string)
    requires forall r | r in rows :: r.binding.Some? ==> r.version.Some?
    ensures Offer(Find(rows, version)).Some? <==>
            version in Listed(rows) && exists i :: FirstAt(rows, version, i) && rows[i].binding.Some?
  {
    ListedExactly(rows, version);
    var i := FindFirst(rows, version);
    if Offer(Find(rows, version)).Some? { assert BindsAs(rows[i], version); }
    if k :| FirstAt(rows, version, k) && rows[k].binding.Some? { assert k == i; }
  }

  /**
   * A version can be downloaded exactly when it is listed and the first entry
   * that carries it is bound to an archive.
   */
  lemma DownloadExactly(parse: Parser, body: Value, coordinate: string, version: string)
    ensures var rows := Catalog(parse, body, coordinate);
            Download(parse, body, coordinate, version).Some? <==>
            version in Listed(rows) && exists i :: FirstAt(rows, version, i) && rows[i].binding.Some?
  {
    var rows := Catalog(parse, body, coordinate);
    CatalogBinds(parse, body, coordinate);
    OfferExactly(rows, version);
    ListedExactly(rows, version);
    if version in Listed(rows) {
      var k :| 0 <= k < |rows| && BindsAs(rows[k], version);
      assert rows[k] in rows;
    }
  }

  /** When no two entries carry the same version, listed and downloadable agree. */
  lemma UniqueDownloads(parse: Parser, body: Value, coordinate: string, version: string)
    requires UniqueVersions(Catalog(parse, body, coordinate))
    ensures Download(parse, body, coordinate, version).Some? <==>
            version in Listed(Catalog(parse, body, coordinate))
  {
    var rows := Catalog(parse, body, coordinate);
    DownloadExactly(parse, body, coordinate, version);
    ListedExactly(rows, version);
    if version in Listed(rows) {
      var i :| 0 <= i < |rows| && BindsAs(rows[i], version);
      assert FirstAt(rows, version, i);
    }
  }

  lemma ShadowedRows(rows: seq<Row>, version: string, i: nat)
    requires 0 < i < |rows| && rows[0].version == Some(version) && rows[0].binding.None? && BindsAs(rows[i], version)
    ensures version in Listed(rows) && LatestOf(rows, Listed(rows)) == Some(version)
    ensures Offer(Find(rows, version)).None?
  {
    ListedExactly(rows, version);
  }

  /** An unbound entry in front of a bound one with the same version hides it:
      the version is listed and offered as the latest, but not downloaded. */
  lemma ShadowedVersion(parse: Parser, body: Value, coordinate: string, version: string, i: nat)
    requires 0 < i < |Catalog(parse, body, coordinate)|
    requires var rows := Catalog(parse, body, coordinate);
             rows[0].version == Some(version) && rows[0].binding.None? && BindsAs(rows[i], version)
    ensures var rows := Catalog(parse, body, coordinate);
            version in Listed(rows) && LatestOf(rows, Listed(rows)) == Some(version)
    ensures Download(parse, body, coordinate, version).None?
  {
    ShadowedRows(Catalog(parse, body, coordinate), version, i);
  }

  lemma {:induction false} LatestIsListed(rows: seq<Row>, versions: seq<string>)
    ensures LatestOf(rows, versions).None? <==> versions == []
    ensures LatestOf(rows, versions).Some? ==> LatestOf(rows, versions).value in versions
  {
    if rows != [] { LatestIsListed(rows[1..], versions); }
  }

  // ----- reading values as JavaScript does -----

  /** A property of the entry, or else of its prototype. */
  lemma GetExactly(e: Entry, key: string, value: Value)
    ensures Get(e, key) == Some(value) <==>
            || (key in e.own && e.own[key] == value)
            || (key !in e.own && e.proto.Some? && key in e.proto.value && e.proto.value[key] == value)
  {
  }

  /** The texts of a list's elements. */
  function ElementStrings(items: seq<Value>): seq<string> {
    if items == [] then [] else [ElementString(items[0])] + ElementStrings(items[1..])
  }

  /** A list prints its elements between commas, `null` as nothing. */
  lemma {:induction false} ListString(items: seq<Value>)
    ensures ElementString(List(items)) == Strings.Join(ElementStrings(items), ",")
    ensures ElementString(Null) == "" && ElementString(Bool(true)) == "true" && ElementString(Bool(false)) == "false"
  {
    if |items| == 1 {
      assert items[1..] == [];
    } else if items != [] {
      ListString(items[1..]);
      assert ElementStrings(items[1..]) != [];
      Strings.JoinCons(ElementString(items[0]), ElementStrings(items[1..]), ",");
    }
  }

  /** A coordinate that is none has no versions and no downloads. */
  lemma NoCoordinate(parse: Parser, body: Value, coordinate: string, version: string)
    requires !ValidCoordinate(coordinate)
    ensures Catalog(parse, body, coordinate) == [] && Download(parse, body, coordinate, version).None?
  {
  }

  // ----- which entry counts -----

  /** Entry `k` is the first that binds with this version. */
  predicate FirstBound(rows: seq<Row>, version: string, k: int) {
    0 <= k < |rows| && BindsAs(rows[k], version) && forall j | 0 <= j < k :: !BindsAs(rows[j], version)
  }

  lemma {:induction false} BoundFirst(rows: seq<Row>, version: string) returns (k: nat)
    requires version in Listed(rows)
    ensures FirstBound(rows, version, k)
  {
    var n := |rows| - 1;
    if version in Listed(rows[..n]) {
      k := BoundFirst(rows[..n], version);
      assert forall j | 0 <= j <= k :: rows[..n][j] == rows[j];
    } else {
      k := n;
      ListedExactly(rows[..n], version);
      assert forall j | 0 <= j < n :: rows[..n][j] == rows[j];
    }
  }

  /** Versions are listed in the order in which their first bound entries come. */
  lemma {:induction false} ListedInOrder(rows: seq<Row>, i: nat, j: nat) returns (k: nat, l: nat)
    requires i < j < |Listed(rows)|
    ensures k < l && FirstBound(rows, Listed(rows)[i], k) && FirstBound(rows, Listed(rows)[j], l)
  {
    var n := |rows| - 1;
    var front := Listed(rows[..n]);
    if j < |front| {
      k, l := ListedInOrder(rows[..n], i, j);
      assert forall m | 0 <= m < n :: rows[..n][m] == rows[m];
    } else {
      ListedExactly(rows, Listed(rows)[i]);
      ListedExactly(rows[..n], Listed(rows)[j]);
      assert Listed(rows)[i] == front[i];
      k := BoundFirst(rows[..n], front[i]);
      assert forall m | 0 <= m < n :: rows[..n][m] == rows[m];
      l := n;
    }
  }

  predicate OffersLatest(r: Row, versions: seq<string>) { r.version.Some? && r.version.value in versions }

  /** The latest version is that of the first entry, bound or not, whose version
      is listed; without one it is the head of the list. */
  lemma {:induction false} LatestExactly(rows: seq<Row>, versions: seq<string>, version: string)
    ensures LatestOf(rows, versions) == Some(version) <==>
            || (exists k :: 0 <= k < |rows| && OffersLatest(rows[k], versions) && rows[k].version == Some(version)
                            && forall j | 0 <= j < k :: !OffersLatest(rows[j], versions))
            || (versions != [] && version == versions[0] && forall j | 0 <= j < |rows| :: !OffersLatest(rows[j], versions))
  {
    if rows != [] && !OffersLatest(rows[0], versions) {
      LatestExactly(rows[1..], versions, version);
      assert forall j | 0 < j < |rows| :: rows[j] == rows[1..][j - 1];
      if k :| 0 <= k < |rows[1..]| && OffersLatest(rows[1..][k], versions) && rows[1..][k].version == Some(version)
              && forall j | 0 <= j < k :: !OffersLatest(rows[1..][j], versions)
      {
        assert OffersLatest(rows[k + 1], versions);
        assert forall j | 0 <= j < k + 1 :: !OffersLatest(rows[j], versions);
      }
      if k :| 0 <= k < |rows| && OffersLatest(rows[k], versions) && rows[k].version == Some(version)
              && forall j | 0 <= j < k :: !OffersLatest(rows[j], versions)
      {
        assert OffersLatest(rows[1..][k - 1], versions);
        assert forall j | 0 <= j < k - 1 :: rows[1..][j] == rows[j + 1];
      }
    } else if rows != [] {
      assert OffersLatest(rows[0], versions);
    }
  }

  /** A URL is allowed exactly when it is the candidate's and parses to the archive on its host, and nothing more. */
  lemma AllowedExactly(parse: Parser, rawUrl: string, c: Candidate)
    ensures Allowed(parse, rawUrl, c) <==>
            && SafeBinding(c.validation) && rawUrl == c.url
            && parse(rawUrl) == Some(Url("https:", "", "", "codeload.github.com", "", ArchivePath(c.validation), "", ""))
  {
  }

  // ----- candidates -----

  lemma SafePartUnreserved(s: string)
    requires SafeGithubPart(s)
    ensures EncodeComponent(s) == s && '/' !in s && s != "." && s != ".."
  {
    EncodeUnreserved(s);
  }

  predicate SafeBinding(b: Binding) { SafeGithubPart(b.owner) && SafeGithubPart(b.repo) && GitReference(b.reference) }

  lemma BoundSafely(parse: Parser, e: Entry, coordinate: string)
    ensures var b := GithubZip(parse, e, coordinate); b.Some? ==> SafeBinding(b.value)
  {
  }

  lemma NestFour(a: string, b: string, c: string, d: string)
    ensures "/" + a + "/" + b + "/" + c + "/" + d == "" + "/" + (a + "/" + (b + "/" + (c + "/" + d)))
  {
    var x := c + "/" + d;
    assert "/" + a + "/" + b + "/" + c + "/" + d == "/" + a + "/" + b + "/" + x;
    var y := b + "/" + x;
    assert "/" + a + "/" + b + "/" + x == "/" + a + "/" + y;
  }

  lemma SplitFour(a: string, b: string, c: string, d: string)
    requires '/' !in a && '/' !in b && '/' !in c && '/' !in d
    ensures Strings.Split("/" + a + "/" + b + "/" + c + "/" + d, '/') == ["", a, b, c, d]
  {
    var x := c + "/" + d;
    var y := b + "/" + x;
    var z := a + "/" + y;
    Strings.SplitAtom(d, '/');
    Strings.SplitOnto(c, d);
    Strings.SplitOnto(b, x);
    Strings.SplitOnto(a, y);
    Strings.SplitOnto("", z);
    NestFour(a, b, c, d);
  }

  /** `/owner/repo/zip/reference` reads as its four segments. */
  lemma ArchiveSegments(b: Binding)
    requires SafeBinding(b)
    ensures ArchivePath(b) == "/" + b.owner + "/" + b.repo + "/" + "zip" + "/" + b.reference
    ensures Strings.Split(ArchivePath(b), '/') == ["", b.owner, b.repo, "zip", b.reference]
  {
    SafePartUnreserved(b.owner);
    SafePartUnreserved(b.repo);
    assert '/' !in b.reference;
    SplitFour(b.owner, b.repo, "zip", b.reference);
    var head := "/" + b.owner + "/" + b.repo;
    assert head + "/zip/" + b.reference == head + "/" + "zip" + "/" + b.reference;
  }

  /** The archive URL determines owner, repository and commit. */
  lemma UrlDeterminesBinding(a: Binding, b: Binding)
    requires SafeBinding(a) && SafeBinding(b)
    ensures ArchivePath(a) == ArchivePath(b) <==> a == b
  {
    ArchiveSegments(a);
    ArchiveSegments(b);
    if ArchivePath(a) == ArchivePath(b) {
      var x, y := ["", a.owner, a.repo, "zip", a.reference], ["", b.owner, b.repo, "zip", b.reference];
      assert x[1] == y[1] && x[2] == y[2] && x[4] == y[4];
    }
  }

  predicate PathText(s: string) { forall i | 0 <= i < |s| :: AlnumChar(s[i]) || s[i] in "._-/" }

  lemma PathTextConcat(a: string, b: string)
    requires PathText(a) && PathText(b)
    ensures PathText(a + b)
  {
  }

  lemma ArchivePathPlain(b: Binding)
    requires SafeBinding(b)
    ensures PlainPath(ArchivePath(b))
  {
    ArchiveSegments(b);
    SafePartUnreserved(b.owner);
    SafePartUnreserved(b.repo);
    PathTextConcat("/", b.owner);
    PathTextConcat("/" + b.owner, "/");
    PathTextConcat("/" + b.owner + "/", b.repo);
    PathTextConcat("/" + b.owner + "/" + b.repo, "/");
    PathTextConcat("/" + b.owner + "/" + b.repo + "/", "zip");
    PathTextConcat("/" + b.owner + "/" + b.repo + "/" + "zip", "/");
    PathTextConcat("/" + b.owner + "/" + b.repo + "/" + "zip" + "/", b.reference);
    assert PathText(ArchivePath(b));
  }

  lemma OfferAllowed(parse: Parser, b: Binding, c: Candidate)
    requires ParsesPlainly(parse, "codeload.github.com") && SafeBinding(b)
    requires c.validation == b && c.url == "https://codeload.github.com" + ArchivePath(b)
    ensures Allowed(parse, c.url, c)
  {
    ArchivePathPlain(b);
    var path := ArchivePath(b);
    assert "https://" + "codeload.github.com" == "https://codeload.github.com";
    assert parse("https://" + "codeload.github.com" + path)
        == Some(Url("https:", "", "", "codeload.github.com", "", path, "", ""));
  }

  /** Every download the catalog offers passes the validator of download URLs. */
  lemma CandidateAllowed(parse: Parser, body: Value, coordinate: string, version: string)
    requires ParsesPlainly(parse, "codeload.github.com")
    ensures var c := Download(parse, body, coordinate, version); c.Some? ==> Allowed(parse, c.value.url, c.value)
  {
    var rows := Catalog(parse, body, coordinate);
    var c := Download(parse, body, coordinate, version);
    if c.Some? {
      var i := FindFirst(rows, version);
      BoundSafely(parse, Versions(body, coordinate)[i], coordinate);
      OfferAllowed(parse, c.value.validation, c.value);
    }
  }
}
