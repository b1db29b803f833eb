/**
 * Packagist metadata that binds any archive at all, and metadata whose listed
 * and latest version can not be downloaded.
 */
module PackagistExamples {
  import opened Common
  import opened Routes
  import opened Packagist
  import opened PackagistCatalog
  import opened Values
  import opened Urls
  import opened PercentDecoding
  import NativeUrls
  import Strings = Text

  // ----- reading records by field -----

  lemma {:induction false} PropertyAt(fields: Fields, i: nat)
    requires i < |fields| && DistinctKeys(fields)
    ensures fields[i].0 in Properties(fields) && Properties(fields)[fields[i].0] == fields[i].1
  {
    var n := |fields| - 1;
    if i < n { PropertyAt(fields[..n], i); }
  }

  lemma {:induction false} PropertyAbsent(fields: Fields, key: string)
    requires forall i | 0 <= i < |fields| :: fields[i].0 != key
    ensures key !in Properties(fields)
  {
    if fields != [] { PropertyAbsent(fields[..|fields| - 1], key); }
  }

  // ----- an entry that binds -----

  function RepoPath(b: Binding): string { "/" + b.owner + "/" + b.repo }

  function ZipballPath(b: Binding): string { "/repos/" + b.owner + "/" + b.repo + "/zipball/" + b.reference }

  function Source(b: Binding): Fields {
    [("type", Text("git")), ("url", Text("https://" + "github.com" + RepoPath(b) + ".git")), ("reference", Text(b.reference))]
  }

  function Dist(b: Binding): Fields {
    [("type", Text("zip")), ("url", Text("https://" + "api.github.com" + ZipballPath(b))), ("reference", Text(b.reference))]
  }

  function BoundEntry(b: Binding, coordinate: string, version: string): Fields {
    [("name", Text(coordinate)), ("version", Text(version)), ("source", Record(Source(b))), ("dist", Record(Dist(b)))]
  }

  lemma SourceFields(b: Binding)
    ensures var v := Record(Source(b));
            && Property(v, "type") == Some(Text("git")) && Property(v, "reference") == Some(Text(b.reference))
            && Property(v, "url") == Some(Text("https://" + "github.com" + RepoPath(b) + ".git"))
  {
    var fields := Source(b);
    assert fields[0].0 == "type" && fields[1].0 == "url" && fields[2].0 == "reference";
    PropertyAt(fields, 0);
    PropertyAt(fields, 1);
    PropertyAt(fields, 2);
  }

  lemma DistFields(b: Binding)
    ensures var v := Record(Dist(b));
            && Property(v, "type") == Some(Text("zip")) && Property(v, "reference") == Some(Text(b.reference))
            && Property(v, "url") == Some(Text("https://" + "api.github.com" + ZipballPath(b)))
            && Property(v, "shasum").None?
  {
    var fields := Dist(b);
    assert fields[0].0 == "type" && fields[1].0 == "url" && fields[2].0 == "reference";
    PropertyAt(fields, 0);
    PropertyAt(fields, 1);
    PropertyAt(fields, 2);
    PropertyAbsent(fields, "shasum");
  }

  lemma EntryFields(b: Binding, coordinate: string, version: string)
    ensures var e := Clone(BoundEntry(b, coordinate, version));
            && Get(e, "name") == Some(Text(coordinate)) && Get(e, "version") == Some(Text(version))
            && Get(e, "source") == Some(Record(Source(b))) && Get(e, "dist") == Some(Record(Dist(b)))
  {
    var fields := BoundEntry(b, coordinate, version);
    assert fields[0].0 == "name" && fields[1].0 == "version" && fields[2].0 == "source" && fields[3].0 == "dist";
    PropertyAt(fields, 0);
    PropertyAt(fields, 1);
    PropertyAt(fields, 2);
    PropertyAt(fields, 3);
  }

  lemma PartFacts(s: string)
    requires SafeGithubPart(s)
    ensures '/' !in s && s != "" && s != "." && s != ".." && DecodeUriComponent(s) == Some(s)
    ensures s[0] != '/' && s[|s| - 1] != '/'
  {
    EncodeUnreserved(s);
    NativeUrls.DecodeEncode(s);
    assert s[0] in s && s[|s| - 1] in s;
  }

  lemma RepoSegments(b: Binding)
    requires SafeBinding(b)
    ensures Strings.Split(RepoPath(b), '/') == ["", b.owner, b.repo]
    ensures Strings.Split(b.owner + "/" + b.repo, '/') == [b.owner, b.repo]
    ensures TrimSlashes(RepoPath(b)) == b.owner + "/" + b.repo && PlainPath(RepoPath(b))
  {
    PartFacts(b.owner);
    PartFacts(b.repo);
    var tail := b.owner + "/" + b.repo;
    Strings.SplitAtom(b.repo, '/');
    Strings.SplitOnto(b.owner, b.repo);
    Strings.SplitOnto("", tail);
    assert RepoPath(b) == "" + "/" + tail;
    assert RepoPath(b)[1..] == tail && tail[0] == b.owner[0] && tail[|tail| - 1] == b.repo[|b.repo| - 1];
    Unslashed(RepoPath(b), tail);
    PathTextConcat("/", b.owner);
    PathTextConcat("/" + b.owner, "/");
    PathTextConcat("/" + b.owner + "/", b.repo);
    assert PathText(RepoPath(b));
  }

  lemma Unslashed(path: string, tail: string)
    requires path == "/" + tail && tail != "" && tail[0] != '/' && tail[|tail| - 1] != '/'
    ensures TrimSlashes(path) == tail
  {
    assert path[1..] == tail;
    assert PackagistCatalog.TrimStart(tail) == tail;
    assert PackagistCatalog.TrimStart(path) == PackagistCatalog.TrimStart(path[1..]);
  }

  lemma ZipballSegments(b: Binding)
    requires SafeBinding(b)
    ensures Strings.Split(ZipballPath(b), '/') == ["", "repos", b.owner, b.repo, "zipball", b.reference]
  {
    PartFacts(b.owner);
    PartFacts(b.repo);
    var x := "zipball" + "/" + b.reference;
    var y := b.repo + "/" + x;
    var z := b.owner + "/" + y;
    var t := "repos" + "/" + z;
    Strings.SplitAtom(b.reference, '/');
    Strings.SplitOnto("zipball", b.reference);
    Strings.SplitOnto(b.repo, x);
    Strings.SplitOnto(b.owner, y);
    Strings.SplitOnto("repos", z);
    Strings.SplitOnto("", t);
    ZipballNested(b.owner, b.repo, b.reference);
  }

  lemma ZipballNested(owner: string, repo: string, reference: string)
    ensures "/repos/" + owner + "/" + repo + "/zipball/" + reference ==
            "" + "/" + ("repos" + "/" + (owner + "/" + (repo + "/" + ("zipball" + "/" + reference))))
  {
    var x := "zipball" + "/" + reference;
    assert "/zipball/" + reference == "/" + x;
    assert "/repos/" + owner + "/" + repo + "/zipball/" + reference == "/repos/" + owner + "/" + repo + ("/" + x);
    var y := repo + "/" + x;
    assert "/repos/" + owner + "/" + repo + ("/" + x) == "/repos/" + owner + "/" + y;
    var z := owner + "/" + y;
    assert "/repos/" + owner + "/" + y == "/repos/" + z;
    assert "/repos/" + z == "" + "/" + ("repos" + "/" + z);
  }

  lemma ZipballPlain(b: Binding)
    requires SafeBinding(b)
    ensures PlainPath(ZipballPath(b))
  {
    ZipballSegments(b);
    PartFacts(b.owner);
    PartFacts(b.repo);
    PathTextConcat("/repos/", b.owner);
    PathTextConcat("/repos/" + b.owner, "/");
    PathTextConcat("/repos/" + b.owner + "/", b.repo);
    PathTextConcat("/repos/" + b.owner + "/" + b.repo, "/zipball/");
    PathTextConcat("/repos/" + b.owner + "/" + b.repo + "/zipball/", b.reference);
    assert PathText(ZipballPath(b));
  }

  lemma LowerReference(reference: string)
    requires GitReference(reference)
    ensures Strings.Lower(reference) == reference
  {
  }

  lemma RepositoryRead(parse: Parser, b: Binding)
    requires ParsesPlainly(parse, "github.com") && SafeBinding(b)
    ensures GithubRepository(parse, Some(Text("https://" + "github.com" + RepoPath(b) + ".git"))) == Some((b.owner, b.repo))
  {
    RepoSegments(b);
    var url := "https://" + "github.com" + RepoPath(b);
    assert (url + ".git")[..|url + ".git"| - 4] == url;
    assert Strings.EndsWith(url + ".git", ".git");
    assert parse(url).Some?;
  }

  lemma ZipballRead(parse: Parser, b: Binding)
    requires ParsesPlainly(parse, "api.github.com") && SafeBinding(b)
    ensures GithubApiZipball(parse, Some(Text("https://" + "api.github.com" + ZipballPath(b)))) == Some(b)
  {
    ZipballSegments(b);
    ZipballPlain(b);
    PartFacts(b.owner);
    PartFacts(b.repo);
    LowerReference(b.reference);
    assert Strings.Lower("repos") == "repos" && Strings.Lower("zipball") == "zipball";
    assert parse("https://" + "api.github.com" + ZipballPath(b)).Some?;
  }

  /** Every archive that a binding can name is bound by some entry. */
  lemma EntryBinds(parse: Parser, b: Binding, coordinate: string, version: string)
    requires ParsesPlainly(parse, "github.com") && ParsesPlainly(parse, "api.github.com")
    requires SafeBinding(b) && SafeVersion(version)
    ensures GithubZip(parse, Clone(BoundEntry(b, coordinate, version)), coordinate) == Some(b)
  {
    EntryFields(b, coordinate, version);
    SourceFields(b);
    DistFields(b);
    LowerReference(b.reference);
    RepositoryRead(parse, b);
    ZipballRead(parse, b);
  }

  // ----- a version behind an unbound entry -----

  /** An entry with nothing but its version, and a bound one after it. */
  function ShadowedBody(b: Binding, coordinate: string, version: string): Value {
    Record([("packages", Record([(coordinate, List([
      Record([("version", Text(version))]), Record(BoundEntry(b, coordinate, version))]))]))])
  }

  lemma ShadowedEntries(b: Binding, coordinate: string, version: string)
    requires ValidCoordinate(coordinate)
    ensures Versions(ShadowedBody(b, coordinate, version), coordinate) ==
            [Clone([("version", Text(version))]), Clone(BoundEntry(b, coordinate, version))]
  {
    var first, second := Record([("version", Text(version))]), Record(BoundEntry(b, coordinate, version));
    var packages: Fields := [(coordinate, List([first, second]))];
    var body: Fields := [("packages", Record(packages))];
    PropertyAt(body, 0);
    PropertyAt(packages, 0);
    PropertyAbsent(body, "minified");
    assert [first, second][..1] == [first] && [first][..0] == [];
    assert Records([first]) == [Clone([("version", Text(version))])];
  }

  /**
   * For every coordinate, version and archive there is a metadata document
   * that lists the version and offers it as the latest, but no download.
   */
  lemma ShadowedExample(parse: Parser, b: Binding, coordinate: string, version: string)
    requires ParsesPlainly(parse, "github.com") && ParsesPlainly(parse, "api.github.com")
    requires SafeBinding(b) && SafeVersion(version) && ValidCoordinate(coordinate)
    ensures var body := ShadowedBody(b, coordinate, version);
            var rows := Catalog(parse, body, coordinate);
            && version in Listed(rows) && LatestOf(rows, Listed(rows)) == Some(version)
            && Download(parse, body, coordinate, version).None?
  {
    var body := ShadowedBody(b, coordinate, version);
    ShadowedEntries(b, coordinate, version);
    EntryBinds(parse, b, coordinate, version);
    EntryFields(b, coordinate, version);
    UnboundFields(version);
    ShadowedVersion(parse, body, coordinate, version, 1);
  }

  lemma UnboundFields(version: string)
    ensures var e := Clone([("version", Text(version))]);
            Get(e, "version") == Some(Text(version)) && Get(e, "name").None?
  {
    var fields: Fields := [("version", Text(version))];
    PropertyAt(fields, 0);
    PropertyAbsent(fields, "name");
  }

  /** There are such inputs. */
  lemma ShadowedInput()
    ensures ValidCoordinate("a/b") && SafeVersion("1")
    ensures SafeBinding(Binding("a", "b", Strings.Repeat('0', 40)))
  {
    Strings.SplitOnto("a", "b");
    Strings.SplitAtom("b", '/');
    assert "a" + "/" + "b" == "a/b";
    Forty(40);
  }

  lemma {:induction false} Forty(n: nat)
    ensures |Strings.Repeat('0', n)| == n && forall i | 0 <= i < n :: Strings.Repeat('0', n)[i] == '0'
  {
    if n > 0 { Forty(n - 1); }
  }
}
