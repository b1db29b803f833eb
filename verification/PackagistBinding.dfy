/**
 * Which entries of a Packagist package are bound to a GitHub archive
 * (`packagistGithubZip` of workers/shared/native-packagist.js).
 */
module PackagistBinding {
  import opened Common
  import opened Packagist
  import opened PackagistCatalog
  import opened Values
  import opened Urls
  import opened PercentDecoding
  import Strings = Text

  predicate Says(e: Entry, key: string, text: string) { Get(e, key) == Some(Text(text)) }

  /** A commit that a record names, in whatever case. */
  predicate Names(record: Value, reference: string) {
    Strings.Lower(StringOr(Property(record, "reference"))) == reference
  }

  function WithoutGit(url: string): string { if Strings.EndsWith(url, ".git") then url[..|url| - 4] else url }

  /** An `https:` URL of this host that is nothing but a path. */
  predicate Points(parse: Parser, url: string, host: string, path: string) {
    parse(url) == Some(Url("https:", "", "", host, "", path, "", ""))
  }

  /** The source is the repository `owner/repo`. */
  ghost predicate Repository(parse: Parser, url: Option<Value>, owner: string, repo: string) {
    && TextOf(url).Some? && SafeGithubPart(owner) && SafeGithubPart(repo)
    && exists path :: Points(parse, WithoutGit(TextOf(url).value), "github.com", path)
                      && TrimSlashes(path) == owner + "/" + repo
  }

  /** The archive is the API's zipball of that repository and commit, in whatever case. */
  ghost predicate Zipball(parse: Parser, url: Option<Value>, b: Binding) {
    && TextOf(url).Some?
    && exists path, parts :: Points(parse, TextOf(url).value, "api.github.com", path) && IsZipball(path, parts, b)
  }

  predicate IsZipball(path: string, parts: seq<string>, b: Binding) {
    && |parts| == 6 && Strings.Split(path, '/') == parts
    && parts[0] == "" && Strings.Lower(parts[1]) == "repos" && Strings.Lower(parts[4]) == "zipball"
    && Part(parts[2], b.owner) && Part(parts[3], b.repo) && Strings.Lower(parts[5]) == b.reference
  }

  predicate Part(spelled: string, name: string) {
    && spelled != "" && DecodeUriComponent(spelled).Some? && SafeGithubPart(DecodeUriComponent(spelled).value)
    && Strings.Lower(DecodeUriComponent(spelled).value) == Strings.Lower(name)
  }

  /** An entry of the coordinate that was built from one commit of one repository. */
  ghost predicate BoundTo(parse: Parser, e: Entry, coordinate: string, b: Binding) {
    var dist, source := Get(e, "dist"), Get(e, "source");
    && Says(e, "name", coordinate) && TextOf(Get(e, "version")).Some? && SafeVersion(TextOf(Get(e, "version")).value)
    && dist.Some? && dist.value.Record? && Property(dist.value, "type") == Some(Text("zip"))
    && Property(dist.value, "shasum") in {None, Some(Null), Some(Text(""))}
    && source.Some? && source.value.Record? && Property(source.value, "type") == Some(Text("git"))
    && GitReference(b.reference) && Names(dist.value, b.reference) && Names(source.value, b.reference)
    && Repository(parse, Property(source.value, "url"), b.owner, b.repo)
    && Zipball(parse, Property(dist.value, "url"), b)
  }

  lemma TwoParts(text: string, owner: string, repo: string)
    requires '/' !in owner && '/' !in repo
    ensures Strings.Split(text, '/') == [owner, repo] <==> text == owner + "/" + repo
  {
    Strings.SplitAtom(repo, '/');
    Strings.SplitOnto(owner, repo);
    Strings.JoinSplit(text, '/');
    if Strings.Split(text, '/') == [owner, repo] {
      Strings.JoinSplit(owner + "/" + repo, '/');
    }
  }

  lemma SafeNoSlash(s: string)
    requires SafeGithubPart(s)
    ensures '/' !in s
  {
  }

  lemma RepositoryExactly(parse: Parser, url: Option<Value>, owner: string, repo: string)
    ensures GithubRepository(parse, url) == Some((owner, repo)) <==> Repository(parse, url, owner, repo)
  {
    if TextOf(url).Some? && SafeGithubPart(owner) && SafeGithubPart(repo) {
      var parsed := parse(WithoutGit(TextOf(url).value));
      SafeNoSlash(owner);
      SafeNoSlash(repo);
      if parsed.Some? { TwoParts(TrimSlashes(parsed.value.pathname), owner, repo); }
    }
  }

  /** What the zipball reader answers, up to the case of owner and repository. */
  lemma ZipballExactly(parse: Parser, url: Option<Value>, b: Binding)
    requires GitReference(b.reference)
    ensures var z := GithubApiZipball(parse, url);
            (z.Some? && z.value.reference == b.reference && Strings.Lower(z.value.owner) == Strings.Lower(b.owner)
             && Strings.Lower(z.value.repo) == Strings.Lower(b.repo))
            <==> Zipball(parse, url, b)
  {
    if TextOf(url).Some? && parse(TextOf(url).value).Some? {
      var u := parse(TextOf(url).value).value;
      if u.protocol == "https:" && u.hostname == "api.github.com" && Bare(u) {
        ZipballPath(parse, url, u, b);
      }
    }
  }

  lemma ZipballPath(parse: Parser, url: Option<Value>, u: Url, b: Binding)
    requires GitReference(b.reference) && TextOf(url).Some? && parse(TextOf(url).value) == Some(u)
    requires u.protocol == "https:" && u.hostname == "api.github.com" && Bare(u)
    ensures Zipball(parse, url, b) <==> IsZipball(u.pathname, Strings.Split(u.pathname, '/'), b)
    ensures var z := GithubApiZipball(parse, url);
            IsZipball(u.pathname, Strings.Split(u.pathname, '/'), b) <==>
            (z.Some? && z.value.reference == b.reference && Strings.Lower(z.value.owner) == Strings.Lower(b.owner)
             && Strings.Lower(z.value.repo) == Strings.Lower(b.repo))
  {
    assert Points(parse, TextOf(url).value, "api.github.com", u.pathname);
  }

  /**
   * An entry is bound to an archive exactly when it is an entry of the
   * coordinate with a safe version, its zip has no checksum of its own, and its
   * source and its zip name one commit of one GitHub repository.
   */
  lemma BindsExactly(parse: Parser, e: Entry, coordinate: string, b: Binding)
    ensures GithubZip(parse, e, coordinate) == Some(b) <==> BoundTo(parse, e, coordinate, b)
  {
    var dist, source := Get(e, "dist"), Get(e, "source");
    if dist.Some? && dist.value.Record? && source.Some? && source.value.Record? {
      RepositoryExactly(parse, Property(source.value, "url"), b.owner, b.repo);
      if GitReference(b.reference) { ZipballExactly(parse, Property(dist.value, "url"), b); }
    }
  }
}
