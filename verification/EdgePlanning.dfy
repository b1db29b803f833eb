/**
 * Planning of one provider request from a verified capability
 * (`planProviderRequest` of workers/shared/edge-capability.js).
 */
module EdgePlanning {
  import opened Common
  import opened Urls
  import opened Routes
  import opened Multisets
  import opened EdgeCapability
  import opened EdgeAuthority
  import opened PathConfinement
  import opened PercentDecoding
  import Strings = Text

  datatype Request = Request(provider: string, operation: Option<string>, package: string, resource: string, url: string)

  datatype Plan = Plan(provider: string, package: string, resource: string, url: Url, credentialRef: string)

  function FindGrant(grants: seq<Grant>, key: (string, string, string)): Option<Grant> {
    if grants == [] then None
    else if Tuple()(grants[0]) == key then Some(grants[0])
    else FindGrant(grants[1..], key)
  }

  /** `pathIsWithin` */
  predicate PathIsWithin(pathname: string, prefix: string) {
    var path, within := Strings.TrimEnd(pathname, '/'), Strings.TrimEnd(prefix, '/');
    path == within || within + "/" <= path
  }

  predicate GithubDestination(resource: string, url: Url) {
    var parts := Strings.Split(resource, '/');
    && |parts| >= 2 && url.port == ""
    && ((url.hostname == "api.github.com" && BeginsWith(url.pathname, ["repos", parts[0], parts[1]]))
        || (url.hostname == "github.com" && BeginsWith(url.pathname, parts[..2]))
        || (url.hostname == "raw.githubusercontent.com" && BeginsWith(url.pathname, parts[..2])))
  }

  predicate CargoVersion(s: string) {
    1 <= |s| <= 128 && '0' <= s[0] <= '9' && forall i | 0 <= i < |s| :: VersionChar(s[i])
  }

  /** The crate and version of a private download path. */
  function CargoDownload(path: string): Option<(string, string)> {
    var parts := Strings.Split(path, '/');
    if |parts| == 7 && parts[0] == "" && parts[1] == "api" && parts[2] == "v1" && parts[3] == "crates"
       && CargoCrate(parts[4]) && CargoVersion(parts[5]) && parts[6] == "download"
    then Some((parts[4], parts[5])) else None
  }

  predicate CargoDestination(grant: Grant, url: Url, rawUrl: string) {
    && grant.origin.Some? && grant.origin.value != ""
    && var origin := grant.origin.value;
       var path := if origin + "/" <= rawUrl then rawUrl[|origin|..] else "";
       var download := CargoDownload(path);
       && OriginOf(url) == origin
       && download.Some? && download.value.0 == grant.resource
       && url.pathname == path && url.search == "" && url.hash == ""
  }

  /** The error of `assertProviderDestination`, if any. */
  function DestinationError(grant: Grant, url: Url, rawUrl: string): Option<string> {
    if grant.provider == "github" then
      if GithubDestination(grant.resource, url) then None else Some("provider_destination_mismatch")
    else if grant.provider == "npm" then
      if url.hostname != "registry.npmjs.org" || url.port != "" then Some("provider_destination_mismatch")
      else
        var decoded := DecodeUriComponent(url.pathname);
        if decoded.None? then Some("invalid_provider_url")
        else if PathIsWithin(decoded.value, "/" + grant.resource) then None else Some("provider_destination_mismatch")
    else if grant.provider == "cargo-registry" then
      if CargoDestination(grant, url, rawUrl) then None else Some("provider_destination_mismatch")
    else Some("invalid_provider")
  }

  function PlanProviderRequest(parse: Parser, c: Claims, r: Request): Result<Plan, string> {
    if c.version !in {1, 2, 3} then Err("unverified_capability")
    else if r.operation.Some? && r.operation.value != "read" then Err("write_forbidden")
    else
      var grant := FindGrant(c.grants, (r.provider, r.package, r.resource));
      if grant.None? then Err("grant_mismatch") else PlanFor(parse, grant.value, r)
  }

  function PlanFor(parse: Parser, grant: Grant, r: Request): Result<Plan, string> {
    var url := parse(r.url);
    if url.None? || url.value.protocol != "https:" || url.value.username != "" || url.value.password != ""
    then Err("invalid_provider_url")
    else
      var error := DestinationError(grant, url.value, r.url);
      if error.Some? then Err(error.value)
      else Ok(Plan(grant.provider, grant.package, grant.resource, url.value, grant.credentialRef))
  }

  // ----- the order of grants -----

  lemma {:induction false} FindGrantIn(grants: seq<Grant>, key: (string, string, string))
    ensures var g := FindGrant(grants, key);
            if g.Some? then g.value in grants && Tuple()(g.value) == key
            else forall h | h in grants :: Tuple()(h) != key
  {
    if grants != [] && Tuple()(grants[0]) != key {
      FindGrantIn(grants[1..], key);
      assert grants == [grants[0]] + grants[1..];
    }
  }

  /** With different tuples, two grants with one tuple are the same grant. */
  lemma OneGrant(grants: seq<Grant>, g: Grant, h: Grant)
    requires Distinct(Map(grants, Tuple())) && g in grants && h in grants && Tuple()(g) == Tuple()(h)
    ensures g == h
  {
    var i :| 0 <= i < |grants| && grants[i] == g;
    var j :| 0 <= j < |grants| && grants[j] == h;
    var keys := Map(grants, Tuple());
    AtMostOnce(keys, keys[i]);
    OncePlace(keys, i, j);
  }

  lemma FindGrantIgnoresOrder(a: seq<Grant>, b: seq<Grant>, key: (string, string, string))
    requires multiset(a) == multiset(b) && Distinct(Map(a, Tuple()))
    ensures FindGrant(a, key) == FindGrant(b, key)
  {
    FindGrantIn(a, key);
    FindGrantIn(b, key);
    forall g ensures g in a <==> g in b { assert g in multiset(a) <==> g in multiset(b); }
    if FindGrant(a, key).Some? && FindGrant(b, key).Some? {
      OneGrant(a, FindGrant(a, key).value, FindGrant(b, key).value);
    }
  }

  /** The plan, or the refusal, is the same for every order of the grants. */
  lemma PlanIgnoresOrder(parse: Parser, c: Claims, grants: seq<Grant>, r: Request)
    requires multiset(c.grants) == multiset(grants) && Distinct(Map(c.grants, Tuple()))
    ensures PlanProviderRequest(parse, c, r) == PlanProviderRequest(parse, c.(grants := grants), r)
  {
    FindGrantIgnoresOrder(c.grants, grants, (r.provider, r.package, r.resource));
  }

  // ----- where a planned request goes -----

  /** A plan carries the credential of the one grant that matches the request. */
  lemma PlanCarriesGrant(parse: Parser, c: Claims, r: Request)
    ensures var p := PlanProviderRequest(parse, c, r);
            p.Ok? ==> exists g :: g in c.grants && g.provider == p.value.provider == r.provider
                        && g.package == p.value.package == r.package && g.resource == p.value.resource == r.resource
                        && g.credentialRef == p.value.credentialRef
  {
    FindGrantIn(c.grants, (r.provider, r.package, r.resource));
    var p := PlanProviderRequest(parse, c, r);
    if p.Ok? {
      var g := FindGrant(c.grants, (r.provider, r.package, r.resource)).value;
      assert Tuple()(g) == (g.provider, g.package, g.resource);
    }
  }

  /** The segments a GitHub host must be asked for. */
  function GithubPrefix(hostname: string, parts: seq<string>): seq<string>
    requires |parts| >= 2
  {
    if hostname == "api.github.com" then ["repos", parts[0], parts[1]] else parts[..2]
  }

  /**
   * A planned GitHub request goes to one of three hosts, and its path, decoded
   * once and freed of dot segments, still starts with the authorized owner and
   * repository as whole segments.
   */
  lemma GithubPlanIsConfined(parse: Parser, c: Claims, r: Request) returns (rest: seq<string>)
    requires PlanProviderRequest(parse, c, r).Ok? && r.provider == "github"
    requires var url := PlanProviderRequest(parse, c, r).value.url; url.pathname != "" && url.pathname[0] == '/'
    ensures var url := PlanProviderRequest(parse, c, r).value.url;
            var parts := Strings.Split(r.resource, '/');
            && url.hostname in {"api.github.com", "github.com", "raw.githubusercontent.com"}
            && |parts| >= 2
            && var expected := GithubPrefix(url.hostname, parts);
               && DecodeUriComponent(url.pathname) == Some(Absolute(expected + rest))
               && RemoveDotSegments(Absolute(expected + rest), "") == Absolute(expected) + Absolute(rest)
  {
    var url := PlanProviderRequest(parse, c, r).value.url;
    PlanCarriesGrant(parse, c, r);
    FindGrantIn(c.grants, (r.provider, r.package, r.resource));
    rest := AcceptedPathIsConfined(url.pathname, GithubPrefix(url.hostname, Strings.Split(r.resource, '/')));
  }

  function CargoPath(crate: string, version: string): string {
    "/api/v1/crates/" + crate + "/" + version + "/download"
  }

  lemma CrateNoSlash(s: string)
    requires CargoCrate(s) || CargoVersion(s)
    ensures '/' !in s
  {
  }

  lemma FourSegments(crate: string, version: string)
    requires '/' !in crate && '/' !in version
    ensures Strings.Split("crates" + "/" + (crate + "/" + (version + "/" + "download")), '/')
         == ["crates", crate, version, "download"]
  {
    var a := version + "/" + "download";
    Strings.SplitAtom("download", '/');
    Strings.SplitOnto(version, "download");
    Strings.SplitOnto(crate, a);
    Strings.SplitOnto("crates", crate + "/" + a);
  }

  lemma ThreeSegments(rest: string)
    ensures Strings.Split("" + "/" + ("api" + "/" + ("v1" + "/" + rest)), '/')
         == ["", "api", "v1"] + Strings.Split(rest, '/')
  {
    var d := "v1" + "/" + rest;
    Strings.SplitOnto("v1", rest);
    Strings.SplitOnto("api", d);
    Strings.SplitOnto("", "api" + "/" + d);
  }

  lemma CargoSegments(crate: string, version: string)
    requires '/' !in crate && '/' !in version
    ensures Strings.Split(CargoPath(crate, version), '/') == ["", "api", "v1", "crates", crate, version, "download"]
  {
    FourSegments(crate, version);
    ThreeSegments("crates" + "/" + (crate + "/" + (version + "/" + "download")));
    CargoNest(crate, version);
  }

  lemma CargoNest(crate: string, version: string)
    ensures CargoPath(crate, version) ==
            "" + "/" + ("api" + "/" + ("v1" + "/" + ("crates" + "/" + (crate + "/" + (version + "/" + "download")))))
  {
    var x := version + "/" + "download";
    assert version + "/download" == x;
    assert CargoPath(crate, version) == "/api/v1/crates/" + crate + "/" + x;
    var y := crate + "/" + x;
    assert CargoPath(crate, version) == "/api/v1/crates/" + y;
    assert "" + "/" + ("api" + "/" + ("v1" + "/" + ("crates" + "/" + y))) == "/api/v1/crates/" + y;
  }

  /** The download grammar reads exactly the paths it spells. */
  lemma CargoDownloadExactly(path: string, crate: string, version: string)
    ensures CargoDownload(path) == Some((crate, version)) <==>
            CargoCrate(crate) && CargoVersion(version) && path == CargoPath(crate, version)
  {
    if CargoCrate(crate) && CargoVersion(version) {
      CrateNoSlash(crate);
      CrateNoSlash(version);
      CargoSegments(crate, version);
    }
    if CargoDownload(path) == Some((crate, version)) {
      assert Strings.Split(path, '/') == ["", "api", "v1", "crates", crate, version, "download"];
      Strings.JoinSplit(path, '/');
      Strings.JoinSplit(CargoPath(crate, version), '/');
    }
  }

  /** The request is spelled origin, crate, version and `/download`, and parses to just that. */
  predicate CargoSpelled(grant: Grant, url: Url, rawUrl: string, version: string) {
    && CargoVersion(version) && CargoCrate(grant.resource)
    && grant.origin.Some? && grant.origin.value != ""
    && rawUrl == grant.origin.value + CargoPath(grant.resource, version)
    && OriginOf(url) == grant.origin.value
    && url.pathname == CargoPath(grant.resource, version) && url.search == "" && url.hash == ""
  }

  /** A Cargo request is accepted exactly in that spelling, which fixes the version. */
  lemma CargoExactly(grant: Grant, url: Url, rawUrl: string)
    requires grant.provider == "cargo-registry"
    ensures DestinationError(grant, url, rawUrl).None? <==> exists version :: CargoSpelled(grant, url, rawUrl, version)
    ensures forall v, w :: CargoSpelled(grant, url, rawUrl, v) && CargoSpelled(grant, url, rawUrl, w) ==> v == w
  {
    if CargoDestination(grant, url, rawUrl) {
      var path := rawUrl[|grant.origin.value|..];
      CargoPrefix(grant, rawUrl);
      var download := CargoDownload(path).value;
      CargoDownloadExactly(path, download.0, download.1);
      assert rawUrl == grant.origin.value + path;
      assert CargoSpelled(grant, url, rawUrl, download.1);
    }
    forall v | CargoSpelled(grant, url, rawUrl, v)
      ensures CargoDestination(grant, url, rawUrl) && CargoDownload(url.pathname) == Some((grant.resource, v))
    {
      CargoDownloadExactly(url.pathname, grant.resource, v);
      assert rawUrl[|grant.origin.value|..] == url.pathname;
      assert CargoPath(grant.resource, v)[0] == '/';
      assert grant.origin.value + "/" <= rawUrl;
    }
  }

  lemma CargoPrefix(grant: Grant, rawUrl: string)
    requires grant.origin.Some?
    requires var origin := grant.origin.value;
             CargoDownload(if origin + "/" <= rawUrl then rawUrl[|origin|..] else "").Some?
    ensures grant.origin.value + "/" <= rawUrl
  {
    assert Strings.Split("", '/') == [""];
  }

  // ----- when a request gets a plan -----

  predicate GrantFor(g: Grant, r: Request) {
    g.provider == r.provider && g.package == r.package && g.resource == r.resource
  }

  predicate FirstGrantFor(grants: seq<Grant>, r: Request, i: int) {
    0 <= i < |grants| && GrantFor(grants[i], r) && forall j | 0 <= j < i :: !GrantFor(grants[j], r)
  }

  /** A path of the npm registry that is a package or lies below it. */
  predicate NpmPlace(resource: string, url: Url) {
    && url.hostname == "registry.npmjs.org" && url.port == "" && DecodeUriComponent(url.pathname).Some?
    && var path := Strings.TrimEnd(DecodeUriComponent(url.pathname).value, '/');
       var place := Strings.TrimEnd("/" + resource, '/');
       place <= path && (|path| > |place| ==> path[|place|] == '/')
  }

  predicate GithubPlace(resource: string, url: Url) {
    var parts := Strings.Split(resource, '/');
    && |parts| >= 2 && url.hostname in {"api.github.com", "github.com", "raw.githubusercontent.com"} && url.port == ""
    && BeginsWith(url.pathname, GithubPrefix(url.hostname, parts))
  }

  /** A URL inside what the grant is for. */
  ghost predicate Destined(g: Grant, url: Url, rawUrl: string) {
    match g.provider
    case "github" => GithubPlace(g.resource, url)
    case "npm" => NpmPlace(g.resource, url)
    case "cargo-registry" => exists version :: CargoSpelled(g, url, rawUrl, version)
    case _ => false
  }

  ghost predicate Planned(parse: Parser, g: Grant, r: Request, p: Plan) {
    && parse(r.url) == Some(p.url) && p.url.protocol == "https:" && p.url.username == "" && p.url.password == ""
    && Destined(g, p.url, r.url)
    && p.provider == r.provider && p.package == r.package && p.resource == r.resource
    && p.credentialRef == g.credentialRef
  }

  lemma NpmExactly(g: Grant, url: Url, rawUrl: string)
    requires g.provider == "npm"
    ensures DestinationError(g, url, rawUrl).None? <==> NpmPlace(g.resource, url)
  {
    if DecodeUriComponent(url.pathname).Some? {
      Below(Strings.TrimEnd(DecodeUriComponent(url.pathname).value, '/'), Strings.TrimEnd("/" + g.resource, '/'));
    }
  }

  lemma Below(path: string, place: string)
    ensures path == place || place + "/" <= path <==> place <= path && (|path| > |place| ==> path[|place|] == '/')
  {
    if place <= path && |path| > |place| { assert path == place + path[|place|..]; }
  }

  lemma DestinedExactly(g: Grant, url: Url, rawUrl: string)
    ensures DestinationError(g, url, rawUrl).None? <==> Destined(g, url, rawUrl)
  {
    if g.provider == "npm" { NpmExactly(g, url, rawUrl); }
    if g.provider == "cargo-registry" { CargoExactly(g, url, rawUrl); }
  }

  lemma {:induction false} FindGrantFirst(grants: seq<Grant>, r: Request) returns (i: nat)
    ensures var g := FindGrant(grants, (r.provider, r.package, r.resource));
            if g.Some? then FirstGrantFor(grants, r, i) && grants[i] == g.value
            else forall j | 0 <= j < |grants| :: !GrantFor(grants[j], r)
  {
    i := 0;
    if grants != [] && !GrantFor(grants[0], r) {
      var k := FindGrantFirst(grants[1..], r);
      i := k + 1;
      assert forall j | 0 < j < |grants| :: grants[j] == grants[1..][j - 1];
    }
  }

  /**
   * A request gets a plan exactly when it only reads, a grant of the capability
   * is for just its provider, package and resource, and its URL is an `https:`
   * URL without credentials inside what that grant is for.
   */
  lemma PlanExactly(parse: Parser, c: Claims, r: Request, p: Plan)
    ensures PlanProviderRequest(parse, c, r) == Ok(p) <==>
            && c.version in {1, 2, 3} && r.operation in {None, Some("read")}
            && exists i :: FirstGrantFor(c.grants, r, i) && Planned(parse, c.grants[i], r, p)
  {
    var i := FindGrantFirst(c.grants, r);
    var g := FindGrant(c.grants, (r.provider, r.package, r.resource));
    if g.Some? {
      PlanForExactly(parse, g.value, r, p);
      forall j | FirstGrantFor(c.grants, r, j) ensures j == i { }
    }
  }

  lemma PlanForExactly(parse: Parser, g: Grant, r: Request, p: Plan)
    requires GrantFor(g, r)
    ensures PlanFor(parse, g, r) == Ok(p) <==> Planned(parse, g, r, p)
  {
    if parse(r.url).Some? { DestinedExactly(g, parse(r.url).value, r.url); }
  }
}
