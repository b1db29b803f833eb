/**
 * The three loops that follow redirects by hand: `fetchWithValidatedRedirects`
 * (workers/cdn-proxy/src/index.js), `fetchGithubReleaseSidecar` and
 * `completeNativeDownload` (workers/registry-proxy/src/index.js).
 *
 * The network is a script of answers, one for each request in turn, so the same
 * URL may answer differently each time. URL resolution is a parameter.
 */
module Redirects {
  import opened Common
  import opened Routes
  import opened Urls
  import opened Utf8
  import Strings = Text

  /** `declared` is the `Content-Length`: 0 when it is missing, negative when
      it is no safe integer. */
  datatype Reply = Fails | Response(status: int, location: Option<string>, declared: int, bytes: seq<Byte>)

  predicate Redirected(r: Reply) { r.Response? && r.status in {301, 302, 303, 307, 308} }

  /** `response.ok` */
  predicate Ok(r: Reply) { r.Response? && 200 <= r.status < 300 }

  datatype Exchange = Exchange(url: string, reply: Reply)

  /** `new URL(location, current).toString()`, which may throw. */
  type Resolver = (string, string) -> Option<string>

  datatype Outcome = Nothing | Threw | Served(url: string, reply: Reply)

  datatype Walk = Walk(trace: seq<Exchange>, outcome: Outcome)

  const MAX_REQUESTS := 4

  class Network {
    var script: seq<Reply>
    var log: seq<Exchange>

    /** One request; a network that has nothing left to say fails. */
    method Fetch(url: string) returns (reply: Reply)
      modifies this
      ensures reply == Next(old(script)) && script == Rest(old(script))
      ensures log == old(log) + [Exchange(url, reply)]
    {
      reply := Next(script);
      script := Rest(script);
      log := log + [Exchange(url, reply)];
    }
  }

  function Next(script: seq<Reply>): Reply { if script == [] then Fails else script[0] }

  function Rest(script: seq<Reply>): seq<Reply> { if script == [] then [] else script[1..] }

  /** What the loop makes of a reply: it stops, or goes on to another URL. */
  datatype Step = Stop(outcome: Outcome) | Go(next: string)

  function Judge(resolve: Resolver, current: string, reply: Reply, redirects: nat): Step {
    if reply.Fails? then Stop(Nothing)
    else if !Redirected(reply) then Stop(Served(current, reply))
    else if reply.location.None? || reply.location.value == "" || redirects == MAX_REQUESTS - 1 then Stop(Nothing)
    else
      var next := resolve(reply.location.value, current);
      if next.None? then Stop(Threw) else Go(next.value)
  }

  /**
   * Another URL is asked for exactly after one of five statuses, with a location
   * that resolves, while fewer than three redirects were followed; a reply is
   * served exactly when its status is none of the five.
   */
  lemma JudgeExactly(resolve: Resolver, current: string, reply: Reply, redirects: nat, next: string)
    requires redirects < 4
    ensures Judge(resolve, current, reply, redirects) == Go(next) <==>
            && reply.Response? && reply.status in {301, 302, 303, 307, 308} && redirects < 3
            && reply.location.Some? && reply.location.value != "" && resolve(reply.location.value, current) == Some(next)
    ensures Judge(resolve, current, reply, redirects) == Stop(Served(current, reply)) <==>
            reply.Response? && reply.status !in {301, 302, 303, 307, 308}
  {
  }

  /** What following redirects from `current` does, with `redirects` already followed. */
  function Follow(allow: string -> bool, resolve: Resolver, script: seq<Reply>, current: string, redirects: nat): Walk
    requires redirects < MAX_REQUESTS
    decreases MAX_REQUESTS - redirects
  {
    if !allow(current) then Walk([], Nothing)
    else
      var here := Exchange(current, Next(script));
      match Judge(resolve, current, Next(script), redirects)
      case Stop(outcome) => Walk([here], outcome)
      case Go(next) =>
        var rest := Follow(allow, resolve, Rest(script), next, redirects + 1);
        Walk([here] + rest.trace, rest.outcome)
  }

  /** The loop all three functions share. */
  method FetchWithValidatedRedirects(net: Network, allow: string -> bool, resolve: Resolver, url: string)
    returns (outcome: Outcome)
    modifies net
    ensures var w := Follow(allow, resolve, old(net.script), url, 0);
            net.log == old(net.log) + w.trace && outcome == w.outcome
  {
    var current := url;
    var redirects := 0;
    ghost var all := Follow(allow, resolve, net.script, url, 0);
    ghost var done: seq<Exchange> := [];
    while true
      invariant redirects < MAX_REQUESTS && net.log == old(net.log) + done
      invariant Resumes(all, done, Follow(allow, resolve, net.script, current, redirects))
      decreases MAX_REQUESTS - redirects
    {
      if !allow(current) { return Nothing; }
      ghost var script := net.script;
      var response := net.Fetch(current);
      done := done + [Exchange(current, response)];
      match Judge(resolve, current, response, redirects)
      case Stop(outcome) => return outcome;
      case Go(next) =>
        FollowOn(allow, resolve, script, current, redirects, next, all, done[..|done| - 1]);
        current := next;
        redirects := redirects + 1;
    }
  }

  /** `all` is what was done followed by what is left to do. */
  predicate Resumes(all: Walk, done: seq<Exchange>, left: Walk) {
    all.trace == done + left.trace && all.outcome == left.outcome
  }

  lemma FollowOn(allow: string -> bool, resolve: Resolver, script: seq<Reply>, current: string, redirects: nat,
                 next: string, all: Walk, done: seq<Exchange>)
    requires redirects < MAX_REQUESTS && allow(current) && Judge(resolve, current, Next(script), redirects) == Go(next)
    requires Resumes(all, done, Follow(allow, resolve, script, current, redirects))
    ensures redirects < MAX_REQUESTS - 1
    ensures Resumes(all, done + [Exchange(current, Next(script))],
                    Follow(allow, resolve, Rest(script), next, redirects + 1))
  {
  }

  // ----- what the loop can and can not do -----

  /** The first exchange redirects to the URL of the second. */
  predicate PointsTo(resolve: Resolver, a: Exchange, b: Exchange) {
    && Redirected(a.reply) && a.reply.location.Some?
    && resolve(a.reply.location.value, a.url) == Some(b.url)
  }

  /** Each request but the first goes where the one before it pointed. */
  predicate Chained(resolve: Resolver, trace: seq<Exchange>) {
    |trace| < 2 || (PointsTo(resolve, trace[0], trace[1]) && Chained(resolve, trace[1..]))
  }

  /** For every network: at most four requests, each to an allowed URL, each
      where the one before pointed, and an answer is that of the last one. */
  lemma {:induction false} FollowIsBounded(allow: string -> bool, resolve: Resolver, script: seq<Reply>,
                                           current: string, redirects: nat)
    requires redirects < MAX_REQUESTS
    ensures var w := Follow(allow, resolve, script, current, redirects);
            && |w.trace| <= MAX_REQUESTS - redirects
            && (forall i | 0 <= i < |w.trace| :: allow(w.trace[i].url))
            && (w.trace != [] ==> w.trace[0].url == current) && (w.trace == [] <==> !allow(current))
            && Chained(resolve, w.trace)
    ensures var w := Follow(allow, resolve, script, current, redirects);
            w.outcome.Served? ==>
              && w.trace != [] && w.trace[|w.trace| - 1] == Exchange(w.outcome.url, w.outcome.reply)
              && w.outcome.reply.Response? && !Redirected(w.outcome.reply) && allow(w.outcome.url)
    decreases MAX_REQUESTS - redirects
  {
    var step := Judge(resolve, current, Next(script), redirects);
    if allow(current) && step.Go? {
      FollowIsBounded(allow, resolve, Rest(script), step.next, redirects + 1);
      var rest := Follow(allow, resolve, Rest(script), step.next, redirects + 1);
      var w := Follow(allow, resolve, script, current, redirects);
      assert w.trace == [Exchange(current, Next(script))] + rest.trace;
      assert w.trace[1..] == rest.trace;
    }
  }

  /** The answers of a fixed graph of redirects along a walk. */
  ghost predicate Answers(graph: string -> Reply, trace: seq<Exchange>) {
    forall i | 0 <= i < |trace| :: trace[i].reply == graph(trace[i].url)
  }

  /** Where the graph redirects a URL to, if anywhere. */
  function Jump(resolve: Resolver, graph: string -> Reply, url: string): Option<string> {
    var reply := graph(url);
    if !Redirected(reply) || reply.location.None? || reply.location.value == "" then None
    else resolve(reply.location.value, url)
  }

  /** Where `n` redirects in a row lead. */
  function Hops(resolve: Resolver, graph: string -> Reply, url: string, n: nat): Option<string>
    decreases n
  {
    if n == 0 then Some(url)
    else
      var next := Jump(resolve, graph, url);
      if next.None? then None else Hops(resolve, graph, next.value, n - 1)
  }

  /** After `n` redirects between allowed URLs there is an answer. */
  predicate Reaches(allow: string -> bool, resolve: Resolver, graph: string -> Reply, url: string, n: nat)
    decreases n
  {
    && allow(url)
    && if n == 0 then graph(url).Response? && !Redirected(graph(url))
       else
         var next := Jump(resolve, graph, url);
         next.Some? && Reaches(allow, resolve, graph, next.value, n - 1)
  }

  /** In a fixed graph the loop serves exactly what is at most three redirects away. */
  lemma {:induction false} ServedExactly(allow: string -> bool, resolve: Resolver, graph: string -> Reply,
                                         script: seq<Reply>, url: string, redirects: nat)
    requires redirects < MAX_REQUESTS && Answers(graph, Follow(allow, resolve, script, url, redirects).trace)
    ensures Follow(allow, resolve, script, url, redirects).outcome.Served? <==>
            exists n: nat :: n < MAX_REQUESTS - redirects && Reaches(allow, resolve, graph, url, n)
    decreases MAX_REQUESTS - redirects
  {
    var w := Follow(allow, resolve, script, url, redirects);
    var step := Judge(resolve, url, Next(script), redirects);
    if allow(url) {
      assert w.trace[0] == Exchange(url, graph(url));
      assert Reaches(allow, resolve, graph, url, 0) <==> graph(url).Response? && !Redirected(graph(url));
      if step.Go? {
        var rest := Follow(allow, resolve, Rest(script), step.next, redirects + 1);
        assert w.trace[1..] == rest.trace;
        forall i | 0 <= i < |rest.trace| ensures rest.trace[i].reply == graph(rest.trace[i].url) {
          assert rest.trace[i] == w.trace[i + 1];
        }
        ServedExactly(allow, resolve, graph, Rest(script), step.next, redirects + 1);
        ReachesNext(allow, resolve, graph, url, step.next, MAX_REQUESTS - redirects);
      } else {
        ReachesNothing(allow, resolve, graph, url, MAX_REQUESTS - redirects);
      }
    }
  }

  lemma ReachesNext(allow: string -> bool, resolve: Resolver, graph: string -> Reply, url: string, next: string, limit: nat)
    requires allow(url) && Jump(resolve, graph, url) == Some(next) && limit > 0
    ensures (exists n: nat :: n < limit && Reaches(allow, resolve, graph, url, n)) <==>
            (exists n: nat :: n < limit - 1 && Reaches(allow, resolve, graph, next, n))
  {
    if exists n: nat :: n < limit && Reaches(allow, resolve, graph, url, n) {
      var n: nat :| n < limit && Reaches(allow, resolve, graph, url, n);
      ReachesBy(allow, resolve, graph, url, next, n - 1);
    }
    if exists n: nat :: n < limit - 1 && Reaches(allow, resolve, graph, next, n) {
      var n: nat :| n < limit - 1 && Reaches(allow, resolve, graph, next, n);
      ReachesBy(allow, resolve, graph, url, next, n);
    }
  }

  lemma ReachesBy(allow: string -> bool, resolve: Resolver, graph: string -> Reply, url: string, next: string, n: nat)
    requires allow(url) && Jump(resolve, graph, url) == Some(next)
    ensures Reaches(allow, resolve, graph, url, n + 1) <==> Reaches(allow, resolve, graph, next, n)
  {
  }

  /** Without a redirect to follow there is only the answer itself. */
  lemma ReachesNothing(allow: string -> bool, resolve: Resolver, graph: string -> Reply, url: string, limit: nat)
    requires allow(url) && limit > 0 && (Jump(resolve, graph, url).None? || limit == 1)
    ensures (exists n: nat :: n < limit && Reaches(allow, resolve, graph, url, n)) <==>
            Reaches(allow, resolve, graph, url, 0)
  {
  }

  lemma {:induction false} HopsAdd(resolve: Resolver, graph: string -> Reply, url: string, m: nat, n: nat)
    ensures var mid := Hops(resolve, graph, url, m);
            Hops(resolve, graph, url, m + n) == if mid.None? then None else Hops(resolve, graph, mid.value, n)
    decreases m
  {
    if m > 0 && Jump(resolve, graph, url).Some? { HopsAdd(resolve, graph, Jump(resolve, graph, url).value, m - 1, n); }
  }

  lemma {:induction false} AroundAgain(resolve: Resolver, graph: string -> Reply, url: string, n: nat, times: nat)
    requires Hops(resolve, graph, url, n) == Some(url)
    ensures Hops(resolve, graph, url, n * times) == Some(url)
  {
    if times == 0 {
      assert n * times == 0;
    } else {
      AroundAgain(resolve, graph, url, n, times - 1);
      HopsAdd(resolve, graph, url, n * (times - 1), n);
      assert n * times == n * (times - 1) + n;
    }
  }

  lemma {:induction false} ReachedEnds(allow: string -> bool, resolve: Resolver, graph: string -> Reply, url: string, n: nat)
    requires Reaches(allow, resolve, graph, url, n)
    ensures Hops(resolve, graph, url, n + 1).None?
    decreases n
  {
    if n > 0 { ReachedEnds(allow, resolve, graph, Jump(resolve, graph, url).value, n - 1); }
  }

  /**
   * Whatever else the graph holds: from a URL that leads into a cycle of
   * redirects, after however many of them, the loop serves nothing, and it
   * gives up after four requests.
   */
  lemma CyclesEnd(allow: string -> bool, resolve: Resolver, graph: string -> Reply, script: seq<Reply>, url: string,
                  lead: nat, length: nat)
    requires Answers(graph, Follow(allow, resolve, script, url, 0).trace)
    requires length > 0 && Hops(resolve, graph, url, lead).Some?
    requires Hops(resolve, graph, url, lead + length) == Hops(resolve, graph, url, lead)
    ensures !Follow(allow, resolve, script, url, 0).outcome.Served?
    ensures |Follow(allow, resolve, script, url, 0).trace| <= MAX_REQUESTS
  {
    FollowIsBounded(allow, resolve, script, url, 0);
    ServedExactly(allow, resolve, graph, script, url, 0);
    var v := Hops(resolve, graph, url, lead).value;
    HopsAdd(resolve, graph, url, lead, length);
    AroundAgain(resolve, graph, v, length, MAX_REQUESTS);
    HopsAdd(resolve, graph, url, lead, length * MAX_REQUESTS);
    if n: nat :| n < MAX_REQUESTS && Reaches(allow, resolve, graph, url, n) {
      ReachedEnds(allow, resolve, graph, url, n);
      HopsAdd(resolve, graph, url, n + 1, lead + length * MAX_REQUESTS - (n + 1));
      assert false;
    }
  }

  // ----- the GitHub release hosts -----

  /** `s.includes(part)` */
  predicate Contains(s: string, part: string) { part <= s || (s != "" && Contains(s[1..], part)) }

  /** `isAllowedGithubReleaseRedirect`, and `isAllowedGithubArtifactUrl` alike. */
  predicate AllowedGithubRelease(parse: Parser, rawUrl: string) {
    var url := parse(rawUrl);
    && url.Some? && url.value.protocol == "https:" && url.value.username == "" && url.value.password == ""
    && url.value.port == ""
    && url.value.hostname in {"github.com", "objects.githubusercontent.com", "release-assets.githubusercontent.com"}
    && (url.value.hostname == "github.com" ==> Contains(url.value.pathname, "/releases/download/"))
  }

  /** `part` stands at place `i`. */
  predicate PartAt(s: string, i: int, part: string) { 0 <= i <= |s| - |part| && s[i..i + |part|] == part }

  lemma {:induction false} ContainsExactly(s: string, part: string)
    ensures Contains(s, part) <==> exists i :: PartAt(s, i, part)
  {
    if part <= s {
      assert PartAt(s, 0, part);
    } else if s != "" {
      ContainsExactly(s[1..], part);
      if i :| PartAt(s[1..], i, part) { assert PartAt(s, i + 1, part); }
      if i :| PartAt(s, i, part) {
        assert i > 0;
        assert PartAt(s[1..], i - 1, part);
      }
    }
  }

  /** An `https:` URL without credentials or port, on one of the three hosts. */
  predicate ReleaseUrl(url: Url) {
    && url == Url("https:", "", "", url.hostname, "", url.pathname, url.search, url.hash)
    && url.hostname in {"github.com", "objects.githubusercontent.com", "release-assets.githubusercontent.com"}
  }

  /** Of GitHub itself only release downloads are allowed, of its asset hosts everything. */
  lemma ReleaseExactly(parse: Parser, rawUrl: string)
    ensures AllowedGithubRelease(parse, rawUrl) <==>
            && parse(rawUrl).Some? && ReleaseUrl(parse(rawUrl).value)
            && var path := parse(rawUrl).value.pathname;
               parse(rawUrl).value.hostname == "github.com" ==>
                 exists i :: PartAt(path, i, "/releases/download/")
  {
    if parse(rawUrl).Some? {
      ContainsExactly(parse(rawUrl).value.pathname, "/releases/download/");
    }
  }

  function ReleaseHosts(parse: Parser): string -> bool { (url: string) => AllowedGithubRelease(parse, url) }

  // ----- completeNativeDownload -----

  const MAX_DIGEST_BYTES := 32 * 1024 * 1024

  datatype Download = Download(url: string, sha256: string, size: int)

  predicate SafeSize(n: int) { 0 < n <= 0x1F_FFFF_FFFF_FFFF }

  predicate Complete(d: Download) { IsSha256(d.sha256) && SafeSize(d.size) }

  function Digested(hash: seq<Byte> -> string, candidate: Download, outcome: Outcome): Option<Download> {
    if !outcome.Served? || !Ok(outcome.reply) then None
    else
      var declared, bytes := outcome.reply.declared, outcome.reply.bytes;
      if declared <= 0 || declared > MAX_DIGEST_BYTES || |bytes| != declared then None
      else Some(Download(outcome.url, hash(bytes), |bytes|))
  }

  /**
   * There is a digest exactly for a successful reply that declares one byte to
   * 32 MiB and is that long; it is that of its bytes, at the URL that served them.
   */
  lemma DigestedExactly(hash: seq<Byte> -> string, candidate: Download, outcome: Outcome, d: Download)
    ensures Digested(hash, candidate, outcome) == Some(d) <==>
            && outcome.Served? && outcome.reply.Response? && 200 <= outcome.reply.status <= 299
            && 1 <= outcome.reply.declared <= 33_554_432 && |outcome.reply.bytes| == outcome.reply.declared
            && d == Download(outcome.url, hash(outcome.reply.bytes), outcome.reply.declared)
  {
  }

  /** A candidate needs no digest exactly with 64 hexadecimal digits and a safe positive size. */
  lemma CompleteExactly(d: Download)
    ensures Complete(d) <==>
            && |d.sha256| == 64 && (forall i | 0 <= i < 64 :: d.sha256[i] in "0123456789abcdef")
            && 1 <= d.size <= 9_007_199_254_740_991
  {
    forall i | 0 <= i < |d.sha256| ensures d.sha256[i] in "0123456789abcdef" <==> Hex(d.sha256[i]) {
      HexDigit(d.sha256[i]);
    }
  }

  lemma HexDigit(c: char)
    ensures c in "0123456789abcdef" <==> Hex(c)
  {
    if '0' <= c <= '9' { assert "0123456789abcdef"[c as int - 48] == c; }
    if 'a' <= c <= 'f' { assert "0123456789abcdef"[c as int - 87] == c; }
  }

  method CompleteNativeDownload(net: Network, hash: seq<Byte> -> string, allow: string -> bool, resolve: Resolver,
                                candidate: Download) returns (download: Option<Download>)
    modifies net
    ensures Complete(candidate) ==> download == Some(candidate) && net.log == old(net.log)
    ensures !Complete(candidate) ==>
              var w := Follow(allow, resolve, old(net.script), candidate.url, 0);
              net.log == old(net.log) + w.trace && download == Digested(hash, candidate, w.outcome)
  {
    if Complete(candidate) { return Some(candidate); }
    var outcome := FetchWithValidatedRedirects(net, allow, resolve, candidate.url);
    if !outcome.Served? || !Ok(outcome.reply) { return None; }
    var declared, bytes := outcome.reply.declared, outcome.reply.bytes;
    if declared <= 0 || declared > MAX_DIGEST_BYTES || |bytes| != declared { return None; }
    download := Some(Download(outcome.url, hash(bytes), |bytes|));
  }

  /**
   * A digest that was computed is that of the bytes the last request served, at
   * the URL the download names, which the validator allowed; the size is their
   * length, as declared, and at most 32 MiB.
   */
  lemma DigestIsOfServedBytes(hash: seq<Byte> -> string, allow: string -> bool, resolve: Resolver, script: seq<Reply>,
                              candidate: Download)
    requires !Complete(candidate)
    ensures var w := Follow(allow, resolve, script, candidate.url, 0);
            var d := Digested(hash, candidate, w.outcome);
            d.Some? ==>
              && w.trace != []
              && var last := w.trace[|w.trace| - 1];
                 && last.url == d.value.url && allow(d.value.url) && Ok(last.reply)
                 && d.value.sha256 == hash(last.reply.bytes)
                 && d.value.size == |last.reply.bytes| == last.reply.declared && 0 < d.value.size <= MAX_DIGEST_BYTES
  {
    FollowIsBounded(allow, resolve, script, candidate.url, 0);
  }

  /** Followed from a release URL, redirects stay on the release hosts. */
  lemma ReleaseWalkStaysOnHosts(parse: Parser, resolve: Resolver, script: seq<Reply>, url: string)
    ensures var w := Follow(ReleaseHosts(parse), resolve, script, url, 0);
            |w.trace| <= MAX_REQUESTS && forall i | 0 <= i < |w.trace| :: AllowedGithubRelease(parse, w.trace[i].url)
  {
    FollowIsBounded(ReleaseHosts(parse), resolve, script, url, 0);
  }
}
