/**
 * Artifact URLs of Go modules and Maven artifacts
 * (workers/shared/native-public-core.js): a URL names one coordinate and one
 * version.
 */
module NativeUrls {
  import opened Common
  import opened Routes
  import opened Urls
  import opened PercentDecoding
  import Strings = Text
  import Utf8

  // ----- encodeURIComponent is injective -----

  lemma HexDigitBack(d: int)
    requires 0 <= d < 16
    ensures HexValue(HexUpper(d)) == Some(d)
  {
  }

  lemma EscapeBack(b: Utf8.Byte, rest: string)
    ensures EscapeByte(PercentBytes([b]) + rest) == Some(b)
    ensures |PercentBytes([b])| == 3 && PercentBytes([b])[0] == '%'
  {
    HexDigitBack(b / 16);
    HexDigitBack(b % 16);
    assert [b][1..] == [];
  }

  lemma PercentHead(bytes: seq<Utf8.Byte>)
    requires bytes != []
    ensures PercentBytes(bytes) == PercentBytes([bytes[0]]) + PercentBytes(bytes[1..])
  {
    assert [bytes[0]][1..] == [];
  }

  lemma ChainPrepend(a: string, b: string, rest: Option<string>)
    ensures Prepend(a, Prepend(b, rest)) == Prepend(a + b, rest)
  {
    if rest.Some? { assert a + (b + rest.value) == a + b + rest.value; }
  }

  lemma PrependNothing(rest: Option<string>)
    ensures Prepend("", rest) == rest
  {
    if rest.Some? { assert "" + rest.value == rest.value; }
  }

  lemma CharsConcat(a: seq<Utf8.Scalar>, b: seq<Utf8.Scalar>)
    ensures Chars(a + b) == Chars(a) + Chars(b)
  {
  }

  /** Decoding escaped bytes is running the UTF-8 decoder on them. */
  lemma {:induction false} DecodePercent(d: Utf8.Decoder, bytes: seq<Utf8.Byte>, rest: string)
    ensures DecodeFrom(d, PercentBytes(bytes) + rest) ==
            match Utf8.Run(d, bytes) {
              case None => None
              case Some((e, out)) => Prepend(Chars(out), DecodeFrom(e, rest))
            }
    decreases |bytes|
  {
    if bytes == [] {
      assert PercentBytes(bytes) + rest == rest;
      PrependNothing(DecodeFrom(d, rest));
      assert Chars([]) == "";
    } else {
      var b, tail := bytes[0], bytes[1..];
      var s := PercentBytes(bytes) + rest;
      PercentHead(bytes);
      EscapeBack(b, PercentBytes(tail) + rest);
      assert s == PercentBytes([b]) + (PercentBytes(tail) + rest);
      assert s[0] == '%' && s[3..] == PercentBytes(tail) + rest;
      assert bytes == [b] + tail;
      Utf8.RunConcat(d, [b], tail);
      Utf8.RunStart(d, b);
      var fed := Utf8.Feed(d, b);
      if fed.Some? {
        DecodePercent(fed.value.0, tail, rest);
        var run := Utf8.Run(fed.value.0, tail);
        if run.Some? {
          ChainPrepend(Chars(fed.value.1), Chars(run.value.1), DecodeFrom(run.value.0, rest));
          CharsConcat(fed.value.1, run.value.1);
        }
      }
    }
  }

  /** One encoded character decodes to itself. */
  lemma DecodeOne(c: char, rest: string)
    ensures DecodeFrom(IDLE, (if Unreserved(c) then [c] else PercentBytes(Utf8.EncodeScalar(c as int))) + rest)
         == Prepend([c], DecodeFrom(IDLE, rest))
  {
    if Unreserved(c) {
      assert ([c] + rest)[1..] == rest;
    } else {
      var cp: Utf8.Scalar := c as int;
      Utf8.RunScalar(IDLE, cp);
      DecodePercent(IDLE, Utf8.EncodeScalar(cp), rest);
      assert Chars([cp]) == [c];
    }
  }

  /** `decodeURIComponent` undoes `encodeURIComponent`. */
  lemma {:induction false} DecodeEncode(s: string)
    ensures DecodeUriComponent(EncodeComponent(s)) == Some(s)
  {
    if s != "" {
      DecodeEncode(s[1..]);
      DecodeOne(s[0], EncodeComponent(s[1..]));
      assert s == [s[0]] + s[1..];
    }
  }

  lemma EncodeInjective(a: string, b: string)
    requires EncodeComponent(a) == EncodeComponent(b)
    ensures a == b
  {
    DecodeEncode(a);
    DecodeEncode(b);
  }

  lemma {:induction false} PercentNoSlash(bytes: seq<Utf8.Byte>)
    ensures '/' !in PercentBytes(bytes)
  {
    if bytes != [] { PercentNoSlash(bytes[1..]); }
  }

  lemma {:induction false} EncodeNoSlash(s: string)
    ensures '/' !in EncodeComponent(s)
  {
    if s != "" {
      EncodeNoSlash(s[1..]);
      PercentNoSlash(Utf8.EncodeScalar(s[0] as int));
    }
  }

  // ----- Maven -----

  /** `mavenCoordinate` */
  function MavenCoordinate(coordinate: string): Option<(string, string)> {
    var parts := Strings.Split(coordinate, ':');
    if |parts| != 2 || parts[0] == "" || parts[1] == "" then None else Some((parts[0], parts[1]))
  }

  function Encoded(parts: seq<string>): (r: seq<string>)
    ensures |r| == |parts| && forall i | 0 <= i < |parts| :: r[i] == EncodeComponent(parts[i])
  {
    if parts == [] then [] else [EncodeComponent(parts[0])] + Encoded(parts[1..])
  }

  /** `mavenGroupPath` */
  function MavenGroupPath(group: string): string { Strings.Join(Encoded(Strings.Split(group, '.')), "/") }

  function MavenUrl(coordinate: string, version: string): Option<string> {
    var parts := MavenCoordinate(coordinate);
    if parts.None? then None
    else
      Some(MAVEN_BASE + MavenPath(parts.value.0, parts.value.1, version))
  }

  const MAVEN_BASE := "https://repo1.maven.org/maven2/"

  function MavenFile(artifact: string, version: string): string { artifact + "-" + version + ".jar" }

  function MavenPath(group: string, artifact: string, version: string): string {
    MavenGroupPath(group) + "/" + EncodeComponent(artifact) + "/" + EncodeComponent(version) + "/"
    + EncodeComponent(MavenFile(artifact, version))
  }

  /** The path behind the repository: the group's parts, artifact, version and file. */
  function MavenSegments(group: string, artifact: string, version: string): seq<string> {
    Encoded(Strings.Split(group, '.'))
    + [EncodeComponent(artifact), EncodeComponent(version), EncodeComponent(MavenFile(artifact, version))]
  }

  lemma {:induction false} JoinConcat(a: seq<string>, b: seq<string>)
    requires a != [] && b != []
    ensures Strings.Join(a + b, "/") == Strings.Join(a, "/") + "/" + Strings.Join(b, "/")
  {
    if |a| == 1 {
      Strings.JoinCons(a[0], b, "/");
      assert a == [a[0]];
    } else {
      JoinConcat(a[1..], b);
      assert a + b == [a[0]] + (a[1..] + b);
      Strings.JoinCons(a[0], a[1..] + b, "/");
      assert a == [a[0]] + a[1..];
    }
  }

  lemma JoinThree(a: string, b: string, c: string)
    ensures Strings.Join([a, b, c], "/") == a + "/" + b + "/" + c
  {
    Strings.JoinCons(b, [c], "/");
    Strings.JoinCons(a, [b, c], "/");
    assert [b] + [c] == [b, c] && [a] + [b, c] == [a, b, c];
    assert Strings.Join([c], "/") == c;
  }

  lemma {:induction false} EncodedNoSlash(parts: seq<string>)
    ensures forall p | p in Encoded(parts) :: '/' !in p
  {
    if parts != [] {
      EncodeNoSlash(parts[0]);
      EncodedNoSlash(parts[1..]);
    }
  }

  lemma FourJoined(head: seq<string>, a: string, b: string, c: string)
    requires head != []
    ensures Strings.Join(head + [a, b, c], "/") == Strings.Join(head, "/") + "/" + a + "/" + b + "/" + c
  {
    var x := Strings.Join(head, "/");
    JoinConcat(head, [a, b, c]);
    JoinThree(a, b, c);
    assert x + "/" + (a + "/" + b + "/" + c) == x + "/" + a + "/" + b + "/" + c;
  }

  lemma MavenPathSegments(group: string, artifact: string, version: string)
    ensures Strings.Split(MavenPath(group, artifact, version), '/') == MavenSegments(group, artifact, version)
  {
    var a, b := EncodeComponent(artifact), EncodeComponent(version);
    var c := EncodeComponent(MavenFile(artifact, version));
    var head := Encoded(Strings.Split(group, '.'));
    FourJoined(head, a, b, c);
    EncodedNoSlash(Strings.Split(group, '.'));
    EncodeNoSlash(artifact);
    EncodeNoSlash(version);
    EncodeNoSlash(MavenFile(artifact, version));
    Strings.SplitJoin(head + [a, b, c], '/');
  }

  lemma EncodedInjective(a: seq<string>, b: seq<string>)
    requires Encoded(a) == Encoded(b)
    ensures a == b
  {
    assert |a| == |b|;
    forall i | 0 <= i < |a| ensures a[i] == b[i] {
      assert Encoded(a)[i] == Encoded(b)[i];
      EncodeInjective(a[i], b[i]);
    }
  }

  lemma SegmentsInjective(g: string, a: string, v: string, h: string, b: string, w: string)
    requires MavenSegments(g, a, v) == MavenSegments(h, b, w)
    ensures g == h && a == b && v == w
  {
    var x, y := Encoded(Strings.Split(g, '.')), Encoded(Strings.Split(h, '.'));
    var s, t := MavenSegments(g, a, v), MavenSegments(h, b, w);
    assert |x| == |y|;
    assert s[..|x|] == x && t[..|y|] == y;
    EncodedInjective(Strings.Split(g, '.'), Strings.Split(h, '.'));
    Strings.JoinSplit(g, '.');
    Strings.JoinSplit(h, '.');
    assert s[|x|] == t[|x|] && s[|x| + 1] == t[|x| + 1];
    EncodeInjective(a, b);
    EncodeInjective(v, w);
  }

  /** A Maven artifact URL determines coordinate and version. */
  lemma MavenUrlDetermines(c: string, v: string, d: string, w: string)
    requires MavenUrl(c, v).Some? && MavenUrl(c, v) == MavenUrl(d, w)
    ensures c == d && v == w
  {
    var (g, a) := MavenCoordinate(c).value;
    var (h, b) := MavenCoordinate(d).value;
    SamePath(MAVEN_BASE, MavenPath(g, a, v), MavenPath(h, b, w));
    MavenPathSegments(g, a, v);
    MavenPathSegments(h, b, w);
    SegmentsInjective(g, a, v, h, b, w);
    CoordinateParts(c);
    CoordinateParts(d);
  }

  lemma SamePath(base: string, x: string, y: string)
    requires base + x == base + y
    ensures x == y
  {
    assert x == (base + x)[|base|..] && y == (base + y)[|base|..];
  }

  lemma CoordinateParts(c: string)
    ensures var p := MavenCoordinate(c); p.Some? ==> c == p.value.0 + ":" + p.value.1
  {
    Strings.JoinSplit(c, ':');
    var parts := Strings.Split(c, ':');
    if |parts| == 2 {
      assert parts == [parts[0]] + [parts[1]];
      Strings.JoinCons(parts[0], [parts[1]], ":");
    }
  }

  /** There is a Maven URL exactly for two non-empty parts around the only colon. */
  lemma MavenAccepts(coordinate: string, version: string)
    ensures MavenUrl(coordinate, version).Some? <==>
            exists g, a :: g != "" && a != "" && ':' !in g && ':' !in a && coordinate == g + ":" + a
  {
    if MavenCoordinate(coordinate).Some? {
      var (g, a) := MavenCoordinate(coordinate).value;
      CoordinateParts(coordinate);
      Strings.SplitParts(coordinate, ':');
      assert g in Strings.Split(coordinate, ':') && a in Strings.Split(coordinate, ':');
    }
    forall g, a | g != "" && a != "" && ':' !in g && ':' !in a && coordinate == g + ":" + a
      ensures MavenUrl(coordinate, version).Some?
    {
      Strings.SplitAtom(a, ':');
      Strings.SplitHead(g, ':', a);
      assert g + [':'] + a == g + ":" + a;
    }
  }

  /** Each segment of a URL, decoded. */
  predicate Spells(segments: seq<string>, parts: seq<string>) {
    |segments| == |parts| && forall i | 0 <= i < |parts| :: DecodeUriComponent(segments[i]) == Some(parts[i])
  }

  /**
   * Read back, a Maven URL is the repository, the parts of the group, the
   * artifact, the version, and the file that is named after both; there is one
   * for every coordinate of two non-empty parts.
   */
  lemma MavenUrlReads(group: string, artifact: string, version: string) returns (path: string)
    requires group != "" && artifact != "" && ':' !in group && ':' !in artifact
    ensures MavenUrl(group + ":" + artifact, version) == Some("https://repo1.maven.org/maven2/" + path)
    ensures Spells(Strings.Split(path, '/'),
                   Strings.Split(group, '.') + [artifact, version, artifact + "-" + version + ".jar"])
  {
    Strings.SplitAtom(artifact, ':');
    Strings.SplitHead(group, ':', artifact);
    assert group + [':'] + artifact == group + ":" + artifact;
    path := MavenPath(group, artifact, version);
    MavenPathSegments(group, artifact, version);
    var groups := Strings.Split(group, '.');
    var parts := groups + [artifact, version, artifact + "-" + version + ".jar"];
    forall i | 0 <= i < |parts| ensures DecodeUriComponent(Strings.Split(path, '/')[i]) == Some(parts[i]) {
      DecodeEncode(parts[i]);
    }
  }

  // ----- Go -----

  /** `escapeGoUppercase`, character by character. */
  function EscapeUppercase(s: string): string {
    if s == "" then ""
    else EscapeUppercase(s[..|s| - 1]) + EscapeChar(s[|s| - 1])
  }

  function EscapeChar(c: char): string { if 'A' <= c <= 'Z' then ['!', LowerChar(c)] else [c] }

  function LowerChar(c: char): char
    requires 'A' <= c <= 'Z'
  {
    (c as int + 32) as char
  }

  method EscapeGoUppercase(value: string) returns (result: string)
    ensures result == EscapeUppercase(value)
  {
    result := "";
    for i := 0 to |value|
      invariant result == EscapeUppercase(value[..i])
    {
      assert value[..i + 1][..i] == value[..i];
      if 'A' <= value[i] <= 'Z' {
        result := result + ['!', LowerChar(value[i])];
      } else {
        result := result + [value[i]];
      }
    }
    assert value[..|value|] == value;
  }

  predicate GoFirstChar(c: char) { LowerDigit(c) || c == '.' || c == '-' }

  predicate GoFirstSegment(s: string) {
    && s != "" && LowerDigit(s[0]) && LowerDigit(s[|s| - 1])
    && (forall i | 0 <= i < |s| :: GoFirstChar(s[i])) && '.' in s
  }

  predicate GoPathChar(c: char) { AlnumChar(c) || c in "._~-" }

  predicate GoPathSegment(s: string) { s != "" && forall i | 0 <= i < |s| :: GoPathChar(s[i]) }

  predicate GoModulePath(coordinate: string) {
    && '!' !in coordinate && '\\' !in coordinate
    && var parts := Strings.Split(coordinate, '/');
       2 <= |parts| <= 32 && GoFirstSegment(parts[0]) && forall i | 1 <= i < |parts| :: GoPathSegment(parts[i])
  }

  predicate SafeNativeVersion(s: string) {
    && 1 <= |s| <= 128 && AlnumChar(s[0]) && (forall i | 0 <= i < |s| :: AlnumChar(s[i]) || s[i] in ".!_+~-")
    && !Strings.HasDouble(s, '.')
  }

  predicate GoVersion(s: string) {
    && SafeNativeVersion(s) && s[0] == 'v' && |s| >= 2
    && forall i | 1 <= i < |s| :: AlnumChar(s[i]) || s[i] in ".+~-"
  }

  const GO_BASE := "https://proxy.golang.org/"

  function GoUrl(coordinate: string, version: string): Option<string> {
    if !GoModulePath(coordinate) || !GoVersion(version) then None
    else Some(GO_BASE + EscapeUppercase(coordinate) + "/@v/" + EscapeUppercase(version) + ".zip")
  }

  lemma {:induction false} EscapeHead(c: char, t: string)
    ensures EscapeUppercase([c] + t) == EscapeChar(c) + EscapeUppercase(t)
    decreases |t|
  {
    if t == "" {
      assert [c] + t == [c];
      assert [c][..0] == "";
    } else {
      var n := |t| - 1;
      assert ([c] + t)[..|t|] == [c] + t[..n];
      EscapeHead(c, t[..n]);
    }
  }

  /** `unescape` of the module proxy protocol: `!` and a letter stand for the capital. */
  function Unescape(s: string): string {
    if s == "" then ""
    else if |s| >= 2 && s[0] == '!' && 'a' <= s[1] <= 'z' then [(s[1] as int - 32) as char] + Unescape(s[2..])
    else [s[0]] + Unescape(s[1..])
  }

  lemma {:induction false} UnescapeEscape(s: string)
    requires '!' !in s
    ensures Unescape(EscapeUppercase(s)) == s
  {
    if s != "" {
      var tail := EscapeUppercase(s[1..]);
      assert s == [s[0]] + s[1..];
      EscapeHead(s[0], s[1..]);
      UnescapeEscape(s[1..]);
      var t := EscapeChar(s[0]) + tail;
      if 'A' <= s[0] <= 'Z' { assert t[2..] == tail; } else { assert t[1..] == tail; }
    }
  }

  /** Escaping loses nothing, as long as there is no `!` to begin with. */
  lemma {:induction false} EscapeInjective(a: string, b: string)
    requires '!' !in a && '!' !in b && EscapeUppercase(a) == EscapeUppercase(b)
    ensures a == b
    decreases |a|
  {
    if a != "" { EscapeHead(a[0], a[1..]); assert a == [a[0]] + a[1..]; }
    if b != "" { EscapeHead(b[0], b[1..]); assert b == [b[0]] + b[1..]; }
    if a != "" && b != "" {
      var x, y := EscapeUppercase(a[1..]), EscapeUppercase(b[1..]);
      CharCancel(a[0], b[0], x, y);
      EscapeInjective(a[1..], b[1..]);
    }
  }

  lemma CharCancel(c: char, d: char, x: string, y: string)
    requires c != '!' && d != '!' && EscapeChar(c) + x == EscapeChar(d) + y
    ensures c == d && x == y
  {
    var s, t := EscapeChar(c) + x, EscapeChar(d) + y;
    assert s[0] == EscapeChar(c)[0] && t[0] == EscapeChar(d)[0];
    assert |EscapeChar(c)| == |EscapeChar(d)|;
    assert s[|EscapeChar(c)| - 1] == EscapeChar(c)[|EscapeChar(c)| - 1];
    assert t[|EscapeChar(d)| - 1] == EscapeChar(d)[|EscapeChar(d)| - 1];
    assert x == s[|EscapeChar(c)|..] && y == t[|EscapeChar(d)|..];
  }

  predicate NoUppercase(s: string) { forall i | 0 <= i < |s| :: !('A' <= s[i] <= 'Z') }

  lemma {:induction false} EscapedIsLower(s: string)
    ensures NoUppercase(EscapeUppercase(s))
  {
    if s != "" { EscapedIsLower(s[..|s| - 1]); }
  }

  lemma LowerIdentity(s: string)
    requires NoUppercase(s)
    ensures Strings.Lower(s) == s
  {
  }

  lemma {:induction false} EscapeKeepsOut(s: string, c: char)
    requires c !in s && !('a' <= c <= 'z') && c != '!'
    ensures c !in EscapeUppercase(s)
  {
    if s != "" { EscapeKeepsOut(s[..|s| - 1], c); }
  }

  lemma {:induction false} CoordinateHasNo(coordinate: string, c: char)
    requires c != '/' && forall p | p in Strings.Split(coordinate, '/') :: c !in p
    ensures c !in coordinate
  {
    Strings.SplitParts(coordinate, '/');
  }

  lemma GoPathNoAt(coordinate: string)
    requires GoModulePath(coordinate)
    ensures '@' !in coordinate
  {
    var parts := Strings.Split(coordinate, '/');
    forall p | p in parts ensures '@' !in p {
      var i :| 0 <= i < |parts| && parts[i] == p;
      if i > 0 { assert GoPathSegment(parts[i]); }
    }
    CoordinateHasNo(coordinate, '@');
  }

  /** The one `@` of the path separates module from version. */
  lemma AtSeparates(a: string, x: string, b: string, y: string)
    requires '@' !in a && '@' !in b && a + "@" + x == b + "@" + y
    ensures a == b && x == y
  {
    var s := a + "@" + x;
    assert s[|a|] == '@' && (b + "@" + y)[|b|] == '@';
    assert forall i | 0 <= i < |a| :: s[i] == a[i];
    assert forall i | 0 <= i < |b| :: s[i] == b[i];
    assert a == s[..|a|] && b == s[..|b|] && x == s[|a| + 1..] && y == s[|b| + 1..];
  }

  lemma GoParts(a: string, x: string, b: string, y: string)
    requires '@' !in a && '@' !in b
    requires a + "/@v/" + x + ".zip" == b + "/@v/" + y + ".zip"
    ensures a == b && x == y
  {
    assert a + "/@v/" + x + ".zip" == (a + "/") + "@" + ("v/" + x + ".zip");
    assert b + "/@v/" + y + ".zip" == (b + "/") + "@" + ("v/" + y + ".zip");
    AtSeparates(a + "/", "v/" + x + ".zip", b + "/", "v/" + y + ".zip");
    assert a == (a + "/")[..|a|] && b == (b + "/")[..|b|];
    assert x == ("v/" + x + ".zip")[2..2 + |x|] && y == ("v/" + y + ".zip")[2..2 + |y|];
  }

  /** A Go artifact URL has no upper-case letter. */
  lemma GoUrlIsLower(c: string, v: string)
    ensures GoUrl(c, v).Some? ==> NoUppercase(GoUrl(c, v).value) && Strings.Lower(GoUrl(c, v).value) == GoUrl(c, v).value
  {
    if GoUrl(c, v).Some? {
      var a, x := EscapeUppercase(c), EscapeUppercase(v);
      EscapedIsLower(c);
      EscapedIsLower(v);
      LowerConcat(GO_BASE, a);
      LowerConcat(GO_BASE + a, "/@v/");
      LowerConcat(GO_BASE + a + "/@v/", x);
      LowerConcat(GO_BASE + a + "/@v/" + x, ".zip");
      LowerIdentity(GO_BASE + a + "/@v/" + x + ".zip");
    }
  }

  lemma LowerConcat(a: string, b: string)
    requires NoUppercase(a) && NoUppercase(b)
    ensures NoUppercase(a + b)
  {
  }

  lemma GoVersionPlain(v: string)
    requires GoVersion(v)
    ensures '!' !in v
  {
  }

  /** A Go artifact URL determines module and version, even in lower case. */
  lemma GoUrlDetermines(c: string, v: string, d: string, w: string)
    requires GoUrl(c, v).Some? && GoUrl(d, w).Some?
    requires Strings.Lower(GoUrl(c, v).value) == Strings.Lower(GoUrl(d, w).value)
    ensures c == d && v == w
  {
    GoUrlIsLower(c, v);
    GoUrlIsLower(d, w);
    GoPathNoAt(c);
    GoPathNoAt(d);
    EscapeKeepsOut(c, '@');
    EscapeKeepsOut(d, '@');
    var a, x, b, y := EscapeUppercase(c), EscapeUppercase(v), EscapeUppercase(d), EscapeUppercase(w);
    Regroup(GO_BASE, a, x);
    Regroup(GO_BASE, b, y);
    SamePath(GO_BASE, a + "/@v/" + x + ".zip", b + "/@v/" + y + ".zip");
    GoParts(a, x, b, y);
    GoVersionPlain(v);
    GoVersionPlain(w);
    EscapeInjective(c, d);
    EscapeInjective(v, w);
  }

  lemma Regroup(base: string, a: string, x: string)
    ensures base + a + "/@v/" + x + ".zip" == base + (a + "/@v/" + x + ".zip")
  {
  }

  /** There is a Go URL exactly for a module path and a version of the module proxy. */
  lemma GoAccepts(coordinate: string, version: string)
    ensures GoUrl(coordinate, version).Some? <==> GoModulePath(coordinate) && GoVersion(version)
  {
  }

  /** Read back, a Go URL is the proxy, the module and the version. */
  lemma GoUrlReads(coordinate: string, version: string) returns (path: string, file: string)
    requires GoUrl(coordinate, version).Some?
    ensures GoUrl(coordinate, version).value == "https://proxy.golang.org/" + path + "/@v/" + file + ".zip"
    ensures Unescape(path) == coordinate && Unescape(file) == version
  {
    path, file := EscapeUppercase(coordinate), EscapeUppercase(version);
    GoVersionPlain(version);
    UnescapeEscape(version);
    UnescapeEscape(coordinate);
  }
}
