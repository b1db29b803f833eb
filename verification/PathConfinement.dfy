/**
 * Path confinement of GitHub requests (`pathBeginsWithSegments` of
 * workers/shared/edge-capability.js): percent-decoding, and the algorithm of
 * RFC 3986 section 5.2.4 that a server behind the URL may apply.
 */
module PathConfinement {
  import opened Common
  import opened PercentDecoding
  import Text

  // ----- pathBeginsWithSegments -----

  predicate SafeSegment(s: string) { s != "." && s != ".." && '/' !in s && '\\' !in s }

  /** The decoded segments, unless one of them is unsafe or malformed. */
  function DecodeSegments(raw: seq<string>): Option<seq<string>> {
    if raw == [] then Some([])
    else
      var value := DecodeUriComponent(raw[|raw| - 1]);
      var front := DecodeSegments(raw[..|raw| - 1]);
      if front.None? || value.None? || !SafeSegment(value.value) then None else Some(front.value + [value.value])
  }

  function BeginsWith(pathname: string, expected: seq<string>): bool {
    var raw := Text.Split(pathname, '/')[1..];
    var decoded := DecodeSegments(raw);
    |raw| >= |expected| && decoded.Some? && expected <= decoded.value
  }

  /** The loop of `pathBeginsWithSegments`. */
  method PathBeginsWithSegments(pathname: string, expected: seq<string>) returns (accepted: bool)
    ensures accepted == BeginsWith(pathname, expected)
  {
    var raw := Text.Split(pathname, '/')[1..];
    if |raw| < |expected| { return false; }
    var decoded: seq<string> := [];
    for i := 0 to |raw|
      invariant DecodeSegments(raw[..i]) == Some(decoded)
    {
      assert raw[..i + 1][..i] == raw[..i];
      var value := DecodeUriComponent(raw[i]);
      if value.None? || !SafeSegment(value.value) {
        DecodeSegmentsFails(raw, i);
        return false;
      }
      decoded := decoded + [value.value];
    }
    assert raw[..|raw|] == raw;
    return expected <= decoded;
  }

  lemma {:induction false} DecodeSegmentsFails(raw: seq<string>, i: nat)
    requires i < |raw|
    requires var value := DecodeUriComponent(raw[i]); value.None? || !SafeSegment(value.value)
    ensures DecodeSegments(raw).None?
  {
    if i < |raw| - 1 {
      assert raw[..|raw| - 1][i] == raw[i];
      DecodeSegmentsFails(raw[..|raw| - 1], i);
    }
  }

  lemma {:induction false} DecodeSegmentsAt(raw: seq<string>)
    requires DecodeSegments(raw).Some?
    ensures var decoded := DecodeSegments(raw).value;
            |decoded| == |raw|
            && forall i | 0 <= i < |raw| :: DecodeUriComponent(raw[i]) == Some(decoded[i]) && SafeSegment(decoded[i])
  {
    if raw != [] { DecodeSegmentsAt(raw[..|raw| - 1]); }
  }

  /** The segments, decoded: none is a dot segment or holds a separator. */
  predicate DecodesTo(raw: seq<string>, decoded: seq<string>) {
    && |decoded| == |raw|
    && forall i | 0 <= i < |raw| ::
         && DecodeUriComponent(raw[i]) == Some(decoded[i]) && decoded[i] !in {".", ".."}
         && forall j | 0 <= j < |decoded[i]| :: decoded[i][j] !in "/\\"
  }

  lemma {:induction false} DecodeSegmentsExactly(raw: seq<string>, decoded: seq<string>)
    ensures DecodeSegments(raw) == Some(decoded) <==> DecodesTo(raw, decoded)
  {
    if raw != [] && decoded != [] {
      var n := |raw| - 1;
      DecodeSegmentsExactly(raw[..n], decoded[..|decoded| - 1]);
      assert decoded == decoded[..|decoded| - 1] + [decoded[|decoded| - 1]];
      SafeExactly(decoded[|decoded| - 1]);
      if DecodesTo(raw[..n], decoded[..|decoded| - 1]) {
        assert forall i | 0 <= i < n :: raw[..n][i] == raw[i] && decoded[..n][i] == decoded[i];
      }
    }
  }

  lemma SafeExactly(s: string)
    ensures SafeSegment(s) <==> s !in {".", ".."} && forall j | 0 <= j < |s| :: s[j] !in "/\\"
  {
    assert '/' in s ==> exists j :: 0 <= j < |s| && s[j] == '/';
    assert '\\' in s ==> exists j :: 0 <= j < |s| && s[j] == '\\';
  }

  /** A path is accepted exactly when each of its segments decodes to a safe one
      and the first of them are the expected ones. */
  lemma BeginsExactly(pathname: string, expected: seq<string>)
    ensures BeginsWith(pathname, expected) <==>
            exists decoded :: DecodesTo(Text.Split(pathname, '/')[1..], decoded) && expected <= decoded
  {
    var raw := Text.Split(pathname, '/')[1..];
    if DecodeSegments(raw).Some? { DecodeSegmentsExactly(raw, DecodeSegments(raw).value); }
    forall decoded | DecodesTo(raw, decoded) ensures DecodeSegments(raw) == Some(decoded) {
      DecodeSegmentsExactly(raw, decoded);
    }
  }

  /** Decoding the joined path is joining the decoded segments. */
  lemma {:induction false} DecodeJoin(raw: seq<string>, decoded: seq<string>)
    requires raw != [] && |raw| == |decoded|
    requires forall i | 0 <= i < |raw| :: DecodeUriComponent(raw[i]) == Some(decoded[i])
    ensures DecodeUriComponent(Text.Join(raw, "/")) == Some(Text.Join(decoded, "/"))
  {
    if |raw| > 1 {
      DecodeJoin(raw[1..], decoded[1..]);
      DecodeSlash(IDLE, raw[0], Text.Join(raw[1..], "/"));
    }
  }

  // ----- RFC 3986 section 5.2.4 -----

  /** The output buffer without its last segment and the slash before it. */
  function DropLast(output: string): string {
    if output == "" || output[|output| - 1] == '/' then if output == "" then "" else output[..|output| - 1]
    else DropLast(output[..|output| - 1])
  }

  /** Where the first segment ends, counting an initial slash as part of it. */
  function SegmentEnd(input: string): (n: nat)
    requires input != ""
    ensures 1 <= n <= |input|
  {
    1 + FirstSlash(input[1..])
  }

  function FirstSlash(s: string): (n: nat)
    ensures n <= |s|
  {
    if s == "" || s[0] == '/' then 0 else 1 + FirstSlash(s[1..])
  }

  function RemoveDotSegments(input: string, output: string): string
    decreases |input|
  {
    if input == "" then output
    else if "../" <= input then RemoveDotSegments(input[3..], output)
    else if "./" <= input then RemoveDotSegments(input[2..], output)
    else if "/./" <= input then RemoveDotSegments(input[2..], output)
    else if input == "/." then RemoveDotSegments("/", output)
    else if "/../" <= input then RemoveDotSegments(input[3..], DropLast(output))
    else if input == "/.." then RemoveDotSegments("/", DropLast(output))
    else if input == "." || input == ".." then output
    else
      var n := SegmentEnd(input);
      RemoveDotSegments(input[n..], output + input[..n])
  }

  /** `segments`, each behind a slash. */
  function Absolute(segments: seq<string>): string {
    if segments == [] then "" else "/" + segments[0] + Absolute(segments[1..])
  }

  lemma {:induction false} FirstSlashOf(segment: string, rest: string)
    requires '/' !in segment && (rest == "" || rest[0] == '/')
    ensures FirstSlash(segment + rest) == |segment|
  {
    if segment != "" {
      assert (segment + rest)[1..] == segment[1..] + rest;
      FirstSlashOf(segment[1..], rest);
    }
  }

  /** One segment behind a slash is no dot segment in disguise. */
  lemma NoDotPrefix(segment: string, rest: string)
    requires '/' !in segment && segment != "." && segment != ".." && (rest == "" || rest[0] == '/')
    ensures var input := "/" + segment + rest;
            && !("../" <= input) && !("./" <= input) && !("/./" <= input) && !("/../" <= input)
            && input != "/." && input != "/.." && input != "." && input != ".."
  {
    var input := "/" + segment + rest;
    assert input[0] == '/';
    assert forall i | 0 <= i < |segment| :: input[i + 1] == segment[i];
    if |segment| == 0 {
      assert |input| > 1 ==> input[1] == '/';
    } else if |segment| == 1 {
      assert |input| > 2 ==> input[2] == '/';
      assert segment == [segment[0]];
    } else if |segment| == 2 {
      assert |input| > 3 ==> input[3] == '/';
      assert segment == [segment[0], segment[1]];
    } else {
      assert input[3] == segment[2];
      assert segment[0] != '/' && segment[1] != '/' && segment[2] != '/';
    }
  }

  lemma AbsoluteHead(segments: seq<string>)
    ensures Absolute(segments) == "" || Absolute(segments)[0] == '/'
  {
  }

  lemma Regroup(output: string, head: string, rest: string)
    ensures output + head + rest == output + (head + rest)
  {
  }

  /** A path without dot segments is left as it is. */
  lemma {:induction false} NoDotsRemoved(segments: seq<string>, output: string)
    requires forall i | 0 <= i < |segments| :: SafeSegment(segments[i])
    ensures RemoveDotSegments(Absolute(segments), output) == output + Absolute(segments)
    decreases |segments|
  {
    if segments != [] {
      var head, rest := "/" + segments[0], Absolute(segments[1..]);
      assert Absolute(segments) == head + rest;
      AbsoluteHead(segments[1..]);
      OneSegment(segments[0], rest, output);
      NoDotsRemoved(segments[1..], output + head);
      Regroup(output, head, rest);
    }
  }

  lemma OneSegment(segment: string, rest: string, output: string)
    requires SafeSegment(segment) && (rest == "" || rest[0] == '/')
    ensures RemoveDotSegments("/" + segment + rest, output) == RemoveDotSegments(rest, output + ("/" + segment))
  {
    var input := "/" + segment + rest;
    NoDotPrefix(segment, rest);
    FirstSlashOf(segment, rest);
    assert input[1..] == segment + rest;
    var n := SegmentEnd(input);
    assert n == 1 + |segment|;
    assert input[n..] == rest && input[..n] == "/" + segment;
  }

  lemma {:induction false} AbsoluteJoin(segments: seq<string>)
    requires segments != []
    ensures Absolute(segments) == "/" + Text.Join(segments, "/")
  {
    if |segments| > 1 {
      AbsoluteJoin(segments[1..]);
    } else {
      assert Absolute(segments[1..]) == "";
    }
  }

  lemma AbsoluteConcat(a: seq<string>, b: seq<string>)
    ensures Absolute(a + b) == Absolute(a) + Absolute(b)
  {
    if a == [] {
      assert a + b == b;
    } else {
      assert (a + b)[1..] == a[1..] + b;
      AbsoluteConcat(a[1..], b);
    }
  }

  /**
   * An accepted path, percent-decoded once and then freed of dot segments, is
   * the expected segments followed by nothing or by further segments.
   */
  lemma AcceptedPathIsConfined(pathname: string, expected: seq<string>) returns (rest: seq<string>)
    requires pathname != "" && pathname[0] == '/' && BeginsWith(pathname, expected)
    ensures DecodeUriComponent(pathname) == Some(Absolute(expected + rest))
    ensures RemoveDotSegments(Absolute(expected + rest), "") == Absolute(expected) + Absolute(rest)
    ensures Absolute(rest) == "" || Absolute(rest)[0] == '/'
  {
    var parts := Text.Split(pathname, '/');
    var raw := parts[1..];
    Text.SplitHead("", '/', pathname[1..]);
    assert [] + ['/'] + pathname[1..] == pathname;
    assert raw == Text.Split(pathname[1..], '/');
    DecodeSegmentsAt(raw);
    var decoded := DecodeSegments(raw).value;
    rest := decoded[|expected|..];
    assert decoded == expected + rest;
    Text.JoinSplit(pathname[1..], '/');
    assert ['/'] == "/";
    DecodeJoin(raw, decoded);
    DecodeSlash(IDLE, "", pathname[1..]);
    assert "" + "/" + pathname[1..] == pathname;
    AbsoluteJoin(decoded);
    NoDotsRemoved(decoded, "");
    AbsoluteConcat(expected, rest);
    AbsoluteHead(rest);
  }
}
