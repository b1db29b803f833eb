/**
 * URLs as parsed records, and percent-encoding.
 *
 * Parsing itself is library behaviour and a parameter of every operation that
 * needs it. The one thing proofs use of it is stated as `ParsesPlainly`.
 */
module Urls {
  import opened Common
  import opened Routes
  import Text
  import Utf8

  datatype Url = Url(protocol: string, username: string, password: string, hostname: string,
                     port: string, pathname: string, search: string, hash: string)

  type Parser = string -> Option<Url>

  /** Nothing but a scheme, a host and a path. */
  predicate Bare(url: Url) {
    url.username == "" && url.password == "" && url.port == "" && url.search == "" && url.hash == ""
  }

  /** Characters that `encodeURIComponent` leaves alone. */
  predicate Unreserved(c: char) { (FileChar(c) && c != '+') || c in "!~*'()" }

  predicate AllUnreserved(s: string) { forall i | 0 <= i < |s| :: Unreserved(s[i]) }

  function HexUpper(d: int): char
    requires 0 <= d < 16
  {
    if d < 10 then (48 + d) as char else (55 + d) as char
  }

  function PercentBytes(bytes: seq<Utf8.Byte>): string {
    if bytes == [] then ""
    else ['%', HexUpper(bytes[0] / 16), HexUpper(bytes[0] % 16)] + PercentBytes(bytes[1..])
  }

  /** `encodeURIComponent` */
  function EncodeComponent(s: string): string {
    if s == "" then ""
    else (if Unreserved(s[0]) then [s[0]] else PercentBytes(Utf8.EncodeScalar(s[0] as int))) + EncodeComponent(s[1..])
  }

  lemma {:induction false} EncodeUnreserved(s: string)
    requires AllUnreserved(s)
    ensures EncodeComponent(s) == s
  {
    if s != "" {
      assert s == [s[0]] + s[1..];
      EncodeUnreserved(s[1..]);
    }
  }

  /** A path no parser rewrites: letters, digits and `._-/`, and no segment
      made of dots alone. */
  predicate PlainPath(path: string) {
    && path != "" && path[0] == '/'
    && (forall i | 0 <= i < |path| :: AlnumChar(path[i]) || path[i] in "._-/")
    && forall p | p in Text.Split(path, '/') :: p != "." && p != ".."
  }

  /** The parser returns plain paths of `https:` URLs as they are. */
  ghost predicate ParsesPlainly(parse: Parser, host: string) {
    forall path | PlainPath(path) ::
      parse("https://" + host + path) == Some(Url("https:", "", "", host, "", path, "", ""))
  }
}
