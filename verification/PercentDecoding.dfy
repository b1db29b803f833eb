/** `decodeURIComponent`. */
module PercentDecoding {
  import opened Common
  import Utf8

  function HexValue(c: char): Option<int> {
    if '0' <= c <= '9' then Some(c as int - 48)
    else if 'a' <= c <= 'f' then Some(c as int - 87)
    else if 'A' <= c <= 'F' then Some(c as int - 55)
    else None
  }

  /** The byte of an escape `%XX` at the head of `s`. */
  function EscapeByte(s: string): Option<Utf8.Byte> {
    if |s| < 3 || s[0] != '%' then None
    else
      var high, low := HexValue(s[1]), HexValue(s[2]);
      if high.None? || low.None? || !(0 <= high.value < 16 && 0 <= low.value < 16) then None
      else Some(high.value * 16 + low.value)
  }

  /** Hexadecimal digits in either case. */
  lemma HexExactly(c: char, d: int)
    ensures HexValue(c) == Some(d) <==>
            0 <= d < 16 && (c == "0123456789abcdef"[d] || c == "0123456789ABCDEF"[d])
  {
  }

  /** An escape is a percent sign and two hexadecimal digits, the high one first. */
  lemma EscapeExactly(s: string, byte: Utf8.Byte)
    ensures EscapeByte(s) == Some(byte) <==>
            |s| >= 3 && s[0] == '%' && HexValue(s[1]) == Some(byte / 16) && HexValue(s[2]) == Some(byte % 16)
  {
  }

  function Chars(cs: seq<Utf8.Scalar>): string {
    seq(|cs|, i requires 0 <= i < |cs| => cs[i] as char)
  }

  /** Between characters; a byte order mark is a character like any other. */
  const IDLE := Utf8.START.(started := true)

  /** Escapes spell UTF-8 bytes; everything else stands for itself. */
  function DecodeFrom(d: Utf8.Decoder, s: string): Option<string>
    decreases |s|
  {
    if s == "" then if d.needed == 0 then Some("") else None
    else if s[0] != '%' then
      if d.needed != 0 then None else Prepend([s[0]], DecodeFrom(IDLE, s[1..]))
    else
      var byte := EscapeByte(s);
      if byte.None? then None
      else
        match Utf8.Feed(d, byte.value)
        case None => None
        case Some((e, out)) => Prepend(Chars(out), DecodeFrom(e, s[3..]))
  }

  function Prepend(head: string, rest: Option<string>): Option<string> {
    if rest.None? then None else Some(head + rest.value)
  }

  function DecodeUriComponent(s: string): Option<string> { DecodeFrom(IDLE, s) }

  /** Two decoded texts around a slash. */
  function Around(x: Option<string>, y: Option<string>): Option<string> {
    if x.None? || y.None? then None else Some(x.value + "/" + y.value)
  }

  lemma PrependAround(head: string, x: Option<string>, y: Option<string>)
    ensures Prepend(head, Around(x, y)) == Around(Prepend(head, x), y)
  {
    if x.Some? && y.Some? { assert head + (x.value + "/" + y.value) == head + x.value + "/" + y.value; }
  }

  /** Decoding passes over a slash without looking back. */
  lemma {:induction false} DecodeSlash(d: Utf8.Decoder, a: string, b: string)
    ensures DecodeFrom(d, a + "/" + b) == Around(DecodeFrom(d, a), DecodeUriComponent(b))
    decreases |a|
  {
    var s := a + "/" + b;
    if a == "" {
      assert s[0] == '/' && s[1..] == b;
      assert "" + "/" == "/";
    } else if a[0] != '%' {
      assert s[0] == a[0] && s[1..] == a[1..] + "/" + b;
      DecodeSlash(IDLE, a[1..], b);
      PrependAround([a[0]], DecodeFrom(IDLE, a[1..]), DecodeUriComponent(b));
    } else if |a| < 3 {
      assert s[|a|] == '/';
      assert EscapeByte(s).None? && EscapeByte(a).None?;
    } else {
      assert s[3..] == a[3..] + "/" + b;
      assert s[0] == a[0] && s[1] == a[1] && s[2] == a[2];
      assert EscapeByte(s) == EscapeByte(a);
      if EscapeByte(a).Some? {
        var fed := Utf8.Feed(d, EscapeByte(a).value);
        if fed.Some? {
          DecodeSlash(fed.value.0, a[3..], b);
          PrependAround(Chars(fed.value.1), DecodeFrom(fed.value.0, a[3..]), DecodeUriComponent(b));
        }
      }
    }
  }
}
