/**
 * The `z1_` coordinate codec and the registry coordinate grammars
 * (workers/shared/native-registry-catalog.js).
 */
module NativeCoordinate {
  import opened Common
  import opened Utf8
  import Text

  // ----- Base64, RFC 4648 section 4, and its URL-safe alphabet, section 5 -----

  type Sextet = x: int | 0 <= x < 64

  function Symbol(v: Sextet): char {
    if v < 26 then (65 + v) as char
    else if v < 52 then (71 + v) as char
    else if v < 62 then (v - 4) as char
    else if v == 62 then '+' else '/'
  }

  function SymbolValue(c: char): Option<Sextet> {
    if 'A' <= c <= 'Z' then Some(c as int - 65)
    else if 'a' <= c <= 'z' then Some(c as int - 71)
    else if '0' <= c <= '9' then Some(c as int + 4)
    else if c == '+' then Some(62)
    else if c == '/' then Some(63)
    else None
  }

  /** Base64 symbols without padding. */
  function Symbols(b: seq<Byte>): string {
    if |b| == 0 then ""
    else if |b| == 1 then [Symbol(b[0] / 4), Symbol(b[0] % 4 * 16)]
    else if |b| == 2 then
      [Symbol(b[0] / 4), Symbol(b[0] % 4 * 16 + b[1] / 16), Symbol(b[1] % 16 * 4)]
    else
      [Symbol(b[0] / 4), Symbol(b[0] % 4 * 16 + b[1] / 16), Symbol(b[1] % 16 * 4 + b[2] / 64), Symbol(b[2] % 64)]
      + Symbols(b[3..])
  }

  function PadLength(n: nat): nat { (4 - n % 4) % 4 }

  function Btoa(b: seq<Byte>): string {
    Symbols(b) + Text.Repeat('=', PadLength(|Symbols(b)|))
  }

  /** The bytes of unpadded symbols; leftover bits are discarded, and a foreign
      character or a single leftover symbol is refused. */
  function Unsymbols(s: string): Option<seq<Byte>> {
    if |s| == 0 then Some([])
    else if |s| == 1 then None
    else
      match (SymbolValue(s[0]), SymbolValue(s[1]))
      case (Some(a), Some(b)) =>
        if |s| == 2 then Some([a * 4 + b / 16])
        else (
          match SymbolValue(s[2])
          case None => None
          case Some(c) =>
            if |s| == 3 then Some([a * 4 + b / 16, b % 16 * 16 + c / 4])
            else
              match (SymbolValue(s[3]), Unsymbols(s[4..]))
              case (Some(d), Some(rest)) =>
                Some([a * 4 + b / 16, b % 16 * 16 + c / 4, c % 4 * 64 + d] + rest)
              case _ => None
        )
      case _ => None
  }

  /** Up to two pad characters are dropped when the length is a multiple of four. */
  function Unpad(s: string): string {
    if |s| % 4 != 0 || s == "" || s[|s| - 1] != '=' then s
    else if s[|s| - 2] == '=' then s[..|s| - 2]
    else s[..|s| - 1]
  }

  /** `atob` on text without white space. */
  function Atob(s: string): Option<seq<Byte>> { Unsymbols(Unpad(s)) }

  function ToUrlSymbol(c: char): char { if c == '+' then '-' else if c == '/' then '_' else c }

  function FromUrlSymbol(c: char): char { if c == '-' then '+' else if c == '_' then '/' else c }

  function ToUrl(s: string): string { seq(|s|, i requires 0 <= i < |s| => ToUrlSymbol(s[i])) }

  function FromUrl(s: string): string { seq(|s|, i requires 0 <= i < |s| => FromUrlSymbol(s[i])) }

  // ----- encodeNativeCoordinate and decodeNativeCoordinate -----

  const MAX_COORDINATE := 1024
  const MAX_SEGMENT := 2048
  const PREFIX := "z1_"

  /** The segment that `EncodeNativeCoordinate` answers. */
  function Segment(value: seq<CodeUnit>): Option<string> {
    if |value| == 0 || |value| > MAX_COORDINATE then None
    else Some(PREFIX + Text.TrimEnd(ToUrl(Btoa(Utf8Bytes(value))), '='))
  }

  method EncodeNativeCoordinate(value: seq<CodeUnit>) returns (segment: Option<string>)
    ensures segment == Segment(value)
  {
    if |value| == 0 || |value| > MAX_COORDINATE {
      return None;
    }
    var bytes := Utf8Bytes(value);
    var binary: seq<Byte> := [];
    for i := 0 to |bytes|
      invariant binary == bytes[..i]
    {
      binary := binary + [bytes[i]];
    }
    assert binary == bytes;
    segment := Some(PREFIX + Text.TrimEnd(ToUrl(Btoa(binary)), '='));
  }

  predicate UrlSymbol(c: char) {
    'A' <= c <= 'Z' || 'a' <= c <= 'z' || '0' <= c <= '9' || c == '_' || c == '-'
  }

  predicate SegmentGrammar(s: string, max: nat) {
    && |s| > 3 && s[..3] == PREFIX && |s| - 3 <= max
    && forall i | 3 <= i < |s| :: UrlSymbol(s[i])
  }

  function DecodeNativeCoordinate(segment: string): Option<seq<CodeUnit>> {
    if !SegmentGrammar(segment, MAX_SEGMENT) then None
    else
      var raw := FromUrl(segment[3..]);
      match Atob(raw + Text.Repeat('=', PadLength(|raw|)))
      case None => None
      case Some(bytes) =>
        match Decode(bytes)
        case None => None
        case Some(scalars) => Some(FromScalars(scalars))
  }

  lemma SymbolBack(v: Sextet)
    ensures SymbolValue(Symbol(v)) == Some(v) && Symbol(v) != '='
  {
  }

  lemma UnsymbolsQuad(q: string, a: Sextet, b: Sextet, c: Sextet, d: Sextet, rest: string, out: seq<Byte>)
    requires |q| == 4 && SymbolValue(q[0]) == Some(a) && SymbolValue(q[1]) == Some(b)
    requires SymbolValue(q[2]) == Some(c) && SymbolValue(q[3]) == Some(d)
    requires Unsymbols(rest) == Some(out)
    ensures Unsymbols(q + rest) == Some([a * 4 + b / 16, b % 16 * 16 + c / 4, c % 4 * 64 + d] + out)
  {
    assert (q + rest)[4..] == rest;
  }

  lemma UnsymbolsFour(a: Sextet, b: Sextet, c: Sextet, d: Sextet, rest: string)
    requires Unsymbols(rest).Some?
    ensures Unsymbols([Symbol(a), Symbol(b), Symbol(c), Symbol(d)] + rest) ==
            Some([a * 4 + b / 16, b % 16 * 16 + c / 4, c % 4 * 64 + d] + Unsymbols(rest).value)
  {
    SymbolBack(a);
    SymbolBack(b);
    SymbolBack(c);
    SymbolBack(d);
    UnsymbolsQuad([Symbol(a), Symbol(b), Symbol(c), Symbol(d)], a, b, c, d, rest, Unsymbols(rest).value);
  }

  lemma UnsymbolsShort(a: Sextet, b: Sextet, c: Sextet)
    ensures Unsymbols([Symbol(a), Symbol(b)]) == Some([a * 4 + b / 16])
    ensures Unsymbols([Symbol(a), Symbol(b), Symbol(c)]) == Some([a * 4 + b / 16, b % 16 * 16 + c / 4])
  {
    SymbolBack(a);
    SymbolBack(b);
    SymbolBack(c);
  }

  /** Six-bit groups of three bytes, and back. */
  lemma Regroup(x: Byte, y: Byte, z: Byte)
    ensures x / 4 * 4 + (x % 4 * 16 + y / 16) / 16 == x
    ensures (x % 4 * 16 + y / 16) % 16 * 16 + (y % 16 * 4 + z / 64) / 4 == y
    ensures (y % 16 * 4 + z / 64) % 4 * 64 + z % 64 == z
  {
  }

  lemma LengthStep(n: nat, m: nat)
    requires n > 2 && m == (4 * (n - 3) + 2) / 3 && m % 4 != 1
    ensures 4 + m == (4 * n + 2) / 3 && (4 + m) % 4 != 1
  {
  }

  lemma {:induction false} SymbolsLength(b: seq<Byte>)
    ensures |Symbols(b)| == (4 * |b| + 2) / 3
    ensures |Symbols(b)| % 4 != 1
  {
    if |b| > 2 {
      SymbolsLength(b[3..]);
      LengthStep(|b|, |Symbols(b[3..])|);
    }
  }

  /** No symbol is the pad character. */
  lemma {:induction false} SymbolsNotPad(b: seq<Byte>)
    ensures forall c | c in Symbols(b) :: SymbolValue(c).Some?
  {
    if |b| > 2 { SymbolsNotPad(b[3..]); }
  }

  lemma SymbolsBackThree(x: Byte, y: Byte, z: Byte, rest: seq<Byte>, s: string)
    requires Unsymbols(s) == Some(rest)
    ensures Unsymbols([Symbol(x / 4), Symbol(x % 4 * 16 + y / 16), Symbol(y % 16 * 4 + z / 64), Symbol(z % 64)] + s)
            == Some([x, y, z] + rest)
  {
    UnsymbolsFour(x / 4, x % 4 * 16 + y / 16, y % 16 * 4 + z / 64, z % 64, s);
    Regroup(x, y, z);
  }

  /** Reading the symbols of `b` gives `b` back. */
  lemma {:induction false} SymbolsBack(b: seq<Byte>)
    ensures Unsymbols(Symbols(b)) == Some(b)
  {
    if |b| > 2 {
      SymbolsBack(b[3..]);
      SymbolsBackThree(b[0], b[1], b[2], b[3..], Symbols(b[3..]));
      assert b == [b[0], b[1], b[2]] + b[3..];
    } else if |b| == 2 {
      UnsymbolsShort(b[0] / 4, b[0] % 4 * 16 + b[1] / 16, b[1] % 16 * 4);
      Regroup(b[0], b[1], 0);
      assert b == [b[0], b[1]];
    } else if |b| == 1 {
      UnsymbolsShort(b[0] / 4, b[0] % 4 * 16, 0);
      Regroup(b[0], 0, 0);
      assert b == [b[0]];
    }
  }

  lemma UnpadPadded(s: string)
    requires |s| % 4 != 1 && (s == "" || s[|s| - 1] != '=')
    ensures Unpad(s + Text.Repeat('=', PadLength(|s|))) == s
  {
    var t := s + Text.Repeat('=', PadLength(|s|));
    if s != [] { assert t[|s| - 1] == s[|s| - 1] != '='; }
    assert t[..|s|] == s && |t| == |s| + PadLength(|s|);
  }

  lemma SymbolsUnpad(b: seq<Byte>, s: string)
    requires s == Symbols(b)
    ensures Unpad(s + Text.Repeat('=', PadLength(|s|))) == s
    ensures s == "" || s[|s| - 1] != '='
  {
    SymbolsNotPad(b);
    SymbolsLength(b);
    if s != "" { assert s[|s| - 1] in s && SymbolValue('=').None?; }
    UnpadPadded(s);
  }

  lemma AtobBtoa(b: seq<Byte>)
    ensures Atob(Btoa(b)) == Some(b)
  {
    SymbolsUnpad(b, Symbols(b));
    SymbolsBack(b);
  }

  lemma {:induction false} TrimPad(s: string, n: nat)
    requires s == [] || s[|s| - 1] != '='
    ensures Text.TrimEnd(s + Text.Repeat('=', n), '=') == s
  {
    var t := s + Text.Repeat('=', n);
    if n > 0 {
      TrimPad(s, n - 1);
      assert t[..|t| - 1] == s + Text.Repeat('=', n - 1);
    } else {
      assert t == s;
    }
  }

  /** Encoding is `z1_` and the URL-safe symbols of the UTF-8 bytes, nothing else. */
  lemma SegmentText(value: seq<CodeUnit>)
    requires 1 <= |value| <= MAX_COORDINATE
    ensures Segment(value) == Some(PREFIX + ToUrl(Symbols(Utf8Bytes(value))))
  {
    var bytes := Utf8Bytes(value);
    SymbolsUnpad(bytes, Symbols(bytes));
    UrlTrim(Symbols(bytes), PadLength(|Symbols(bytes)|));
  }

  lemma UrlTrim(s: string, n: nat)
    requires s == "" || s[|s| - 1] != '='
    ensures Text.TrimEnd(ToUrl(s + Text.Repeat('=', n)), '=') == ToUrl(s)
  {
    assert ToUrl(s + Text.Repeat('=', n)) == ToUrl(s) + Text.Repeat('=', n);
    TrimPad(ToUrl(s), n);
  }

  lemma UrlBack(s: string)
    requires forall c | c in s :: SymbolValue(c).Some?
    ensures FromUrl(ToUrl(s)) == s
    ensures forall i | 0 <= i < |s| :: UrlSymbol(ToUrl(s)[i])
  {
    forall i | 0 <= i < |s| ensures UrlSymbol(ToUrl(s)[i]) && FromUrl(ToUrl(s))[i] == s[i] {
      assert s[i] in s;
    }
  }

  lemma {:induction false} Utf8BytesBounds(value: seq<CodeUnit>)
    ensures |value| <= 2 * |ToScalars(value)|
    ensures |ToScalars(value)| <= |value|
    ensures |ToScalars(value)| <= |Utf8Bytes(value)|
  {
    EncodeLength(ToScalars(value));
    if StartsWithPair(value) { Utf8BytesBounds(value[2..]); }
    else if value != [] { Utf8BytesBounds(value[1..]); }
  }

  /** A segment is 3 characters longer than 4/3 of the UTF-8 length, rounded up. */
  lemma SegmentShape(value: seq<CodeUnit>)
    requires Segment(value).Some?
    ensures var s := Segment(value).value;
      && |s| == 3 + (4 * |Utf8Bytes(value)| + 2) / 3
      && |Utf8Bytes(value)| > 0
      && (forall max: nat :: SegmentGrammar(s, max) == (|s| - 3 <= max))
      && FromUrl(s[3..]) == Symbols(Utf8Bytes(value))
  {
    SegmentText(value);
    Utf8BytesBounds(value);
    var syms := Symbols(Utf8Bytes(value));
    SymbolsNotPad(Utf8Bytes(value));
    SymbolsLength(Utf8Bytes(value));
    UrlBack(syms);
    var s := Segment(value).value;
    assert s[..3] == PREFIX && s[3..] == ToUrl(syms);
    forall i | 3 <= i < |s| ensures UrlSymbol(s[i]) {
      assert s[i] == ToUrl(syms)[i - 3];
    }
  }

  /** What decoding a segment made by the encoder answers. */
  lemma DecodeSegment(value: seq<CodeUnit>)
    requires 1 <= |value| <= MAX_COORDINATE
    ensures DecodeNativeCoordinate(Segment(value).value) ==
            if |Utf8Bytes(value)| <= 1536 then Some(FromScalars(StripBom(ToScalars(value)))) else None
  {
    var bytes := Utf8Bytes(value);
    SegmentShape(value);
    AtobBtoa(bytes);
    assert Encode(ToScalars(value)) == bytes;
    DecodeExactly(bytes, StripBom(ToScalars(value)));
    assert SegmentGrammar(Segment(value).value, MAX_SEGMENT) == (|bytes| <= 1536);
  }

  /** A dropped byte order mark and a replaced surrogate are both visible. */
  lemma ScalarTrip(value: seq<CodeUnit>)
    requires value != []
    ensures FromScalars(StripBom(ToScalars(value))) == value <==> WellFormed(value) && value[0] != BOM
  {
    ScalarsRoundTrip(value);
    var scalars := ToScalars(value);
    assert scalars[0] == BOM <==> value[0] == BOM;
    if value[0] == BOM {
      assert scalars[1..] == ToScalars(value[1..]);
      ScalarsRoundTrip(value[1..]);
    }
  }

  /**
   * Exactly when a coordinate survives its own encoding: it is well-formed
   * UTF-16, it does not start with a byte order mark, and its UTF-8 form has
   * at most 1536 bytes, the most that 2048 symbols carry.
   */
  lemma CodecRoundTrip(value: seq<CodeUnit>)
    requires 1 <= |value| <= MAX_COORDINATE
    ensures Segment(value).Some?
    ensures DecodeNativeCoordinate(Segment(value).value) == Some(value) <==>
            WellFormed(value) && value[0] != BOM && |Utf8Bytes(value)| <= 1536
  {
    DecodeSegment(value);
    ScalarTrip(value);
  }
}
