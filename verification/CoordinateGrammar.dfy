/**
 * Which native coordinates each registry accepts, and their trip through a
 * package path segment (workers/shared/native-registry-catalog.js).
 */
module CoordinateGrammar {
  import opened Common
  import opened Utf8
  import opened NativeCoordinate
  import Text

  /** `coordinateKind`; `Simple` stands for every kind the switch does not name. */
  datatype Kind = Npm | Jsr | Maven | Composer | Go | Terraform | Oci | Simple

  const DOT: CodeUnit := 46
  const SLASH: CodeUnit := 47
  const COLON: CodeUnit := 58
  const AT: CodeUnit := 64
  const BACKSLASH: CodeUnit := 92

  predicate Digit(u: int) { 48 <= u <= 57 }

  predicate LowerAlnum(u: int) { Digit(u) || 97 <= u <= 122 }

  predicate Alnum(u: int) { LowerAlnum(u) || 65 <= u <= 90 }

  /** Letters, digits and `. _ -` */
  predicate WordUnit(u: int) { Alnum(u) || u == 46 || u == 95 || u == 45 }

  predicate ComponentUnit(u: int) { WordUnit(u) || u == 43 || u == 64 }

  predicate SafeComponent(p: seq<CodeUnit>) {
    1 <= |p| <= 192 && Alnum(p[0]) && forall u | u in p :: ComponentUnit(u)
  }

  predicate SafeMavenGroup(p: seq<CodeUnit>) {
    1 <= |p| <= 192 && Alnum(p[0]) && forall u | u in p :: WordUnit(u)
  }

  /** An npm scope: `@` and a component of at most 128 word characters. */
  predicate SafeScope(p: seq<CodeUnit>) {
    2 <= |p| <= 129 && p[0] == AT && Alnum(p[1]) && forall u | u in p[1..] :: WordUnit(u)
  }

  /** Runs of lower-case letters and digits, joined by single separators. */
  predicate OciPart(p: seq<CodeUnit>) {
    && p != [] && LowerAlnum(p[0]) && LowerAlnum(p[|p| - 1])
    && (forall i | 0 <= i < |p| :: LowerAlnum(p[i]) || p[i] == 46 || p[i] == 95 || p[i] == 45)
    && (forall i | 0 < i < |p| :: LowerAlnum(p[i - 1]) || LowerAlnum(p[i]))
  }

  predicate AllSafe(parts: seq<seq<CodeUnit>>) { forall p | p in parts :: SafeComponent(p) }

  predicate PathShaped(s: seq<CodeUnit>) {
    && BACKSLASH !in s && !Text.HasDouble(s, DOT)
    && s != [] && s[0] != SLASH && s[|s| - 1] != SLASH
  }

  predicate GrammarAccepts(kind: Kind, s: seq<CodeUnit>) {
    var bySlash := Text.Split(s, SLASH);
    match kind
    case Npm => JsLike(s)
    case Jsr => JsLike(s)
    case Maven =>
      var parts := Text.Split(s, COLON);
      |parts| == 2 && SafeMavenGroup(parts[0]) && SafeComponent(parts[1])
    case Composer => |bySlash| == 2 && AllSafe(bySlash)
    case Go => PathShaped(s) && 2 <= |bySlash| <= 32 && AllSafe(bySlash)
    case Terraform => 2 <= |bySlash| <= 3 && AllSafe(bySlash)
    case Oci => PathShaped(s) && |bySlash| <= 16 && forall p | p in bySlash :: OciPart(p)
    case Simple => SafeComponent(s) && !Text.HasDouble(s, DOT) && SLASH !in s && BACKSLASH !in s
  }

  predicate JsLike(s: seq<CodeUnit>) {
    if s != [] && s[0] == AT then
      var parts := Text.Split(s, SLASH);
      |parts| == 2 && SafeScope(parts[0]) && SafeComponent(parts[1])
    else
      SafeComponent(s) && SLASH !in s && BACKSLASH !in s
  }

  /** `isValidNativeCoordinate` for a known registry entry. */
  predicate IsValidNativeCoordinate(kind: Kind, s: seq<CodeUnit>) {
    && 1 <= |s| <= MAX_COORDINATE
    && 0 !in s && 10 !in s && 13 !in s
    && GrammarAccepts(kind, s)
  }

  function DecodeAndValidate(kind: Kind, encodedOrLegacy: string): Option<seq<CodeUnit>> {
    var decoded := if PREFIX <= encodedOrLegacy then DecodeNativeCoordinate(encodedOrLegacy)
                   else Some(Utf16(encodedOrLegacy));
    if decoded.Some? && IsValidNativeCoordinate(kind, decoded.value) then decoded else None
  }

  predicate Ascii(s: seq<CodeUnit>) { forall u | u in s :: u < 0x80 }

  lemma PartsAscii(s: seq<CodeUnit>, sep: CodeUnit)
    requires sep < 0x80 && forall p | p in Text.Split(s, sep) :: Ascii(p)
    ensures Ascii(s)
  {
    Text.SplitParts(s, sep);
  }

  lemma AcceptedIsAscii(kind: Kind, s: seq<CodeUnit>)
    requires s != [] && GrammarAccepts(kind, s)
    ensures Ascii(s)
  {
    if kind.Maven? {
      PartsAscii(s, COLON);
    } else if kind.Simple? || ((kind.Npm? || kind.Jsr?) && s[0] != AT) {
      assert SafeComponent(s);
    } else {
      var parts := Text.Split(s, SLASH);
      forall p | p in parts ensures Ascii(p) {
        if kind.Npm? || kind.Jsr? {
          if p == parts[0] { assert p == [p[0]] + p[1..]; }
        }
      }
      PartsAscii(s, SLASH);
    }
  }

  lemma {:induction false} AsciiScalars(s: seq<CodeUnit>)
    requires Ascii(s)
    ensures WellFormed(s) && ToScalars(s) == s
  {
    if s != [] {
      assert s[0] in s;
      assert forall u | u in s[1..] :: u in s;
      AsciiScalars(s[1..]);
      assert s == [s[0]] + s[1..];
    }
  }

  /**
   * A coordinate that any registry accepts fits one package segment of the
   * router (`z1_` and at most 1366 symbols), and that segment decodes and
   * validates back to the same coordinate.
   */
  lemma AcceptedCoordinateRoundTrips(kind: Kind, s: seq<CodeUnit>)
    requires IsValidNativeCoordinate(kind, s)
    ensures Segment(s).Some? && SegmentGrammar(Segment(s).value, 1366)
    ensures DecodeAndValidate(kind, Segment(s).value) == Some(s)
  {
    AcceptedIsAscii(kind, s);
    AsciiFits(s);
    CodecRoundTrip(s);
    SegmentShape(s);
    var segment := Segment(s).value;
    assert PREFIX == segment[..|PREFIX|];
  }

  lemma AsciiFits(s: seq<CodeUnit>)
    requires 1 <= |s| <= MAX_COORDINATE && Ascii(s)
    ensures WellFormed(s) && s[0] != BOM && |Utf8Bytes(s)| <= 1024
    ensures Segment(s).Some? && SegmentGrammar(Segment(s).value, 1366)
  {
    AsciiScalars(s);
    assert forall i | 0 <= i < |s| :: s[i] in s;
    EncodeLength(ToScalars(s));
    SegmentShape(s);
  }

  // ----- which segments are the encoder's own -----

  /** The bits that the last symbol has to spare. */
  predicate SpareBitsZero(raw: string) {
    if |raw| % 4 == 2 then SymbolValue(raw[|raw| - 1]).Some? && SymbolValue(raw[|raw| - 1]).value % 16 == 0
    else if |raw| % 4 == 3 then SymbolValue(raw[|raw| - 1]).Some? && SymbolValue(raw[|raw| - 1]).value % 4 == 0
    else true
  }

  lemma ValueSymbol(c: char)
    requires SymbolValue(c).Some?
    ensures Symbol(SymbolValue(c).value) == c
  {
  }

  lemma SymbolsOfQuad(a: Sextet, b: Sextet, c: Sextet, d: Sextet)
    ensures Symbols([a * 4 + b / 16, b % 16 * 16 + c / 4, c % 4 * 64 + d]) ==
            [Symbol(a), Symbol(b), Symbol(c), Symbol(d)]
  {
    QuadDigits(a, b, c, d);
    var x, y, z := a * 4 + b / 16, b % 16 * 16 + c / 4, c % 4 * 64 + d;
    assert [x, y, z][3..] == [];
  }

  lemma QuadDigits(a: Sextet, b: Sextet, c: Sextet, d: Sextet)
    ensures var x, y, z := a * 4 + b / 16, b % 16 * 16 + c / 4, c % 4 * 64 + d;
            x / 4 == a && x % 4 * 16 + y / 16 == b && y % 16 * 4 + z / 64 == c && z % 64 == d
  {
  }

  lemma SymbolsOfTwo(a: Sextet, b: Sextet)
    ensures Symbols([a * 4 + b / 16]) == [Symbol(a), Symbol(b / 16 * 16)]
  {
  }

  lemma SymbolsOfThree(a: Sextet, b: Sextet, c: Sextet)
    ensures Symbols([a * 4 + b / 16, b % 16 * 16 + c / 4]) == [Symbol(a), Symbol(b), Symbol(c / 4 * 4)]
  {
  }

  lemma SymbolInjective(a: Sextet, b: Sextet)
    requires Symbol(a) == Symbol(b)
    ensures a == b
  {
    SymbolBack(a);
    SymbolBack(b);
  }

  lemma SymbolsConcat(head: seq<Byte>, rest: seq<Byte>)
    requires |head| == 3
    ensures Symbols(head + rest) == Symbols(head) + Symbols(rest)
  {
    var all := head + rest;
    assert all[0] == head[0] && all[1] == head[1] && all[2] == head[2];
    assert all[3..] == rest && head[3..] == [];
    assert Symbols([]) == "";
  }

  lemma QuadBack(q: string, t: string, a: Sextet, b: Sextet, c: Sextet, d: Sextet, rest: seq<Byte>)
    requires |q| == 4 && SymbolValue(q[0]) == Some(a) && SymbolValue(q[1]) == Some(b)
    requires SymbolValue(q[2]) == Some(c) && SymbolValue(q[3]) == Some(d)
    requires Unsymbols(t) == Some(rest)
    ensures Unsymbols(q + t).Some? && Symbols(Unsymbols(q + t).value) == q + Symbols(rest)
  {
    UnsymbolsQuad(q, a, b, c, d, t, rest);
    SymbolsOfQuad(a, b, c, d);
    SymbolsConcat([a * 4 + b / 16, b % 16 * 16 + c / 4, c % 4 * 64 + d], rest);
    ValueSymbol(q[0]);
    ValueSymbol(q[1]);
    ValueSymbol(q[2]);
    ValueSymbol(q[3]);
    assert q == [q[0], q[1], q[2], q[3]];
  }

  lemma SpareTail(q: string, t: string)
    requires |q| == 4
    ensures SpareBitsZero(q + t) == SpareBitsZero(t)
    ensures forall u: string :: q + u == q + t <==> u == t
  {
    assert |q + t| % 4 == |t| % 4;
    forall u: string | q + u == q + t ensures u == t {
      assert u == (q + u)[4..] && t == (q + t)[4..];
    }
  }

  lemma FirstFour(raw: string)
    requires |raw| >= 4 && Unsymbols(raw).Some?
    ensures SymbolValue(raw[0]).Some? && SymbolValue(raw[1]).Some?
    ensures SymbolValue(raw[2]).Some? && SymbolValue(raw[3]).Some? && Unsymbols(raw[4..]).Some?
  {
  }

  /** Writing the bytes of accepted symbols gives the symbols back exactly when no spare bit is set. */
  lemma {:induction false} SymbolsOfUnsymbols(raw: string)
    requires Unsymbols(raw).Some?
    ensures Symbols(Unsymbols(raw).value) == raw <==> SpareBitsZero(raw)
  {
    if |raw| >= 4 {
      var q, t := raw[..4], raw[4..];
      assert raw == q + t;
      FirstFour(raw);
      SymbolsOfUnsymbols(t);
      QuadBack(q, t, SymbolValue(raw[0]).value, SymbolValue(raw[1]).value,
               SymbolValue(raw[2]).value, SymbolValue(raw[3]).value, Unsymbols(t).value);
      SpareTail(q, t);
    } else if |raw| == 3 {
      ThreeBack(raw, SymbolValue(raw[0]).value, SymbolValue(raw[1]).value, SymbolValue(raw[2]).value);
    } else if |raw| == 2 {
      TwoBack(raw, SymbolValue(raw[0]).value, SymbolValue(raw[1]).value);
    }
  }

  lemma TwoBack(raw: string, a: Sextet, b: Sextet)
    requires |raw| == 2 && SymbolValue(raw[0]) == Some(a) && SymbolValue(raw[1]) == Some(b)
    ensures Unsymbols(raw).Some? && (Symbols(Unsymbols(raw).value) == raw <==> b % 16 == 0)
  {
    ValueSymbol(raw[0]);
    ValueSymbol(raw[1]);
    assert Unsymbols(raw) == Some([a * 4 + b / 16]);
    SymbolsOfTwo(a, b);
    LastSymbol([Symbol(a)], raw, b / 16 * 16, b);
  }

  lemma ThreeBack(raw: string, a: Sextet, b: Sextet, c: Sextet)
    requires |raw| == 3 && SymbolValue(raw[0]) == Some(a) && SymbolValue(raw[1]) == Some(b)
    requires SymbolValue(raw[2]) == Some(c)
    ensures Unsymbols(raw).Some? && (Symbols(Unsymbols(raw).value) == raw <==> c % 4 == 0)
  {
    ValueSymbol(raw[0]);
    ValueSymbol(raw[1]);
    ValueSymbol(raw[2]);
    UnsymbolsThree(raw, a, b, c);
    SymbolsOfThree(a, b, c);
    LastSymbol([Symbol(a), Symbol(b)], raw, c / 4 * 4, c);
  }

  lemma UnsymbolsThree(raw: string, a: Sextet, b: Sextet, c: Sextet)
    requires |raw| == 3 && SymbolValue(raw[0]) == Some(a) && SymbolValue(raw[1]) == Some(b)
    requires SymbolValue(raw[2]) == Some(c)
    ensures Unsymbols(raw) == Some([a * 4 + b / 16, b % 16 * 16 + c / 4])
  {
  }

  lemma LastSymbol(front: string, raw: string, v: Sextet, w: Sextet)
    requires raw == front + [Symbol(w)]
    ensures front + [Symbol(v)] == raw <==> v == w
  {
    if front + [Symbol(v)] == raw {
      assert (front + [Symbol(v)])[|front|] == raw[|front|];
      SymbolInjective(v, w);
    }
  }

  lemma UrlInverse(s: string)
    requires forall i | 0 <= i < |s| :: UrlSymbol(s[i])
    ensures ToUrl(FromUrl(s)) == s
    ensures forall i | 0 <= i < |s| :: FromUrl(s)[i] != '='
  {
  }

  /**
   * A segment that decodes is the one the encoder would write exactly when
   * its last symbol leaves no spare bit set, its bytes do not start with a
   * byte order mark, and its text is at most 1024 units long. The router
   * admits all the other spellings too.
   */
  lemma CanonicalSegment(segment: string, s: seq<CodeUnit>)
    requires DecodeNativeCoordinate(segment) == Some(s)
    ensures Unsymbols(FromUrl(segment[3..])).Some?
    ensures Segment(s) == Some(segment) <==>
            SpareBitsZero(FromUrl(segment[3..]))
            && !(EncodeScalar(BOM) <= Unsymbols(FromUrl(segment[3..])).value)
            && |s| <= MAX_COORDINATE
  {
    var raw := FromUrl(segment[3..]);
    var bytes := SegmentBytes(segment, raw);
    var out := Decode(bytes).value;
    DecodeExactly(bytes, out);
    var cs :| Encode(cs) == bytes && StripBom(cs) == out;
    FromScalarsWellFormed(out);
    BomLeads(cs);
    SymbolsOfUnsymbols(raw);
    SymbolsBack(Encode(out));
    if Encode(out) == bytes { EncodeInjective(out, cs); }
    if |s| > MAX_COORDINATE {
      assert Segment(s).None?;
    } else if s == [] {
      assert out == [] && cs != [];
    } else {
      SameSegment(segment, raw, s);
    }
  }

  lemma SameSegment(segment: string, raw: string, s: seq<CodeUnit>)
    requires SegmentGrammar(segment, MAX_SEGMENT) && raw == FromUrl(segment[3..]) && 1 <= |s| <= MAX_COORDINATE
    ensures Segment(s) == Some(segment) <==> Symbols(Utf8Bytes(s)) == raw
  {
    SegmentText(s);
    var syms := Symbols(Utf8Bytes(s));
    SymbolsNotPad(Utf8Bytes(s));
    UrlBack(syms);
    UrlInverse(segment[3..]);
    assert segment == PREFIX + segment[3..];
    assert (PREFIX + ToUrl(syms))[3..] == ToUrl(syms);
  }

  lemma EncodeFirst(cs: seq<Scalar>)
    requires cs != []
    ensures Encode(cs) == EncodeScalar(cs[0]) + Encode(cs[1..])
  {
    assert cs == [cs[0]] + cs[1..];
    EncodeConcat([cs[0]], cs[1..]);
    EncodeSnoc([], cs[0]);
    assert [] + [cs[0]] == [cs[0]];
    assert [] + EncodeScalar(cs[0]) == EncodeScalar(cs[0]);
  }

  /** The encoded byte order mark starts exactly the encodings that start with it. */
  lemma BomLeads(cs: seq<Scalar>)
    ensures EncodeScalar(BOM) <= Encode(cs) <==> cs != [] && cs[0] == BOM
  {
    if cs != [] {
      EncodeFirst(cs);
      BomPrefix(cs[0], EncodeScalar(cs[0]), Encode(cs[1..]), EncodeScalar(BOM));
    }
  }

  lemma BomPrefix(c: Scalar, first: seq<Byte>, rest: seq<Byte>, bom: seq<Byte>)
    requires first == EncodeScalar(c) && bom == EncodeScalar(BOM)
    ensures bom <= first + rest <==> c == BOM
  {
    assert bom == [0xEF, 0xBB, 0xBF];
    if bom <= first + rest {
      OnlyBom(c, first, rest);
    }
  }

  lemma OnlyBom(c: Scalar, first: seq<Byte>, rest: seq<Byte>)
    requires first == EncodeScalar(c) && [0xEF, 0xBB, 0xBF] <= first + rest
    ensures c == BOM
  {
    var all := first + rest;
    assert all[0] == 0xEF && all[1] == 0xBB && all[2] == 0xBF;
    assert first[0] == 0xEF;
    assert 0x800 <= c < 0x1_0000;
    assert |first| == 3 && first[1] == 0xBB && first[2] == 0xBF;
    var h, m, l := Digits3(c);
  }

  lemma {:induction false} ForeignSymbol(s: string)
    requires exists c :: c in s && SymbolValue(c).None?
    ensures Unsymbols(s).None?
  {
    if |s| > 4 && forall i | 0 <= i < 4 :: SymbolValue(s[i]).Some? {
      var c :| c in s && SymbolValue(c).None?;
      assert c in s[4..];
      ForeignSymbol(s[4..]);
    }
  }

  lemma SegmentBytes(segment: string, raw: string) returns (bytes: seq<Byte>)
    requires DecodeNativeCoordinate(segment).Some? && raw == FromUrl(segment[3..])
    ensures raw != "" && Unsymbols(raw) == Some(bytes) && Decode(bytes).Some? && bytes != []
    ensures DecodeNativeCoordinate(segment) == Some(FromScalars(Decode(bytes).value))
  {
    var padded := raw + Text.Repeat('=', PadLength(|raw|));
    bytes := Atob(padded).value;
    UrlInverse(segment[3..]);
    if |raw| % 4 != 1 {
      UnpadPadded(raw);
    } else {
      assert Unpad(padded)[|raw|] == '=' && '=' in Unpad(padded);
      ForeignSymbol(Unpad(padded));
    }
  }
}
