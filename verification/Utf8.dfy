/**
 * UTF-16 strings, UTF-8 bytes, and the streaming UTF-8 decoder.
 *
 * A JavaScript string is a sequence of 16-bit code units. `TextEncoder` first
 * replaces lone surrogates by U+FFFD and then applies RFC 3629 section 3.
 * `TextDecoder("utf-8", { fatal: true })` is the state machine of the WHATWG
 * Encoding Standard, section 8.1.1, plus the byte order mark rule of its
 * section 6: the first scalar value of a stream is dropped when it is U+FEFF.
 */
module Utf8 {
  import opened Common

  type Byte = x: int | 0 <= x < 0x100
  type CodeUnit = x: int | 0 <= x < 0x1_0000
  type Scalar = x: int | 0 <= x < 0xD800 || 0xE000 <= x < 0x11_0000

  const BOM: Scalar := 0xFEFF
  const REPLACEMENT: Scalar := 0xFFFD

  // ----- UTF-16 -----

  predicate IsHigh(u: CodeUnit) { 0xD800 <= u < 0xDC00 }

  predicate IsLow(u: CodeUnit) { 0xDC00 <= u < 0xE000 }

  predicate StartsWithPair(s: seq<CodeUnit>) {
    |s| >= 2 && IsHigh(s[0]) && IsLow(s[1])
  }

  /** Every surrogate of `s` is half of a pair. */
  predicate WellFormed(s: seq<CodeUnit>) {
    if s == [] then true
    else if StartsWithPair(s) then WellFormed(s[2..])
    else !IsHigh(s[0]) && !IsLow(s[0]) && WellFormed(s[1..])
  }

  /** The conversion to scalar values that precedes every UTF-8 encoding. */
  function ToScalars(s: seq<CodeUnit>): seq<Scalar> {
    if s == [] then []
    else if StartsWithPair(s) then
      [0x1_0000 + (s[0] - 0xD800) * 0x400 + (s[1] - 0xDC00)] + ToScalars(s[2..])
    else
      [if IsHigh(s[0]) || IsLow(s[0]) then REPLACEMENT else s[0]] + ToScalars(s[1..])
  }

  function ScalarUnits(c: Scalar): seq<CodeUnit> {
    if c < 0x1_0000 then [c]
    else [0xD800 + (c - 0x1_0000) / 0x400, 0xDC00 + (c - 0x1_0000) % 0x400]
  }

  function FromScalars(cs: seq<Scalar>): seq<CodeUnit> {
    if cs == [] then [] else ScalarUnits(cs[0]) + FromScalars(cs[1..])
  }

  /** Decoding to UTF-16 never produces a lone surrogate, and loses nothing. */
  lemma {:induction false} FromScalarsWellFormed(cs: seq<Scalar>)
    ensures WellFormed(FromScalars(cs))
    ensures ToScalars(FromScalars(cs)) == cs
  {
    if cs != [] {
      FromScalarsWellFormed(cs[1..]);
      var head, tail := ScalarUnits(cs[0]), FromScalars(cs[1..]);
      var s := head + tail;
      if cs[0] < 0x1_0000 {
        assert s[1..] == tail;
      } else {
        assert s[2..] == tail;
      }
    }
  }

  /** The code units of a text without lone surrogates. */
  function Utf16(text: string): seq<CodeUnit> {
    FromScalars(seq(|text|, i requires 0 <= i < |text| => text[i] as int))
  }

  lemma {:induction false} AsciiUnits(cs: seq<Scalar>)
    requires forall i | 0 <= i < |cs| :: cs[i] < 0x80
    ensures FromScalars(cs) == cs
  {
    if cs != [] {
      AsciiUnits(cs[1..]);
      assert cs == [cs[0]] + cs[1..];
    }
  }

  /** A text in ASCII is the sequence of its codes. */
  lemma Utf16Ascii(text: string)
    requires forall i | 0 <= i < |text| :: text[i] as int < 0x80
    ensures |Utf16(text)| == |text| && forall i | 0 <= i < |text| :: Utf16(text)[i] == text[i] as int
  {
    AsciiUnits(seq(|text|, i requires 0 <= i < |text| => text[i] as int));
  }

  lemma Utf16Injective(a: string, b: string)
    ensures Utf16(a) == Utf16(b) <==> a == b
  {
    var x: seq<Scalar> := seq(|a|, i requires 0 <= i < |a| => a[i] as int);
    var y: seq<Scalar> := seq(|b|, i requires 0 <= i < |b| => b[i] as int);
    FromScalarsWellFormed(x);
    FromScalarsWellFormed(y);
    if x == y {
      assert |a| == |b|;
      forall i | 0 <= i < |a| ensures a[i] == b[i] { assert x[i] == y[i]; }
    }
  }

  /** Exactly the well-formed strings survive the trip through scalar values. */
  lemma {:induction false} ScalarsRoundTrip(s: seq<CodeUnit>)
    ensures FromScalars(ToScalars(s)) == s <==> WellFormed(s)
    ensures WellFormed(s) || |FromScalars(ToScalars(s))| == |s|
  {
    if s == [] {
    } else if StartsWithPair(s) {
      ScalarsRoundTrip(s[2..]);
      var c := ToScalars(s)[0];
      assert ScalarUnits(c) == s[..2];
      assert ToScalars(s)[1..] == ToScalars(s[2..]);
      assert s == s[..2] + s[2..];
      var back := FromScalars(ToScalars(s[2..]));
      assert FromScalars(ToScalars(s)) == s[..2] + back;
      assert (s[..2] + back)[2..] == back;
    } else {
      ScalarsRoundTrip(s[1..]);
      var c := ToScalars(s)[0];
      assert ToScalars(s)[1..] == ToScalars(s[1..]);
      assert s == [s[0]] + s[1..];
      var back := FromScalars(ToScalars(s[1..]));
      assert FromScalars(ToScalars(s)) == [c] + back;
      assert ([c] + back)[1..] == back;
    }
  }

  // ----- RFC 3629 section 3 -----

  function EncodeScalar(c: Scalar): (bytes: seq<Byte>)
    ensures 1 <= |bytes| <= 4
  {
    if c < 0x80 then [c]
    else if c < 0x800 then [0xC0 + c / 0x40, 0x80 + c % 0x40]
    else if c < 0x1_0000 then
      [0xE0 + c / 0x1000, 0x80 + c / 0x40 % 0x40, 0x80 + c % 0x40]
    else
      [0xF0 + c / 0x4_0000, 0x80 + c / 0x1000 % 0x40, 0x80 + c / 0x40 % 0x40, 0x80 + c % 0x40]
  }

  function Encode(cs: seq<Scalar>): seq<Byte> {
    if cs == [] then [] else Encode(cs[..|cs| - 1]) + EncodeScalar(cs[|cs| - 1])
  }

  /** `new TextEncoder().encode(value)` */
  function Utf8Bytes(value: seq<CodeUnit>): seq<Byte> { Encode(ToScalars(value)) }

  lemma EncodeSnoc(cs: seq<Scalar>, c: Scalar)
    ensures Encode(cs + [c]) == Encode(cs) + EncodeScalar(c)
  {
    assert (cs + [c])[..|cs + [c]| - 1] == cs;
  }

  lemma {:induction false} EncodeConcat(a: seq<Scalar>, b: seq<Scalar>)
    ensures Encode(a + b) == Encode(a) + Encode(b)
  {
    if b == [] {
      assert a + b == a;
    } else {
      var b', c := b[..|b| - 1], b[|b| - 1];
      assert b == b' + [c] && a + b == a + b' + [c];
      calc {
        Encode(a + b);
      == { EncodeSnoc(a + b', c); }
        Encode(a + b') + EncodeScalar(c);
      == { EncodeConcat(a, b'); }
        Encode(a) + Encode(b') + EncodeScalar(c);
      ==
        Encode(a) + (Encode(b') + EncodeScalar(c));
      == { EncodeSnoc(b', c); }
        Encode(a) + Encode(b);
      }
    }
  }

  // ----- WHATWG Encoding Standard section 8.1.1 -----

  /** Decoder registers: continuation bytes still needed and seen, the partial
      code point, the bounds for the next byte, and whether the stream has
      produced its first scalar value (the byte order mark rule). */
  datatype Decoder = Decoder(needed: nat, seen: nat, cp: int, lower: Byte, upper: Byte, started: bool)

  const START := Decoder(0, 0, 0, 0x80, 0xBF, false)

  /** One decoder step; `None` is the fatal error. */
  function Feed(d: Decoder, b: Byte): Option<(Decoder, seq<Scalar>)> {
    if d.needed == 0 then
      if b < 0x80 then Some(Emit(d, b))
      else if 0xC2 <= b <= 0xDF then Some((d.(needed := 1, seen := 0, cp := b - 0xC0), []))
      else if 0xE0 <= b <= 0xEF then
        Some((d.(needed := 2, seen := 0, cp := b - 0xE0,
                 lower := if b == 0xE0 then 0xA0 else d.lower,
                 upper := if b == 0xED then 0x9F else d.upper), []))
      else if 0xF0 <= b <= 0xF4 then
        Some((d.(needed := 3, seen := 0, cp := b - 0xF0,
                 lower := if b == 0xF0 then 0x90 else d.lower,
                 upper := if b == 0xF4 then 0x8F else d.upper), []))
      else None
    else if !(d.lower <= b <= d.upper) then None
    else
      var cp := d.cp * 0x40 + (b - 0x80);
      if d.seen + 1 != d.needed then
        Some((d.(seen := d.seen + 1, cp := cp, lower := 0x80, upper := 0xBF), []))
      else if 0 <= cp < 0xD800 || 0xE000 <= cp < 0x11_0000 then Some(Emit(d, cp))
      else None
  }

  /** A finished scalar value, dropped when it is the stream's leading BOM. */
  function Emit(d: Decoder, c: Scalar): (Decoder, seq<Scalar>) {
    (START.(started := true), if !d.started && c == BOM then [] else [c])
  }

  /** Feeding a run of bytes: the registers afterwards and what was produced. */
  function Run(d: Decoder, bytes: seq<Byte>): Option<(Decoder, seq<Scalar>)> {
    if bytes == [] then Some((d, []))
    else
      match Run(d, bytes[..|bytes| - 1])
      case None => None
      case Some((mid, out)) =>
        match Feed(mid, bytes[|bytes| - 1])
        case None => None
        case Some((end, more)) => Some((end, out + more))
  }

  /** One-shot fatal decoding of a whole byte string. */
  function Decode(bytes: seq<Byte>): Option<seq<Scalar>> {
    match Run(START, bytes)
    case None => None
    case Some((d, out)) => if d.needed == 0 then Some(out) else None
  }

  /** What a stream of scalar values looks like after the byte order mark rule. */
  function StripBom(cs: seq<Scalar>): seq<Scalar> {
    if cs != [] && cs[0] == BOM then cs[1..] else cs
  }

  /** Chunk boundaries do not matter: feeding a + b is feeding a, then b. */
  lemma {:induction false} RunConcat(d: Decoder, a: seq<Byte>, b: seq<Byte>)
    ensures Run(d, a + b) ==
            match Run(d, a) {
              case None => None
              case Some((mid, out)) =>
                match Run(mid, b) {
                  case None => None
                  case Some((end, more)) => Some((end, out + more))
                }
            }
  {
    if b == [] {
      assert a + b == a;
      match Run(d, a)
      case None =>
      case Some((mid, out)) => assert out + [] == out;
    } else {
      var b' := b[..|b| - 1];
      RunConcat(d, a, b');
      assert a + b == (a + b') + [b[|b| - 1]];
      RunSnoc(d, a + b', b[|b| - 1]);
      if Run(d, a).Some? {
        var mid, out := Run(d, a).value.0, Run(d, a).value.1;
        RunLast(mid, out, b, Run(d, a + b'), Run(d, a + b));
      }
    }
  }

  /** The last byte of `b`, fed behind what was produced before `b`. */
  lemma RunLast(mid: Decoder, out: seq<Scalar>, b: seq<Byte>,
                before: Option<(Decoder, seq<Scalar>)>, all: Option<(Decoder, seq<Scalar>)>)
    requires b != []
    requires before == match Run(mid, b[..|b| - 1])
                       case None => None
                       case Some((end, more)) => Some((end, out + more))
    requires all == match before
                    case None => None
                    case Some((end, more)) =>
                      match Feed(end, b[|b| - 1])
                      case None => None
                      case Some((last, one)) => Some((last, more + one))
    ensures all == match Run(mid, b)
                   case None => None
                   case Some((end, more)) => Some((end, out + more))
  {
    if Run(mid, b).Some? {
      var (m2, more) := Run(mid, b[..|b| - 1]).value;
      var (_, last) := Feed(m2, b[|b| - 1]).value;
      assert out + (more + last) == out + more + last;
    }
  }

  /** The bytes of an unfinished code point, recovered from the registers. */
  function Pending(d: Decoder): seq<int> {
    if d.needed == 0 then []
    else if d.needed == 1 then [0xC0 + d.cp]
    else if d.needed == 2 then
      if d.seen == 0 then [0xE0 + d.cp] else [0xE0 + d.cp / 0x40, 0x80 + d.cp % 0x40]
    else if d.seen == 0 then [0xF0 + d.cp]
    else if d.seen == 1 then [0xF0 + d.cp / 0x40, 0x80 + d.cp % 0x40]
    else [0xF0 + d.cp / 0x1000, 0x80 + d.cp / 0x40 % 0x40, 0x80 + d.cp % 0x40]
  }

  /** Register invariant: the bounds rule out over-long forms and surrogates. */
  predicate Valid(d: Decoder) {
    match d.needed
    case 0 => d.seen == 0 && d.cp == 0 && d.lower == 0x80 && d.upper == 0xBF
    case 1 => d.seen == 0 && 2 <= d.cp <= 0x1F && d.lower == 0x80 && d.upper == 0xBF
    case 2 =>
      if d.seen == 0 then
        && 0 <= d.cp <= 0xF
        && d.lower == (if d.cp == 0 then 0xA0 else 0x80)
        && d.upper == (if d.cp == 0xD then 0x9F else 0xBF)
      else
        && d.seen == 1 && d.lower == 0x80 && d.upper == 0xBF
        && (0x20 <= d.cp < 0x360 || 0x380 <= d.cp < 0x400)
    case 3 =>
      if d.seen == 0 then
        && 0 <= d.cp <= 4
        && d.lower == (if d.cp == 0 then 0x90 else 0x80)
        && d.upper == (if d.cp == 4 then 0x8F else 0xBF)
      else if d.seen == 1 then
        && d.lower == 0x80 && d.upper == 0xBF && 0x10 <= d.cp < 0x110
      else
        && d.seen == 2 && d.lower == 0x80 && d.upper == 0xBF && 0x400 <= d.cp < 0x4400
    case _ => false
  }

  /** The scalar values seen so far, with a dropped byte order mark put back. */
  predicate Produced(d: Decoder, out: seq<Scalar>, cs: seq<Scalar>) {
    && out == StripBom(cs)
    && (d.started <==> cs != [])
  }

  lemma Digits(cp: nat, k: nat)
    requires k < 0x40
    ensures (cp * 0x40 + k) / 0x40 == cp && (cp * 0x40 + k) % 0x40 == k
    ensures (cp * 0x40 + k) / 0x1000 == cp / 0x40
    ensures (cp * 0x40 + k) / 0x4_0000 == cp / 0x1000
  {
  }

  /** The byte that completes a code point completes its encoding. */
  lemma FeedLast(d: Decoder, b: Byte)
    requires Valid(d) && d.needed > 0 && d.seen + 1 == d.needed && d.lower <= b <= d.upper
    ensures var c := d.cp * 0x40 + (b - 0x80);
      && (0 <= c < 0xD800 || 0xE000 <= c < 0x11_0000)
      && EncodeScalar(c) == Pending(d) + [b]
  {
    Digits(d.cp, b - 0x80);
  }

  /** Any other accepted byte extends the pending bytes. */
  lemma FeedMore(d: Decoder, b: Byte)
    requires Valid(d) && d.needed > 0 && d.seen + 1 < d.needed && d.lower <= b <= d.upper
    ensures var d' := d.(seen := d.seen + 1, cp := d.cp * 0x40 + (b - 0x80), lower := 0x80, upper := 0xBF);
      Valid(d') && Pending(d') == Pending(d) + [b]
  {
    Digits(d.cp, b - 0x80);
  }

  lemma FeedFirst(d: Decoder, b: Byte)
    requires Valid(d) && d.needed == 0 && b >= 0x80 && Feed(d, b).Some?
    ensures var (d', more) := Feed(d, b).value;
      Valid(d') && d'.needed > 0 && more == [] && d'.started == d.started && Pending(d') == [b]
  {
  }

  /** Every accepted byte either completes one scalar value or stays pending. */
  lemma FeedCases(d: Decoder, b: Byte) returns (done: bool, c: Scalar)
    requires Valid(d) && Feed(d, b).Some?
    ensures done ==> Feed(d, b).value == Emit(d, c) && EncodeScalar(c) == Pending(d) + [b]
    ensures !done ==>
      var (d', more) := Feed(d, b).value;
      Valid(d') && d'.needed > 0 && more == [] && d'.started == d.started && Pending(d') == Pending(d) + [b]
  {
    done, c := false, 0;
    if d.needed == 0 {
      if b < 0x80 { done, c := true, b; } else { FeedFirst(d, b); }
    } else if d.seen + 1 == d.needed {
      FeedLast(d, b);
      done, c := true, d.cp * 0x40 + (b - 0x80);
    } else {
      FeedMore(d, b);
    }
  }

  /** After `bytes` the registers hold `cs`, of which `out` was produced. */
  ghost predicate Tracks(d: Decoder, out: seq<Scalar>, cs: seq<Scalar>, bytes: seq<Byte>) {
    Valid(d) && Produced(d, out, cs) && Encode(cs) + Pending(d) == bytes
  }

  lemma TracksDone(d: Decoder, out: seq<Scalar>, cs: seq<Scalar>, bytes: seq<Byte>, b: Byte, c: Scalar)
    requires Tracks(d, out, cs, bytes) && EncodeScalar(c) == Pending(d) + [b]
    ensures Tracks(Emit(d, c).0, out + Emit(d, c).1, cs + [c], bytes + [b])
  {
    EmitProduced(d, out, cs, c);
    calc {
      Encode(cs + [c]) + [];
    == { EncodeSnoc(cs, c); }
      Encode(cs) + EncodeScalar(c);
    ==
      Encode(cs) + (Pending(d) + [b]);
    ==
      (Encode(cs) + Pending(d)) + [b];
    }
  }

  lemma FeedSound(d: Decoder, b: Byte, out: seq<Scalar>, cs: seq<Scalar>, bytes: seq<Byte>)
    returns (cs': seq<Scalar>)
    requires Tracks(d, out, cs, bytes) && Feed(d, b).Some?
    ensures Tracks(Feed(d, b).value.0, out + Feed(d, b).value.1, cs', bytes + [b])
  {
    var done, c := FeedCases(d, b);
    if done {
      TracksDone(d, out, cs, bytes, b, c);
      cs' := cs + [c];
    } else {
      cs' := cs;
      assert out + [] == out;
      assert Encode(cs) + (Pending(d) + [b]) == Encode(cs) + Pending(d) + [b];
    }
  }

  lemma EmitProduced(d: Decoder, out: seq<Scalar>, cs: seq<Scalar>, c: Scalar)
    requires Produced(d, out, cs)
    ensures var (d', more) := Emit(d, c); Produced(d', out + more, cs + [c])
  {
    if cs != [] && cs[0] == BOM { assert (cs + [c])[1..] == cs[1..] + [c]; }
  }

  lemma {:induction false} RunSound(bytes: seq<Byte>) returns (cs: seq<Scalar>)
    requires Run(START, bytes).Some?
    ensures Tracks(Run(START, bytes).value.0, Run(START, bytes).value.1, cs, bytes)
  {
    if bytes == [] {
      cs := [];
    } else {
      var front, b := bytes[..|bytes| - 1], bytes[|bytes| - 1];
      assert bytes == front + [b];
      var cs0 := RunSound(front);
      var (d, out) := Run(START, front).value;
      RunSnoc(START, front, b);
      cs := FeedSound(d, b, out, cs0, front);
    }
  }

  lemma RunSnoc(d: Decoder, front: seq<Byte>, b: Byte)
    ensures Run(d, front + [b]) ==
            match Run(d, front) {
              case None => None
              case Some((mid, out)) =>
                match Feed(mid, b) {
                  case None => None
                  case Some((end, more)) => Some((end, out + more))
                }
            }
  {
    var all := front + [b];
    assert all[..|all| - 1] == front && all[|all| - 1] == b;
  }

  /** The decoder's path through a three-byte and a four-byte form, digit by digit. */
  lemma Feed3(d: Decoder, h: nat, m: nat, l: nat) returns (d1: Decoder, d2: Decoder)
    requires Valid(d) && d.needed == 0 && h < 0x10 && m < 0x40 && l < 0x40
    requires var c := (h * 0x40 + m) * 0x40 + l; 0x800 <= c < 0xD800 || 0xE000 <= c
    ensures Feed(d, 0xE0 + h) == Some((d1, []))
    ensures Feed(d1, 0x80 + m) == Some((d2, []))
    ensures Feed(d2, 0x80 + l) == Some(Emit(d, (h * 0x40 + m) * 0x40 + l))
  {
    d1 := Feed(d, 0xE0 + h).value.0;
    d2 := Feed(d1, 0x80 + m).value.0;
  }

  lemma Feed4(d: Decoder, t: nat, h: nat, m: nat, l: nat) returns (d1: Decoder, d2: Decoder, d3: Decoder)
    requires Valid(d) && d.needed == 0 && t < 5 && h < 0x40 && m < 0x40 && l < 0x40
    requires var c := ((t * 0x40 + h) * 0x40 + m) * 0x40 + l; 0x1_0000 <= c < 0x11_0000
    ensures Feed(d, 0xF0 + t) == Some((d1, []))
    ensures Feed(d1, 0x80 + h) == Some((d2, []))
    ensures Feed(d2, 0x80 + m) == Some((d3, []))
    ensures Feed(d3, 0x80 + l) == Some(Emit(d, ((t * 0x40 + h) * 0x40 + m) * 0x40 + l))
  {
    d1 := Feed(d, 0xF0 + t).value.0;
    d2 := Feed(d1, 0x80 + h).value.0;
    d3 := Feed(d2, 0x80 + m).value.0;
  }

  /** Feeding one more byte to a run that has produced nothing yet. */
  lemma RunSilent(d: Decoder, front: seq<Byte>, b: Byte, mid: Decoder)
    requires Run(d, front) == Some((mid, []))
    ensures Run(d, front + [b]) == Feed(mid, b)
  {
    RunSnoc(d, front, b);
    if Feed(mid, b).Some? { assert [] + Feed(mid, b).value.1 == Feed(mid, b).value.1; }
  }

  lemma RunScalar2(d: Decoder, h: nat, l: nat)
    requires Valid(d) && d.needed == 0 && 2 <= h < 0x20 && l < 0x40
    ensures Run(d, [0xC0 + h, 0x80 + l]) == Some(Emit(d, h * 0x40 + l))
  {
    RunStart(d, 0xC0 + h);
    var d1 := d.(needed := 1, seen := 0, cp := h);
    assert [0xC0 + h] + [0x80 + l] == [0xC0 + h, 0x80 + l];
    RunSilent(d, [0xC0 + h], 0x80 + l, d1);
  }

  lemma RunScalar3(d: Decoder, h: nat, m: nat, l: nat)
    requires Valid(d) && d.needed == 0 && h < 0x10 && m < 0x40 && l < 0x40
    requires var c := (h * 0x40 + m) * 0x40 + l; 0x800 <= c < 0xD800 || 0xE000 <= c
    ensures Run(d, [0xE0 + h, 0x80 + m, 0x80 + l]) == Some(Emit(d, (h * 0x40 + m) * 0x40 + l))
  {
    var d1, d2 := Feed3(d, h, m, l);
    RunThree(d, d1, d2, 0xE0 + h, 0x80 + m, 0x80 + l);
  }

  lemma RunScalar4(d: Decoder, t: nat, h: nat, m: nat, l: nat)
    requires Valid(d) && d.needed == 0 && t < 5 && h < 0x40 && m < 0x40 && l < 0x40
    requires var c := ((t * 0x40 + h) * 0x40 + m) * 0x40 + l; 0x1_0000 <= c < 0x11_0000
    ensures Run(d, [0xF0 + t, 0x80 + h, 0x80 + m, 0x80 + l]) ==
            Some(Emit(d, ((t * 0x40 + h) * 0x40 + m) * 0x40 + l))
  {
    var d1, d2, d3 := Feed4(d, t, h, m, l);
    RunThree(d, d1, d2, 0xF0 + t, 0x80 + h, 0x80 + m);
    assert [0xF0 + t, 0x80 + h, 0x80 + m] + [0x80 + l] == [0xF0 + t, 0x80 + h, 0x80 + m, 0x80 + l];
    RunSilent(d, [0xF0 + t, 0x80 + h, 0x80 + m], 0x80 + l, d3);
  }

  lemma Digits3(c: Scalar) returns (h: nat, m: nat, l: nat)
    requires 0x800 <= c < 0x1_0000
    ensures h < 0x10 && m < 0x40 && l < 0x40 && c == (h * 0x40 + m) * 0x40 + l
    ensures EncodeScalar(c) == [0xE0 + h, 0x80 + m, 0x80 + l]
  {
    h, m, l := c / 0x1000, c / 0x40 % 0x40, c % 0x40;
  }

  lemma Digits4(c: Scalar) returns (t: nat, h: nat, m: nat, l: nat)
    requires 0x1_0000 <= c
    ensures t < 5 && h < 0x40 && m < 0x40 && l < 0x40 && c == ((t * 0x40 + h) * 0x40 + m) * 0x40 + l
    ensures EncodeScalar(c) == [0xF0 + t, 0x80 + h, 0x80 + m, 0x80 + l]
  {
    t, h, m, l := c / 0x4_0000, c / 0x1000 % 0x40, c / 0x40 % 0x40, c % 0x40;
  }

  lemma Digits2(c: Scalar) returns (h: nat, l: nat)
    requires 0x80 <= c < 0x800
    ensures 2 <= h < 0x20 && l < 0x40 && c == h * 0x40 + l
    ensures EncodeScalar(c) == [0xC0 + h, 0x80 + l]
  {
    h, l := c / 0x40, c % 0x40;
  }

  lemma RunScalar(d: Decoder, c: Scalar)
    requires Valid(d) && d.needed == 0
    ensures Run(d, EncodeScalar(c)) == Some(Emit(d, c))
  {
    if c < 0x80 {
      RunStart(d, c);
    } else if c < 0x800 {
      var h, l := Digits2(c);
      RunScalar2(d, h, l);
    } else if c < 0x1_0000 {
      var h, m, l := Digits3(c);
      RunScalar3(d, h, m, l);
    } else {
      var t, h, m, l := Digits4(c);
      RunScalar4(d, t, h, m, l);
    }
  }

  lemma RunStart(d: Decoder, b: Byte)
    ensures Run(d, [b]) == Feed(d, b)
  {
    assert [] + [b] == [b];
    RunSilent(d, [], b, d);
  }

  lemma RunThree(d: Decoder, d1: Decoder, d2: Decoder, a: Byte, b: Byte, c: Byte)
    requires Feed(d, a) == Some((d1, [])) && Feed(d1, b) == Some((d2, []))
    ensures Run(d, [a, b, c]) == Feed(d2, c)
  {
    RunStart(d, a);
    assert [a] + [b] == [a, b] && [a, b] + [c] == [a, b, c];
    RunSilent(d, [a], b, d1);
    RunSilent(d, [a, b], c, d2);
  }

  /** One more scalar value behind `front`, under the byte order mark rule. */
  lemma EmitStrip(front: seq<Scalar>, c: Scalar)
    ensures var (e, out) := Emit(START.(started := front != []), c);
            e == START.(started := true) && StripBom(front) + out == StripBom(front + [c])
  {
    if front == [] {
      assert front + [c] == [c] && StripBom(front) == [];
    } else {
      assert (front + [c])[0] == front[0] && (front + [c])[1..] == front[1..] + [c];
    }
  }

  lemma CompleteOn(front: seq<Scalar>, c: Scalar, x: seq<Byte>, y: seq<Byte>)
    requires var mid := START.(started := front != []);
             Run(START, x) == Some((mid, StripBom(front))) && Run(mid, y) == Some(Emit(mid, c))
    ensures Run(START, x + y) == Some((START.(started := true), StripBom(front + [c])))
  {
    RunConcat(START, x, y);
    EmitStrip(front, c);
  }

  /** The induction step of `RunComplete`. */
  lemma CompleteMore(front: seq<Scalar>, c: Scalar)
    requires Run(START, Encode(front)) == Some((START.(started := front != []), StripBom(front)))
    ensures Run(START, Encode(front + [c])) == Some((START.(started := true), StripBom(front + [c])))
  {
    EncodeSnoc(front, c);
    RunScalar(START.(started := front != []), c);
    CompleteOn(front, c, Encode(front), EncodeScalar(c));
  }

  lemma {:induction false} RunComplete(cs: seq<Scalar>)
    ensures Run(START, Encode(cs)) == Some((START.(started := cs != []), StripBom(cs)))
  {
    if cs == [] {
      CompleteNone();
    } else {
      RunComplete(cs[..|cs| - 1]);
      CompleteAll(cs);
    }
  }

  lemma CompleteNone()
    ensures Run(START, Encode([])) == Some((START.(started := false), StripBom([])))
  {
  }

  lemma CompleteAll(cs: seq<Scalar>)
    requires cs != []
    requires var front := cs[..|cs| - 1];
             Run(START, Encode(front)) == Some((START.(started := front != []), StripBom(front)))
    ensures Run(START, Encode(cs)) == Some((START.(started := true), StripBom(cs)))
  {
    CompleteMore(cs[..|cs| - 1], cs[|cs| - 1]);
    assert cs == cs[..|cs| - 1] + [cs[|cs| - 1]];
  }

  /**
   * Fatal decoding accepts exactly the RFC 3629 encodings, and answers with
   * the scalar values that were encoded, less one leading byte order mark.
   */
  lemma DecodeExactly(bytes: seq<Byte>, out: seq<Scalar>)
    ensures Decode(bytes) == Some(out) <==> exists cs :: Encode(cs) == bytes && StripBom(cs) == out
  {
    if Decode(bytes) == Some(out) {
      var cs := RunSound(bytes);
      assert Encode(cs) == bytes && StripBom(cs) == out;
    }
    if cs :| Encode(cs) == bytes && StripBom(cs) == out {
      RunComplete(cs);
    }
  }

  /** RFC 3629 encodings are unambiguous. */
  lemma EncodeInjective(a: seq<Scalar>, b: seq<Scalar>)
    requires Encode(a) == Encode(b)
    ensures a == b
  {
    // A leading 'x' keeps the byte order mark rule out of the way.
    EncodeConcat([0x78], a);
    EncodeConcat([0x78], b);
    RunComplete([0x78] + a);
    RunComplete([0x78] + b);
    assert a == ([0x78] + a)[1..] && b == ([0x78] + b)[1..];
  }

  lemma {:induction false} EncodeLength(cs: seq<Scalar>)
    ensures |cs| <= |Encode(cs)| <= 4 * |cs|
    ensures (forall i | 0 <= i < |cs| :: cs[i] < 0x80) ==> |Encode(cs)| == |cs|
  {
    if cs != [] { EncodeLength(cs[..|cs| - 1]); }
  }
}
