/**
 * A reader of JSON texts (RFC 8259), which undoes the printer: every printed
 * value is read back as that value.
 *
 * It reads what `JSON.stringify` prints, without white space between tokens,
 * and takes the escapes of section 7 of RFC 8259.
 */
module JsonReading {
  import opened Common
  import opened Utf8
  import opened JsonText
  import Text

  // ----- texts -----

  function HexRead(u: CodeUnit): Option<int> {
    if 48 <= u < 58 then Some(u - 48)
    else if 97 <= u < 103 then Some(u - 87)
    else if 65 <= u < 71 then Some(u - 55)
    else None
  }

  /** Four hexadecimal digits. */
  function FourHex(t: Units): Option<CodeUnit>
    requires |t| >= 4
  {
    var a, b, c, d := HexRead(t[0]), HexRead(t[1]), HexRead(t[2]), HexRead(t[3]);
    if a.None? || b.None? || c.None? || d.None? then None
    else
      var n := a.value * 0x1000 + b.value * 0x100 + c.value * 16 + d.value;
      if 0 <= n < 0x1_0000 then Some(n) else None
  }

  /** The unit a two-character escape stands for. */
  function Escaped(u: CodeUnit): Option<CodeUnit> {
    match u
    case 34 => Some(34)
    case 92 => Some(92)
    case 47 => Some(47)
    case 98 => Some(8)
    case 102 => Some(12)
    case 110 => Some(10)
    case 114 => Some(13)
    case 116 => Some(9)
    case _ => None
  }

  /** The rest of a text up to its closing quote, and what follows. */
  function ReadChars(t: Units): (r: Option<(Units, Units)>)
    ensures r.Some? ==> |r.value.1| < |t|
  {
    if t == [] || t[0] < 0x20 then None
    else if t[0] == QUOTE then Some(([], t[1..]))
    else if t[0] != BACKSLASH then Onto(t[0], ReadChars(t[1..]))
    else if |t| >= 6 && t[1] == 117 then
      var unit := FourHex(t[2..6]);
      if unit.None? then None else Onto(unit.value, ReadChars(t[6..]))
    else if |t| >= 2 && Escaped(t[1]).Some? then Onto(Escaped(t[1]).value, ReadChars(t[2..]))
    else None
  }

  function Onto(u: CodeUnit, rest: Option<(Units, Units)>): (r: Option<(Units, Units)>)
    ensures r.Some? ==> rest.Some? && r.value.1 == rest.value.1
  {
    if rest.None? then None else Some(([u] + rest.value.0, rest.value.1))
  }

  lemma HexBack(d: int)
    requires 0 <= d < 16
    ensures HexRead(HexDigit(d)) == Some(d)
  {
  }

  lemma FourBack(u: CodeUnit)
    requires ShortEscape(u) == 0 && (u < 0x20 || IsHigh(u) || IsLow(u))
    ensures |EscapeUnit(u)| == 6 && EscapeUnit(u)[0] == BACKSLASH && EscapeUnit(u)[1] == 117
    ensures FourHex(EscapeUnit(u)[2..6]) == Some(u)
  {
    HexValue(u);
    HexBack(u / 0x1000);
    HexBack(u / 0x100 % 16);
    HexBack(u / 16 % 16);
    HexBack(u % 16);
    var d := EscapeUnit(u)[2..6];
    assert d == [HexDigit(u / 0x1000), HexDigit(u / 0x100 % 16), HexDigit(u / 16 % 16), HexDigit(u % 16)];
    assert HexRead(d[0]) == Some(u / 0x1000) && HexRead(d[1]) == Some(u / 0x100 % 16);
    assert HexRead(d[2]) == Some(u / 16 % 16) && HexRead(d[3]) == Some(u % 16);
  }

  lemma PlainRead(u: CodeUnit, rest: Units)
    requires u >= 0x20 && u != QUOTE && u != BACKSLASH
    ensures ReadChars([u] + rest) == Onto(u, ReadChars(rest))
  {
    assert ([u] + rest)[1..] == rest;
  }

  lemma ShortRead(u: CodeUnit, rest: Units)
    requires ShortEscape(u) != 0
    ensures ReadChars(EscapeUnit(u) + rest) == Onto(u, ReadChars(rest))
  {
    var t := EscapeUnit(u) + rest;
    assert t[0] == BACKSLASH && t[1] == ShortEscape(u) && t[2..] == rest;
    assert Escaped(t[1]) == Some(u) && t[1] != 117;
  }

  lemma LongRead(u: CodeUnit, rest: Units)
    requires ShortEscape(u) == 0 && (u < 0x20 || IsHigh(u) || IsLow(u))
    ensures ReadChars(EscapeUnit(u) + rest) == Onto(u, ReadChars(rest))
  {
    FourBack(u);
    EscapedRead(EscapeUnit(u), u, rest);
  }

  lemma EscapedRead(escape: Units, u: CodeUnit, rest: Units)
    requires |escape| == 6 && escape[0] == BACKSLASH && escape[1] == 117 && FourHex(escape[2..6]) == Some(u)
    ensures ReadChars(escape + rest) == Onto(u, ReadChars(rest))
  {
    var t := escape + rest;
    assert t[2..6] == escape[2..6] && t[6..] == rest;
  }

  lemma UnitRead(u: CodeUnit, rest: Units)
    ensures ReadChars(EscapeUnit(u) + rest) == Onto(u, ReadChars(rest))
  {
    if ShortEscape(u) != 0 {
      ShortRead(u, rest);
    } else if u < 0x20 || IsHigh(u) || IsLow(u) {
      LongRead(u, rest);
    } else {
      PlainRead(u, rest);
    }
  }

  lemma PairRead(s: Units, tail: Units, rest: (Units, Units))
    requires |s| >= 2 && StartsWithPair(s) && ReadChars(tail) == Some(rest)
    ensures ReadChars(s[..2] + tail) == Some((s[..2] + rest.0, rest.1))
  {
    PlainRead(s[1], tail);
    PlainRead(s[0], [s[1]] + tail);
    assert s[..2] + tail == [s[0]] + ([s[1]] + tail);
    assert s[..2] + rest.0 == [s[0]] + ([s[1]] + rest.0);
  }

  /** The text `t` reads as `s`, before its closing quote and `rest`. */
  predicate ReadsAs(t: Units, s: Units, rest: Units) { ReadChars(t + ([QUOTE] + rest)) == Some((s, rest)) }

  lemma EmptyRead(rest: Units)
    ensures ReadsAs([], [], rest)
  {
    assert [] + ([QUOTE] + rest) == [QUOTE] + rest && ([QUOTE] + rest)[1..] == rest;
  }

  lemma PairMore(s: Units, t: Units, rest: Units)
    requires |s| >= 2 && StartsWithPair(s) && ReadsAs(t, s[2..], rest)
    ensures ReadsAs(s[..2] + t, s, rest)
  {
    var tail := t + ([QUOTE] + rest);
    PairRead(s, tail, (s[2..], rest));
    assert s[..2] + t + ([QUOTE] + rest) == s[..2] + tail;
    assert s == s[..2] + s[2..];
  }

  lemma UnitMore(s: Units, t: Units, rest: Units)
    requires s != [] && ReadsAs(t, s[1..], rest)
    ensures ReadsAs(EscapeUnit(s[0]) + t, s, rest)
  {
    var tail := t + ([QUOTE] + rest);
    UnitRead(s[0], tail);
    assert EscapeUnit(s[0]) + t + ([QUOTE] + rest) == EscapeUnit(s[0]) + tail;
    assert s == [s[0]] + s[1..];
  }

  lemma {:induction false} EscapeRead(s: Units, rest: Units)
    ensures ReadsAs(Escape(s), s, rest)
  {
    if s == [] {
      EmptyRead(rest);
    } else if StartsWithPair(s) {
      EscapeRead(s[2..], rest);
      PairMore(s, Escape(s[2..]), rest);
    } else {
      EscapeRead(s[1..], rest);
      UnitMore(s, Escape(s[1..]), rest);
    }
  }

  /** A quoted text is read back, whatever follows it. */
  lemma QuoteRead(s: Units, rest: Units)
    ensures Quote(s) + rest == [QUOTE] + (Escape(s) + ([QUOTE] + rest))
    ensures ReadChars((Quote(s) + rest)[1..]) == Some((s, rest))
  {
    EscapeRead(s, rest);
    assert Quote(s) + rest == [QUOTE] + (Escape(s) + ([QUOTE] + rest));
  }

  // ----- numbers -----

  /** The length of the longest numeral at the head. */
  function NumeralLength(t: Units): (n: nat)
    ensures n <= |t|
  {
    if t != [] && NumeralUnit(t[0]) then 1 + NumeralLength(t[1..]) else 0
  }

  lemma {:induction false} NumeralRead(n: Units, rest: Units)
    requires (forall u | u in n :: NumeralUnit(u)) && Delimited(rest)
    ensures NumeralLength(n + rest) == |n|
  {
    if n == [] {
      assert n + rest == rest;
    } else {
      assert (n + rest)[1..] == n[1..] + rest;
      NumeralRead(n[1..], rest);
    }
  }

  // ----- values -----

  function ReadValue(t: Units): (r: Option<(Json, Units)>)
    ensures r.Some? ==> |r.value.1| < |t|
    decreases |t|, 2
  {
    if t == [] then None
    else if t[0] == QUOTE then
      var s := ReadChars(t[1..]);
      if s.None? then None else Some((String(s.value.0), s.value.1))
    else if t[0] == 91 then
      var items := ReadItems(if |t| > 1 && t[1] == 93 then t[1..] else [COMMA] + t[1..]);
      if items.None? then None else Some((List(items.value.0), items.value.1))
    else if t[0] == 123 then
      var members := ReadMembers(if |t| > 1 && t[1] == 125 then t[1..] else [COMMA] + t[1..]);
      if members.None? then None else Some((Object(members.value.0), members.value.1))
    else if [110, 117, 108, 108] <= t then Some((Null, t[4..]))
    else if [116, 114, 117, 101] <= t then Some((Bool(true), t[4..]))
    else if [102, 97, 108, 115, 101] <= t then Some((Bool(false), t[5..]))
    else
      var n := NumeralLength(t);
      if n > 0 then Some((Number(t[..n]), t[n..])) else None
  }

  /** Further items, each behind a comma, up to the closing bracket. */
  function ReadItems(t: Units): (r: Option<(seq<Json>, Units)>)
    ensures r.Some? ==> |r.value.1| < |t|
    decreases |t|, 1
  {
    if t == [] then None
    else if t[0] == 93 then Some(([], t[1..]))
    else if t[0] != COMMA then None
    else
      var first := ReadValue(t[1..]);
      if first.None? then None
      else
        var more := ReadItems(first.value.1);
        if more.None? then None else Some(([first.value.0] + more.value.0, more.value.1))
  }

  function ReadMembers(t: Units): (r: Option<(seq<Member>, Units)>)
    ensures r.Some? ==> |r.value.1| < |t|
    decreases |t|, 1
  {
    if t == [] then None
    else if t[0] == 125 then Some(([], t[1..]))
    else if t[0] != COMMA then None
    else
      var first := ReadMember(t[1..]);
      if first.None? then None
      else
        var more := ReadMembers(first.value.1);
        if more.None? then None else Some(([first.value.0] + more.value.0, more.value.1))
  }

  function ReadMember(t: Units): (r: Option<(Member, Units)>)
    ensures r.Some? ==> |r.value.1| < |t|
    decreases |t|, 3
  {
    if t == [] || t[0] != QUOTE then None
    else
      var key := ReadChars(t[1..]);
      if key.None? || key.value.1 == [] || key.value.1[0] != COLON then None
      else
        var value := ReadValue(key.value.1[1..]);
        if value.None? then None else Some((Member(key.value.0, value.value.0), value.value.1))
  }

  /** A whole text. */
  function Read(cs: seq<Scalar>): Option<Json> {
    var v := ReadValue(FromScalars(cs));
    if v.Some? && v.value.1 == [] then Some(v.value.0) else None
  }

  // ----- the reader undoes the printer -----

  lemma {:induction false} ItemsRead(items: seq<Json>, r: Units)
    requires forall i | 0 <= i < |items| :: IsJson(items[i])
    ensures ReadItems(Further(PrintItems(items), 93) + r) == Some((items, r))
    decreases items, 0
  {
    var parts := PrintItems(items);
    var t := Further(parts, 93) + r;
    if items == [] {
      assert t == [93] + r;
    } else {
      var rest := Further(parts[1..], 93) + r;
      FurtherStep(parts, 93, r);
      FurtherHead(parts[1..], 93, r);
      assert t[1..] == Stringify(items[0]) + rest;
      PrintedRead(items[0], rest);
      ItemsRead(items[1..], r);
      assert parts[1..] == PrintItems(items[1..]);
      assert items == [items[0]] + items[1..];
    }
  }

  lemma {:induction false} MembersRead(members: seq<Member>, r: Units)
    requires forall i | 0 <= i < |members| :: IsJson(members[i].value)
    ensures ReadMembers(Further(PrintMembers(members), 125) + r) == Some((members, r))
    decreases members, 1
  {
    var parts := PrintMembers(members);
    var t := Further(parts, 125) + r;
    if members == [] {
      assert t == [125] + r;
    } else {
      var rest := Further(parts[1..], 125) + r;
      FurtherStep(parts, 125, r);
      FurtherHead(parts[1..], 125, r);
      assert t[1..] == parts[0] + rest;
      MemberRead(members[0], rest);
      MembersRead(members[1..], r);
      assert parts[1..] == PrintMembers(members[1..]);
      assert members == [members[0]] + members[1..];
    }
  }

  lemma {:induction false} MemberRead(m: Member, rest: Units)
    requires IsJson(m.value) && Delimited(rest)
    ensures ReadMember(PrintField(m.key, Stringify(m.value)) + rest) == Some((m, rest))
    decreases m, 0
  {
    var t, tail := PrintField(m.key, Stringify(m.value)) + rest, Stringify(m.value) + rest;
    assert t == Quote(m.key) + ([COLON] + tail);
    QuoteRead(m.key, [COLON] + tail);
    assert ([COLON] + tail)[1..] == tail;
    PrintedRead(m.value, rest);
  }

  lemma ListOpens(parts: seq<Units>, open: CodeUnit, close: CodeUnit, r: Units)
    requires parts != [] ==> parts[0] != [] && parts[0][0] != close
    requires close != COMMA
    ensures var t := [open] + Text.Join(parts, [COMMA]) + [close] + r;
            && t[0] == open && |t| > 1
            && (if t[1] == close then t[1..] else [COMMA] + t[1..]) == Further(parts, close) + r
  {
    var body := Text.Join(parts, [COMMA]) + [close] + r;
    assert [open] + Text.Join(parts, [COMMA]) + [close] + r == [open] + body;
    JoinOpen(parts, close, r);
    JoinHead(parts, close, r);
  }

  /** A printed value is read back as that value, whatever follows it. */
  lemma {:induction false} PrintedRead(v: Json, r: Units)
    requires IsJson(v) && Delimited(r)
    ensures ReadValue(Stringify(v) + r) == Some((v, r))
    decreases v, 2
  {
    match v
    case String(s) => TextRead(s, r);
    case List(items) => ListRead(items, r);
    case Object(members) => ObjectRead(members, r);
    case _ => ScalarRead(v, r);
  }

  lemma TextRead(s: Units, r: Units)
    ensures ReadValue(Quote(s) + r) == Some((String(s), r))
  {
    QuoteRead(s, r);
    assert (Quote(s) + r)[0] == QUOTE;
  }

  lemma ScalarRead(v: Json, r: Units)
    requires IsJson(v) && Delimited(r) && (v.Null? || v.Bool? || v.Number?)
    ensures ReadValue(Stringify(v) + r) == Some((v, r))
  {
    var p := Stringify(v);
    var t := p + r;
    StringifyHead(v);
    assert t[0] == p[0] && t[..|p|] == p && t[|p|..] == r;
    if v.Number? { NumeralRead(v.numeral, r); }
  }

  lemma {:induction false} ListRead(items: seq<Json>, r: Units)
    requires IsJson(List(items))
    ensures ReadValue(Stringify(List(items)) + r) == Some((List(items), r))
    decreases items, 1
  {
    if items != [] { StringifyHead(items[0]); }
    ListOpens(PrintItems(items), 91, 93, r);
    ItemsRead(items, r);
  }

  lemma {:induction false} ObjectRead(members: seq<Member>, r: Units)
    requires IsJson(Object(members))
    ensures ReadValue(Stringify(Object(members)) + r) == Some((Object(members), r))
    decreases members, 2
  {
    ListOpens(PrintMembers(members), 123, 125, r);
    MembersRead(members, r);
  }

  /** Reading undoes printing. */
  lemma ReadPrinted(v: Json)
    requires IsJson(v)
    ensures Read(ToScalars(Stringify(v))) == Some(v)
  {
    StringifyWellFormed(v);
    ScalarsRoundTrip(Stringify(v));
    PrintedRead(v, []);
    assert Stringify(v) + [] == Stringify(v);
  }
}
