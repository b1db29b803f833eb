/**
 * JSON values as JavaScript holds them, and the text `JSON.stringify` makes of
 * them.
 *
 * A JSON value is a tree; an object is the sequence of its own properties in
 * insertion order. A number is represented by the text JavaScript prints for
 * it, so two numbers are the same value when they print alike (`0` and `-0`
 * do). Texts are UTF-16, and may hold lone surrogates.
 */
module JsonText {
  import opened Utf8
  import Text

  type Units = seq<CodeUnit>

  datatype Json =
    | Null
    | Bool(truth: bool)
    | Number(numeral: Units)
    | String(units: Units)
    | List(items: seq<Json>)
    | Object(members: seq<Member>)

  datatype Member = Member(key: Units, value: Json)

  const COMMA: CodeUnit := 44
  const COLON: CodeUnit := 58
  const QUOTE: CodeUnit := 34
  const BACKSLASH: CodeUnit := 92

  /** Digits, `+`, `-`, `.` and `e`: every unit a printed number is made of. */
  predicate NumeralUnit(u: CodeUnit) { 48 <= u < 58 || u == 43 || u == 45 || u == 46 || u == 101 }

  predicate Numeral(s: Units) {
    s != [] && (s[0] == 45 || 48 <= s[0] < 58) && forall u | u in s :: NumeralUnit(u)
  }

  predicate DistinctKeys(members: seq<Member>) {
    forall i, j | 0 <= i < j < |members| :: members[i].key != members[j].key
  }

  /** A value as JavaScript can hold it. */
  predicate IsJson(v: Json) {
    match v
    case Number(n) => Numeral(n)
    case List(items) => forall i | 0 <= i < |items| :: IsJson(items[i])
    case Object(members) =>
      DistinctKeys(members) && forall i | 0 <= i < |members| :: IsJson(members[i].value)
    case _ => true
  }

  function Keys(members: seq<Member>): set<Units> { set i | 0 <= i < |members| :: members[i].key }

  /** Equal as JSON values: the order of the properties of an object is ignored,
      at every depth; nothing else is. */
  predicate Same(v: Json, w: Json)
    decreases v
  {
    match v
    case List(items) =>
      w.List? && |items| == |w.items| && forall i | 0 <= i < |items| :: Same(items[i], w.items[i])
    case Object(members) =>
      && w.Object?
      && Keys(members) == Keys(w.members)
      && forall i, j | 0 <= i < |members| && 0 <= j < |w.members| && members[i].key == w.members[j].key ::
           Same(members[i].value, w.members[j].value)
    case _ => v == w
  }

  // ----- JSON.stringify on a text -----

  function HexDigit(d: int): CodeUnit
    requires 0 <= d < 16
  {
    if d < 10 then 48 + d else 87 + d
  }

  /** The letter of a two-character escape, or 0 when the unit has none. */
  function ShortEscape(u: CodeUnit): CodeUnit {
    if u == 8 then 98
    else if u == 9 then 116
    else if u == 10 then 110
    else if u == 12 then 102
    else if u == 13 then 114
    else if u == QUOTE || u == BACKSLASH then u
    else 0
  }

  /** A unit that is not half of a surrogate pair. */
  function EscapeUnit(u: CodeUnit): Units {
    if ShortEscape(u) != 0 then [BACKSLASH, ShortEscape(u)]
    else if u < 0x20 || IsHigh(u) || IsLow(u) then
      [BACKSLASH, 117, HexDigit(u / 0x1000), HexDigit(u / 0x100 % 16), HexDigit(u / 16 % 16), HexDigit(u % 16)]
    else [u]
  }

  function Escape(s: Units): Units {
    if s == [] then []
    else if StartsWithPair(s) then s[..2] + Escape(s[2..])
    else EscapeUnit(s[0]) + Escape(s[1..])
  }

  function Quote(s: Units): Units { [QUOTE] + Escape(s) + [QUOTE] }

  // ----- texts: the escape sequences are uniquely decodable -----

  lemma HexValue(u: CodeUnit)
    ensures u == u / 0x1000 * 0x1000 + u / 0x100 % 16 * 0x100 + u / 16 % 16 * 16 + u % 16
  {
    var x, y, z := u / 16, u / 0x100, u / 0x1000;
    assert u == 16 * x + u % 16;
    assert y == x / 16 && x == 16 * y + x % 16;
    assert z == y / 16 && y == 16 * z + y % 16;
  }

  lemma HexDigits(a: CodeUnit, b: CodeUnit)
    requires HexDigit(a / 0x1000) == HexDigit(b / 0x1000)
    requires HexDigit(a / 0x100 % 16) == HexDigit(b / 0x100 % 16)
    requires HexDigit(a / 16 % 16) == HexDigit(b / 16 % 16)
    requires HexDigit(a % 16) == HexDigit(b % 16)
    ensures a == b
  {
    HexValue(a);
    HexValue(b);
    SameDigits(a / 0x1000, b / 0x1000);
    SameDigits(a / 0x100 % 16, b / 0x100 % 16);
    SameDigits(a / 16 % 16, b / 16 % 16);
    SameDigits(a % 16, b % 16);
  }

  lemma SameDigits(d: int, e: int)
    requires 0 <= d < 16 && 0 <= e < 16 && HexDigit(d) == HexDigit(e)
    ensures d == e
  {
  }

  lemma Heads<T>(a: seq<T>, b: seq<T>, r: seq<T>, t: seq<T>)
    requires a + r == b + t && |a| == |b|
    ensures a == b && r == t
  {
    assert a == (a + r)[..|a|] && r == (a + r)[|a|..];
    assert b == (b + t)[..|b|] && t == (b + t)[|b|..];
  }

  lemma EscapeUnitCancel(a: CodeUnit, b: CodeUnit, r: Units, t: Units)
    requires EscapeUnit(a) + r == EscapeUnit(b) + t
    ensures a == b && r == t
  {
    var x, y := EscapeUnit(a), EscapeUnit(b);
    assert x[0] == (x + r)[0] == (y + t)[0] == y[0];
    if |x| > 1 && |y| > 1 {
      assert x[1] == (x + r)[1] == (y + t)[1] == y[1];
      Heads(x, y, r, t);
      if |x| == 6 { HexDigits(a, b); }
    } else {
      Heads(x, y, r, t);
    }
  }

  function Width(s: Units): (n: nat)
    requires s != []
    ensures n <= |s|
  {
    if StartsWithPair(s) then 2 else 1
  }

  function Chunk(s: Units): Units
    requires s != []
  {
    if StartsWithPair(s) then s[..2] else EscapeUnit(s[0])
  }

  lemma EscapeStep(s: Units, r: Units)
    requires s != []
    ensures Escape(s) + [QUOTE] + r == Chunk(s) + (Escape(s[Width(s)..]) + [QUOTE] + r)
  {
  }

  lemma ChunkHead(s: Units)
    requires s != []
    ensures Chunk(s) != [] && Chunk(s)[0] != QUOTE
    ensures IsHigh(Chunk(s)[0]) <==> StartsWithPair(s)
  {
  }

  lemma EscapeHead(s: Units, r: Units)
    ensures var h := (Escape(s) + [QUOTE] + r)[0];
            if s == [] then h == QUOTE else h != QUOTE && (IsHigh(h) <==> StartsWithPair(s))
  {
    if s != [] {
      EscapeStep(s, r);
      ChunkHead(s);
    }
  }

  lemma ChunkCancel(a: Units, b: Units, x: Units, y: Units)
    requires a != [] && b != [] && StartsWithPair(a) == StartsWithPair(b)
    requires Chunk(a) + x == Chunk(b) + y
    ensures Width(a) == Width(b) && a[..Width(a)] == b[..Width(b)] && x == y
  {
    if StartsWithPair(a) { Heads(a[..2], b[..2], x, y); } else { EscapeUnitCancel(a[0], b[0], x, y); }
  }

  lemma {:induction false} EscapeCancel(a: Units, b: Units, r: Units, t: Units)
    requires Escape(a) + [QUOTE] + r == Escape(b) + [QUOTE] + t
    ensures a == b && r == t
  {
    EscapeHead(a, r);
    EscapeHead(b, t);
    if a == [] || b == [] {
      assert a == [] && b == [];
      assert Escape(a) + [QUOTE] + r == [QUOTE] + r && Escape(b) + [QUOTE] + t == [QUOTE] + t;
      Heads([QUOTE], [QUOTE], r, t);
    } else {
      var n, m := Width(a), Width(b);
      EscapeStep(a, r);
      EscapeStep(b, t);
      ChunkCancel(a, b, Escape(a[n..]) + [QUOTE] + r, Escape(b[m..]) + [QUOTE] + t);
      EscapeCancel(a[n..], b[m..], r, t);
      assert a == a[..n] + a[n..] && b == b[..m] + b[m..];
    }
  }

  /** A quoted text ends where it says it ends. */
  lemma QuoteCancel(a: Units, b: Units, r: Units, t: Units)
    requires Quote(a) + r == Quote(b) + t
    ensures a == b && r == t
  {
    var x, y := Escape(a) + [QUOTE] + r, Escape(b) + [QUOTE] + t;
    assert Quote(a) + r == [QUOTE] + x;
    assert Quote(b) + t == [QUOTE] + y;
    Heads([QUOTE], [QUOTE], x, y);
    EscapeCancel(a, b, r, t);
  }

  // ----- numbers -----

  /** What follows a value in a document can not extend a number. */
  predicate Delimited(r: Units) { r == [] || !NumeralUnit(r[0]) }

  lemma {:induction false} NumeralCancel(a: Units, b: Units, r: Units, t: Units)
    requires (forall u | u in a :: NumeralUnit(u)) && (forall u | u in b :: NumeralUnit(u))
    requires Delimited(r) && Delimited(t) && a + r == b + t
    ensures a == b && r == t
  {
    assert a != [] ==> (a + r)[0] == a[0];
    assert b != [] ==> (b + t)[0] == b[0];
    assert a == [] ==> a + r == r;
    assert b == [] ==> b + t == t;
    if a != [] && b != [] {
      assert a + r == [a[0]] + (a[1..] + r) && b + t == [b[0]] + (b[1..] + t);
      Heads([a[0]], [b[0]], a[1..] + r, b[1..] + t);
      NumeralCancel(a[1..], b[1..], r, t);
      assert a == [a[0]] + a[1..] && b == [b[0]] + b[1..];
    }
  }

  // ----- lists of printed parts -----

  /** The rest of a list after an item: every further item behind a comma. */
  function Further(parts: seq<Units>, close: CodeUnit): Units {
    if parts == [] then [close] else [COMMA] + parts[0] + Further(parts[1..], close)
  }

  lemma {:induction false} JoinFurther(parts: seq<Units>, close: CodeUnit)
    ensures parts != [] ==> [COMMA] + (Text.Join(parts, [COMMA]) + [close]) == Further(parts, close)
  {
    if |parts| > 1 {
      JoinFurther(parts[1..], close);
      assert [COMMA] + (Text.Join(parts, [COMMA]) + [close])
          == [COMMA] + parts[0] + ([COMMA] + (Text.Join(parts[1..], [COMMA]) + [close]));
    } else if |parts| == 1 {
      assert Further(parts[1..], close) == [close];
    }
  }

  /** Two lists that print alike begin, or end, together. */
  lemma OpenCancel(parts: seq<Units>, others: seq<Units>, close: CodeUnit, r: Units, t: Units)
    requires Text.Join(parts, [COMMA]) + [close] + r == Text.Join(others, [COMMA]) + [close] + t
    requires parts != [] ==> parts[0] != [] && parts[0][0] != close
    requires others != [] ==> others[0] != [] && others[0][0] != close
    ensures Further(parts, close) + r == Further(others, close) + t
  {
    JoinOpen(parts, close, r);
    JoinOpen(others, close, t);
    JoinHead(parts, close, r);
    JoinHead(others, close, t);
    assert parts == [] <==> others == [];
  }

  lemma JoinOpen(parts: seq<Units>, close: CodeUnit, r: Units)
    ensures (if parts == [] then [] else [COMMA]) + (Text.Join(parts, [COMMA]) + [close] + r)
         == Further(parts, close) + r
  {
    JoinFurther(parts, close);
    var x := Text.Join(parts, [COMMA]) + [close];
    assert [COMMA] + (x + r) == [COMMA] + x + r;
  }

  lemma JoinHead(parts: seq<Units>, close: CodeUnit, r: Units)
    requires parts != [] ==> parts[0] != []
    ensures (Text.Join(parts, [COMMA]) + [close] + r)[0] == if parts == [] then close else parts[0][0]
  {
  }

  lemma FurtherHead(parts: seq<Units>, close: CodeUnit, r: Units)
    ensures Further(parts, close) + r != []
    ensures (Further(parts, close) + r)[0] == if parts == [] then close else COMMA
  {
  }

  lemma FurtherStep(parts: seq<Units>, close: CodeUnit, r: Units)
    requires parts != []
    ensures Further(parts, close) + r == [COMMA] + (parts[0] + (Further(parts[1..], close) + r))
  {
  }

  /** Both lists go on with another item, or both are over. */
  lemma FurtherCancel(parts: seq<Units>, others: seq<Units>, close: CodeUnit, r: Units, t: Units)
    requires close != COMMA
    requires Further(parts, close) + r == Further(others, close) + t
    ensures parts == [] <==> others == []
    ensures parts == [] ==> r == t
    ensures parts != [] ==>
              parts[0] + (Further(parts[1..], close) + r) == others[0] + (Further(others[1..], close) + t)
  {
    FurtherHead(parts, close, r);
    FurtherHead(others, close, t);
    if parts == [] {
      Heads([close], [close], r, t);
    } else {
      FurtherStep(parts, close, r);
      FurtherStep(others, close, t);
      Heads([COMMA], [COMMA], parts[0] + (Further(parts[1..], close) + r),
            others[0] + (Further(others[1..], close) + t));
    }
  }

  lemma FieldTextCancel(key: Units, v: Units, name: Units, w: Units, x: Units, y: Units)
    requires Quote(key) + [COLON] + v + x == Quote(name) + [COLON] + w + y
    ensures key == name && v + x == w + y
  {
    assert Quote(key) + [COLON] + v + x == Quote(key) + ([COLON] + (v + x));
    assert Quote(name) + [COLON] + w + y == Quote(name) + ([COLON] + (w + y));
    QuoteCancel(key, name, [COLON] + (v + x), [COLON] + (w + y));
    Heads([COLON], [COLON], v + x, w + y);
  }

  lemma ParensCancel(open: CodeUnit, close: CodeUnit, a: seq<Units>, b: seq<Units>, r: Units, t: Units)
    requires [open] + Text.Join(a, [COMMA]) + [close] + r == [open] + Text.Join(b, [COMMA]) + [close] + t
    requires a != [] ==> a[0] != [] && a[0][0] != close
    requires b != [] ==> b[0] != [] && b[0][0] != close
    ensures Further(a, close) + r == Further(b, close) + t
  {
    var x, y := Text.Join(a, [COMMA]) + [close] + r, Text.Join(b, [COMMA]) + [close] + t;
    assert [open] + Text.Join(a, [COMMA]) + [close] + r == [open] + x;
    assert [open] + Text.Join(b, [COMMA]) + [close] + t == [open] + y;
    Heads([open], [open], x, y);
    OpenCancel(a, b, close, r, t);
  }

  // ----- JSON.stringify -----

  function Stringify(v: Json): Units
    decreases v, 0
  {
    match v
    case Null => [110, 117, 108, 108]
    case Bool(b) => if b then [116, 114, 117, 101] else [102, 97, 108, 115, 101]
    case Number(n) => n
    case String(s) => Quote(s)
    case List(items) => [91] + Text.Join(PrintItems(items), [COMMA]) + [93]
    case Object(members) => [123] + Text.Join(PrintMembers(members), [COMMA]) + [125]
  }

  function PrintItems(items: seq<Json>): (r: seq<Units>)
    ensures |r| == |items|
    decreases items, 0
  {
    if items == [] then [] else [Stringify(items[0])] + PrintItems(items[1..])
  }

  /** One property, with its value already printed. */
  function PrintField(key: Units, text: Units): Units { Quote(key) + [COLON] + text }

  function PrintMembers(members: seq<Member>): (r: seq<Units>)
    ensures |r| == |members|
    decreases members, 0
  {
    if members == [] then []
    else [PrintField(members[0].key, Stringify(members[0].value))] + PrintMembers(members[1..])
  }

  lemma StringifyHead(v: Json)
    requires IsJson(v)
    ensures Stringify(v) != []
    ensures var h := Stringify(v)[0];
            match v
            case Null => h == 110
            case Bool(b) => h == (if b then 116 else 102)
            case Number(_) => h == 45 || 48 <= h < 58
            case String(_) => h == QUOTE
            case List(_) => h == 91
            case Object(_) => h == 123
  {
  }

  lemma SameKind(v: Json, w: Json, r: Units, t: Units)
    requires IsJson(v) && IsJson(w) && Stringify(v) + r == Stringify(w) + t
    ensures v.Null? == w.Null? && v.Number? == w.Number? && v.String? == w.String?
    ensures v.List? == w.List? && v.Object? == w.Object? && v.Bool? == w.Bool?
    ensures v.Bool? ==> v == w
  {
    StringifyHead(v);
    StringifyHead(w);
    assert (Stringify(v) + r)[0] == Stringify(v)[0] && (Stringify(w) + t)[0] == Stringify(w)[0];
  }

  lemma {:induction false} PrintItemsCancel(items: seq<Json>, others: seq<Json>, r: Units, t: Units)
    requires forall i | 0 <= i < |items| :: IsJson(items[i])
    requires forall i | 0 <= i < |others| :: IsJson(others[i])
    requires Further(PrintItems(items), 93) + r == Further(PrintItems(others), 93) + t
    ensures items == others && r == t
    decreases items, 0
  {
    var a, b := PrintItems(items), PrintItems(others);
    FurtherCancel(a, b, 93, r, t);
    if items != [] {
      FurtherHead(a[1..], 93, r);
      FurtherHead(b[1..], 93, t);
      StringifyCancel(items[0], others[0], Further(a[1..], 93) + r, Further(b[1..], 93) + t);
      PrintItemsCancel(items[1..], others[1..], r, t);
      assert items == [items[0]] + items[1..] && others == [others[0]] + others[1..];
    }
  }

  lemma {:induction false} PrintMembersCancel(members: seq<Member>, others: seq<Member>, r: Units, t: Units)
    requires forall i | 0 <= i < |members| :: IsJson(members[i].value)
    requires forall i | 0 <= i < |others| :: IsJson(others[i].value)
    requires Further(PrintMembers(members), 125) + r == Further(PrintMembers(others), 125) + t
    ensures members == others && r == t
    decreases members, 1
  {
    var a, b := PrintMembers(members), PrintMembers(others);
    FurtherCancel(a, b, 125, r, t);
    if members != [] {
      var x, y := Further(a[1..], 125) + r, Further(b[1..], 125) + t;
      FurtherHead(a[1..], 125, r);
      FurtherHead(b[1..], 125, t);
      MemberCancel(members[0], others[0], x, y);
      PrintMembersCancel(members[1..], others[1..], r, t);
      assert members == [members[0]] + members[1..] && others == [others[0]] + others[1..];
    }
  }

  lemma {:induction false} MemberCancel(m: Member, o: Member, x: Units, y: Units)
    requires IsJson(m.value) && IsJson(o.value) && Delimited(x) && Delimited(y)
    requires PrintField(m.key, Stringify(m.value)) + x == PrintField(o.key, Stringify(o.value)) + y
    ensures m == o && x == y
    decreases m, 0
  {
    FieldTextCancel(m.key, Stringify(m.value), o.key, Stringify(o.value), x, y);
    StringifyCancel(m.value, o.value, x, y);
  }

  lemma {:induction false} PrintListCancel(items: seq<Json>, others: seq<Json>, r: Units, t: Units)
    requires IsJson(List(items)) && IsJson(List(others))
    requires Stringify(List(items)) + r == Stringify(List(others)) + t
    ensures items == others && r == t
    decreases items, 2
  {
    if items != [] { StringifyHead(items[0]); }
    if others != [] { StringifyHead(others[0]); }
    ParensCancel(91, 93, PrintItems(items), PrintItems(others), r, t);
    PrintItemsCancel(items, others, r, t);
  }

  lemma {:induction false} PrintObjectCancel(members: seq<Member>, others: seq<Member>, r: Units, t: Units)
    requires IsJson(Object(members)) && IsJson(Object(others))
    requires Stringify(Object(members)) + r == Stringify(Object(others)) + t
    ensures members == others && r == t
    decreases members, 2
  {
    ParensCancel(123, 125, PrintMembers(members), PrintMembers(others), r, t);
    PrintMembersCancel(members, others, r, t);
  }

  /** A printed value ends where it says it ends, and determines the value. */
  lemma {:induction false} StringifyCancel(v: Json, w: Json, r: Units, t: Units)
    requires IsJson(v) && IsJson(w) && Delimited(r) && Delimited(t)
    requires Stringify(v) + r == Stringify(w) + t
    ensures v == w && r == t
    decreases v, 0
  {
    SameKind(v, w, r, t);
    match v
    case Number(n) => NumeralCancel(n, w.numeral, r, t);
    case String(s) => QuoteCancel(s, w.units, r, t);
    case List(items) => PrintListCancel(items, w.items, r, t);
    case Object(members) => PrintObjectCancel(members, w.members, r, t);
    case _ => Heads(Stringify(v), Stringify(w), r, t);
  }

  /** No two values print alike, so a parser can undo the printer. */
  lemma StringifyInjective(v: Json, w: Json)
    requires IsJson(v) && IsJson(w)
    ensures Stringify(v) == Stringify(w) <==> v == w
  {
    if Stringify(v) == Stringify(w) {
      assert Stringify(v) + [] == Stringify(w) + [];
      StringifyCancel(v, w, [], []);
    }
  }

  // ----- printed texts have no lone surrogate -----

  lemma {:induction false} WellFormedConcat(a: Units, b: Units)
    requires WellFormed(a) && WellFormed(b)
    ensures WellFormed(a + b)
  {
    if a == [] {
      assert a + b == b;
    } else if StartsWithPair(a) {
      WellFormedConcat(a[2..], b);
      assert (a + b)[2..] == a[2..] + b;
    } else {
      WellFormedConcat(a[1..], b);
      assert (a + b)[1..] == a[1..] + b;
    }
  }

  lemma {:induction false} PlainWellFormed(a: Units)
    requires forall u | u in a :: !IsHigh(u) && !IsLow(u)
    ensures WellFormed(a)
  {
    if a != [] { PlainWellFormed(a[1..]); }
  }

  lemma {:induction false} EscapeWellFormed(s: Units)
    ensures WellFormed(Escape(s))
  {
    if s == [] {
    } else if StartsWithPair(s) {
      EscapeWellFormed(s[2..]);
      assert s[..2][2..] == [];
      WellFormedConcat(s[..2], Escape(s[2..]));
    } else {
      EscapeWellFormed(s[1..]);
      PlainWellFormed(EscapeUnit(s[0]));
      WellFormedConcat(EscapeUnit(s[0]), Escape(s[1..]));
    }
  }

  lemma QuoteWellFormed(s: Units)
    ensures WellFormed(Quote(s))
  {
    EscapeWellFormed(s);
    PlainWellFormed([QUOTE]);
    WellFormedConcat([QUOTE], Escape(s));
    WellFormedConcat([QUOTE] + Escape(s), [QUOTE]);
  }

  lemma {:induction false} JoinWellFormed(parts: seq<Units>, sep: CodeUnit)
    requires forall p | p in parts :: WellFormed(p)
    requires !IsHigh(sep) && !IsLow(sep)
    ensures WellFormed(Text.Join(parts, [sep]))
  {
    if |parts| > 1 {
      JoinWellFormed(parts[1..], sep);
      PlainWellFormed([sep]);
      WellFormedConcat(parts[0], [sep]);
      WellFormedConcat(parts[0] + [sep], Text.Join(parts[1..], [sep]));
    }
  }

  lemma BracketsWellFormed(open: CodeUnit, body: Units, close: CodeUnit)
    requires WellFormed(body) && open < 0x80 && close < 0x80
    ensures WellFormed([open] + body + [close])
  {
    PlainWellFormed([open]);
    PlainWellFormed([close]);
    WellFormedConcat([open], body);
    WellFormedConcat([open] + body, [close]);
  }

  lemma {:induction false} PrintItemsWellFormed(items: seq<Json>)
    requires forall i | 0 <= i < |items| :: IsJson(items[i])
    ensures forall p | p in PrintItems(items) :: WellFormed(p)
    decreases items, 0
  {
    if items != [] {
      StringifyWellFormed(items[0]);
      PrintItemsWellFormed(items[1..]);
    }
  }

  lemma FieldWellFormed(key: Units, text: Units)
    requires WellFormed(text)
    ensures WellFormed(PrintField(key, text))
  {
    QuoteWellFormed(key);
    PlainWellFormed([COLON]);
    WellFormedConcat(Quote(key), [COLON]);
    WellFormedConcat(Quote(key) + [COLON], text);
  }

  lemma {:induction false} PrintMembersWellFormed(members: seq<Member>)
    requires forall i | 0 <= i < |members| :: IsJson(members[i].value)
    ensures forall p | p in PrintMembers(members) :: WellFormed(p)
    decreases members, 0
  {
    if members != [] {
      StringifyWellFormed(members[0].value);
      FieldWellFormed(members[0].key, Stringify(members[0].value));
      PrintMembersWellFormed(members[1..]);
    }
  }

  lemma {:induction false} StringifyWellFormed(v: Json)
    requires IsJson(v)
    ensures WellFormed(Stringify(v))
    decreases v, 0
  {
    match v
    case String(s) => QuoteWellFormed(s);
    case List(items) =>
      PrintItemsWellFormed(items);
      JoinWellFormed(PrintItems(items), COMMA);
      BracketsWellFormed(91, Text.Join(PrintItems(items), [COMMA]), 93);
    case Object(members) =>
      PrintMembersWellFormed(members);
      JoinWellFormed(PrintMembers(members), COMMA);
      BracketsWellFormed(123, Text.Join(PrintMembers(members), [COMMA]), 125);
    case _ => PlainWellFormed(Stringify(v));
  }
}
