/** The canonical JSON printer of the public intake worker. */
module CanonicalJson {
  import opened Utf8
  import opened JsonText
  import Text

  // ----- canonicalJson -----

  /** Order of UTF-16 code units, as `Array.prototype.sort` compares texts. */
  predicate Less(a: Units, b: Units) {
    if b == [] then false
    else if a == [] then true
    else a[0] < b[0] || (a[0] == b[0] && Less(a[1..], b[1..]))
  }

  function Insert(key: Units, sorted: seq<Units>): seq<Units> {
    if sorted == [] || !Less(sorted[0], key) then [key] + sorted
    else [sorted[0]] + Insert(key, sorted[1..])
  }

  function Sort(keys: seq<Units>): seq<Units> {
    if keys == [] then [] else Insert(keys[0], Sort(keys[1..]))
  }

  function KeysInOrder(members: seq<Member>): seq<Units> {
    seq(|members|, i requires 0 <= i < |members| => members[i].key)
  }

  function Canon(v: Json): Units
    decreases v, 0
  {
    match v
    case Null => [110, 117, 108, 108]
    case Bool(b) => if b then [116, 114, 117, 101] else [102, 97, 108, 115, 101]
    case Number(n) => n
    case String(s) => Quote(s)
    case List(items) => [91] + Text.Join(CanonItems(items), [COMMA]) + [93]
    case Object(members) =>
      [123] + Text.Join(Fields(Sort(KeysInOrder(members)), Texts(members)), [COMMA]) + [125]
  }

  function CanonItems(items: seq<Json>): (r: seq<Units>)
    ensures |r| == |items|
    decreases items, 0
  {
    if items == [] then [] else [Canon(items[0])] + CanonItems(items[1..])
  }

  /** The printed value of each property. */
  function Texts(members: seq<Member>): (r: map<Units, Units>)
    ensures r.Keys == Keys(members)
    decreases members, 0
  {
    if members == [] then map[]
    else
      var rest := Texts(members[1..]);
      assert Keys(members) == Keys(members[1..]) + {members[0].key};
      if members[0].key in rest then rest else rest[members[0].key := Canon(members[0].value)]
  }

  function Fields(keys: seq<Units>, texts: map<Units, Units>): (r: seq<Units>)
    ensures |r| == |keys|
  {
    if keys == [] then []
    else [Quote(keys[0]) + [COLON] + if keys[0] in texts then texts[keys[0]] else []] + Fields(keys[1..], texts)
  }

  // ----- key order -----

  lemma {:induction false} LessTransitive(a: Units, b: Units, c: Units)
    requires Less(a, b) && Less(b, c)
    ensures Less(a, c)
  {
    if a != [] && a[0] == b[0] && b[0] == c[0] { LessTransitive(a[1..], b[1..], c[1..]); }
  }

  lemma {:induction false} LessTotal(a: Units, b: Units)
    ensures Less(a, b) || Less(b, a) || a == b
    ensures !(Less(a, b) && Less(b, a)) && !Less(a, a)
  {
    if a != [] && b != [] && a[0] == b[0] {
      LessTotal(a[1..], b[1..]);
      if a[1..] == b[1..] { assert a == [a[0]] + a[1..] && b == [b[0]] + b[1..]; }
    }
    if a != [] { LessTotal(a[1..], a[1..]); }
  }

  predicate Sorted(keys: seq<Units>) {
    keys == [] || (Sorted(keys[1..]) && forall k | k in keys[1..] :: Less(keys[0], k))
  }

  lemma {:induction false} InsertSorted(key: Units, keys: seq<Units>)
    requires Sorted(keys) && key !in keys
    ensures Sorted(Insert(key, keys))
    ensures forall k :: k in Insert(key, keys) <==> k == key || k in keys
  {
    if keys != [] {
      assert keys == [keys[0]] + keys[1..];
      LessTotal(keys[0], key);
      var out := Insert(key, keys);
      if Less(keys[0], key) {
        InsertSorted(key, keys[1..]);
        assert out[1..] == Insert(key, keys[1..]);
      } else {
        assert out[1..] == keys;
        forall k | k in keys ensures Less(key, k) {
          if k != keys[0] { LessTransitive(key, keys[0], k); }
        }
      }
    }
  }

  lemma {:induction false} SortSorts(keys: seq<Units>)
    requires forall i, j | 0 <= i < j < |keys| :: keys[i] != keys[j]
    ensures Sorted(Sort(keys))
    ensures forall k :: k in Sort(keys) <==> k in keys
  {
    if keys != [] {
      assert keys == [keys[0]] + keys[1..];
      SortSorts(keys[1..]);
      InsertSorted(keys[0], Sort(keys[1..]));
    }
  }

  /** There is one way to put a set of keys in order. */
  lemma {:induction false} SortedUnique(a: seq<Units>, b: seq<Units>)
    requires Sorted(a) && Sorted(b) && forall k :: k in a <==> k in b
    ensures a == b
  {
    assert a != [] ==> a[0] in b;
    assert b != [] ==> b[0] in a;
    if a != [] && b != [] {
      assert a == [a[0]] + a[1..] && b == [b[0]] + b[1..];
      assert a[0] in b && b[0] in a;
      LessTotal(a[0], b[0]);
      assert a[0] == b[0];
      forall k ensures k in a[1..] <==> k in b[1..] {
        LessTotal(a[0], a[0]);
        assert k in a <==> k in b;
      }
      SortedUnique(a[1..], b[1..]);
    }
  }

  // ----- what canonicalJson prints -----

  /** `a` is a proper prefix of `b`, or its unit is smaller where they first differ. */
  predicate Precedes(a: Units, b: Units) {
    exists k :: 0 <= k <= |a| && k < |b| && a[..k] == b[..k] && (k == |a| || a[k] < b[k])
  }

  lemma {:induction false} LessExactly(a: Units, b: Units)
    ensures Less(a, b) <==> Precedes(a, b)
  {
    if a != [] && b != [] && a[0] == b[0] {
      LessExactly(a[1..], b[1..]);
      if k :| 0 <= k <= |a[1..]| && k < |b[1..]| && a[1..][..k] == b[1..][..k]
              && (k == |a[1..]| || a[1..][k] < b[1..][k])
      {
        assert a[..k + 1] == [a[0]] + a[1..][..k] && b[..k + 1] == [b[0]] + b[1..][..k];
      }
      if k :| 0 <= k <= |a| && k < |b| && a[..k] == b[..k] && (k == |a| || a[k] < b[k]) {
        assert a[1..][..k - 1] == a[..k][1..] && b[1..][..k - 1] == b[..k][1..];
      }
    } else if b != [] {
      assert a[..0] == b[..0];
      assert a != [] ==> forall k | 0 < k <= |a| && k < |b| :: a[..k][0] == a[0] && b[..k][0] == b[0];
    }
  }

  predicate AscendingKeys(members: seq<Member>) {
    forall i, j | 0 <= i < j < |members| :: Precedes(members[i].key, members[j].key)
  }

  function InsertMember(m: Member, sorted: seq<Member>): seq<Member> {
    if sorted == [] || !Less(sorted[0].key, m.key) then [m] + sorted
    else [sorted[0]] + InsertMember(m, sorted[1..])
  }

  /** The properties of an object in the order they are printed. */
  function SortMembers(members: seq<Member>): seq<Member> {
    if members == [] then [] else InsertMember(members[0], SortMembers(members[1..]))
  }

  lemma {:induction false} InsertMemberKeys(m: Member, sorted: seq<Member>)
    ensures KeysInOrder(InsertMember(m, sorted)) == Insert(m.key, KeysInOrder(sorted))
    ensures multiset(InsertMember(m, sorted)) == multiset{m} + multiset(sorted)
  {
    if sorted != [] {
      InsertMemberKeys(m, sorted[1..]);
      assert sorted == [sorted[0]] + sorted[1..];
      assert KeysInOrder(sorted)[1..] == KeysInOrder(sorted[1..]);
    }
  }

  lemma {:induction false} SortMembersKeys(members: seq<Member>)
    ensures KeysInOrder(SortMembers(members)) == Sort(KeysInOrder(members))
    ensures multiset(SortMembers(members)) == multiset(members)
  {
    if members != [] {
      SortMembersKeys(members[1..]);
      InsertMemberKeys(members[0], SortMembers(members[1..]));
      assert members == [members[0]] + members[1..];
      assert KeysInOrder(members)[1..] == KeysInOrder(members[1..]);
    }
  }

  lemma {:induction false} SortedAscends(keys: seq<Units>, i: nat, j: nat)
    requires Sorted(keys) && i < j < |keys|
    ensures Precedes(keys[i], keys[j])
  {
    if i == 0 {
      assert keys[j] == keys[1..][j - 1];
      LessExactly(keys[0], keys[j]);
    } else {
      SortedAscends(keys[1..], i - 1, j - 1);
    }
  }

  lemma {:induction false} FieldsAt(keys: seq<Units>, texts: map<Units, Units>, i: nat)
    requires i < |keys| && keys[i] in texts
    ensures Fields(keys, texts)[i] == Quote(keys[i]) + [COLON] + texts[keys[i]]
  {
    if i > 0 { FieldsAt(keys[1..], texts, i - 1); }
  }

  /** Each part is a property, printed. */
  predicate Prints(parts: seq<Units>, members: seq<Member>) {
    |parts| == |members|
    && forall i | 0 <= i < |members| :: parts[i] == Quote(members[i].key) + [COLON] + Canon(members[i].value)
  }

  /**
   * An object is printed as its properties in ascending order of the UTF-16
   * code units of their names, each as name, colon and canonical value, joined
   * by commas between braces.
   */
  lemma CanonObject(members: seq<Member>) returns (order: seq<Member>, parts: seq<Units>)
    requires DistinctKeys(members)
    ensures multiset(order) == multiset(members) && AscendingKeys(order) && Prints(parts, order)
    ensures Canon(Object(members)) == [123] + Text.Join(parts, [COMMA]) + [125]
  {
    order := SortMembers(members);
    var keys, texts := Sort(KeysInOrder(members)), Texts(members);
    parts := Fields(keys, texts);
    SortMembersKeys(members);
    SortedKeys(members);
    assert keys == KeysInOrder(order);
    forall i | 0 <= i < |order| ensures parts[i] == Quote(order[i].key) + [COLON] + Canon(order[i].value) {
      assert order[i] in multiset(members);
      var j :| 0 <= j < |members| && members[j] == order[i];
      TextsAt(members, j);
      assert keys[i] == order[i].key;
      FieldsAt(keys, texts, i);
    }
    forall i, j | 0 <= i < j < |order| ensures Precedes(order[i].key, order[j].key) {
      SortedAscends(keys, i, j);
    }
  }

  /** Everything else is printed as it is in JSON, lists in their own order. */
  lemma CanonOthers(v: Json) returns (parts: seq<Units>)
    requires !v.Object?
    ensures match v
            case Null => Canon(v) == Utf16("null")
            case Bool(b) => Canon(v) == Utf16(if b then "true" else "false")
            case Number(n) => Canon(v) == n
            case String(s) => Canon(v) == Quote(s)
            case List(items) =>
              && |parts| == |items| && (forall i | 0 <= i < |items| :: parts[i] == Canon(items[i]))
              && Canon(v) == [91] + Text.Join(parts, [COMMA]) + [93]
  {
    parts := [];
    match v
    case Null => Utf16Ascii("null");
    case Bool(b) => Utf16Ascii(if b then "true" else "false");
    case List(items) =>
      parts := CanonItems(items);
      forall i | 0 <= i < |items| ensures parts[i] == Canon(items[i]) { ItemsAt(items, i); }
    case _ =>
  }

  lemma {:induction false} ItemsAt(items: seq<Json>, i: nat)
    requires i < |items|
    ensures CanonItems(items)[i] == Canon(items[i])
  {
    if i > 0 { ItemsAt(items[1..], i - 1); }
  }

  // ----- what canonicalJson ignores -----

  lemma {:induction false} TextsAt(members: seq<Member>, i: nat)
    requires i < |members| && DistinctKeys(members)
    ensures members[i].key in Texts(members) && Texts(members)[members[i].key] == Canon(members[i].value)
  {
    var tail := members[1..];
    assert members[0].key !in Keys(tail);
    if i > 0 {
      TextsAt(tail, i - 1);
      assert tail[i - 1] == members[i];
    }
  }

  lemma SortedKeys(members: seq<Member>)
    requires DistinctKeys(members)
    ensures Sorted(Sort(KeysInOrder(members)))
    ensures forall k :: k in Sort(KeysInOrder(members)) <==> k in Keys(members)
  {
    var keys := KeysInOrder(members);
    SortSorts(keys);
    forall k ensures k in keys <==> k in Keys(members) {
      if k in Keys(members) {
        var i :| 0 <= i < |members| && members[i].key == k;
        assert keys[i] == k;
      }
    }
  }

  lemma {:induction false} SameItemsCanon(items: seq<Json>, others: seq<Json>)
    requires |items| == |others|
    requires forall i | 0 <= i < |items| :: IsJson(items[i]) && IsJson(others[i]) && Same(items[i], others[i])
    ensures CanonItems(items) == CanonItems(others)
    decreases items, 0
  {
    if items != [] {
      SameCanon(items[0], others[0]);
      SameItemsCanon(items[1..], others[1..]);
    }
  }

  lemma SameTexts(members: seq<Member>, others: seq<Member>)
    requires IsJson(Object(members)) && IsJson(Object(others)) && Same(Object(members), Object(others))
    ensures Texts(members) == Texts(others)
    decreases members, 1
  {
    forall k | k in Keys(members) ensures k in Texts(others) && Texts(members)[k] == Texts(others)[k] {
      var i :| 0 <= i < |members| && members[i].key == k;
      assert k in Keys(others);
      var j :| 0 <= j < |others| && others[j].key == k;
      TextsAt(members, i);
      TextsAt(others, j);
      SameCanon(members[i].value, others[j].value);
    }
  }

  /** The order of properties does not show in the printed text. */
  lemma {:induction false} SameCanon(v: Json, w: Json)
    requires IsJson(v) && IsJson(w) && Same(v, w)
    ensures Canon(v) == Canon(w)
    decreases v, 0
  {
    match v
    case List(items) => SameItemsCanon(items, w.items);
    case Object(members) =>
      SortedKeys(members);
      SortedKeys(w.members);
      SortedUnique(Sort(KeysInOrder(members)), Sort(KeysInOrder(w.members)));
      SameTexts(members, w.members);
    case _ =>
  }

  // ----- and what it does not -----

  lemma CanonHead(v: Json)
    requires IsJson(v)
    ensures Canon(v) != []
    ensures var h := Canon(v)[0];
            match v
            case Null => h == 110
            case Bool(b) => h == (if b then 116 else 102)
            case Number(_) => h == 45 || 48 <= h < 58
            case String(_) => h == QUOTE
            case List(_) => h == 91
            case Object(_) => h == 123
  {
  }

  lemma HeadDecides(v: Json, w: Json, r: Units, t: Units)
    requires IsJson(v) && IsJson(w) && Canon(v) + r == Canon(w) + t
    ensures v.Null? == w.Null? && v.Number? == w.Number? && v.String? == w.String?
    ensures v.List? == w.List? && v.Object? == w.Object? && v.Bool? == w.Bool?
    ensures v.Bool? ==> v == w
  {
    CanonHead(v);
    CanonHead(w);
    assert (Canon(v) + r)[0] == Canon(v)[0] && (Canon(w) + t)[0] == Canon(w)[0];
  }

  lemma {:induction false} ItemsCancel(items: seq<Json>, others: seq<Json>, r: Units, t: Units)
    requires forall i | 0 <= i < |items| :: IsJson(items[i])
    requires forall i | 0 <= i < |others| :: IsJson(others[i])
    requires Further(CanonItems(items), 93) + r == Further(CanonItems(others), 93) + t
    ensures Same(List(items), List(others)) && r == t
    decreases items, 0
  {
    var a, b := CanonItems(items), CanonItems(others);
    FurtherCancel(a, b, 93, r, t);
    if items != [] {
      var x, y := Further(a[1..], 93) + r, Further(b[1..], 93) + t;
      FurtherHead(a[1..], 93, r);
      FurtherHead(b[1..], 93, t);
      CanonCancel(items[0], others[0], x, y);
      ItemsCancel(items[1..], others[1..], r, t);
      forall i | 0 <= i < |items| ensures Same(items[i], others[i]) {
        if i > 0 { assert Same(items[1..][i - 1], others[1..][i - 1]); }
      }
    }
  }

  predicate SameAt(members: seq<Member>, others: seq<Member>, key: Units)
  {
    forall i, j | 0 <= i < |members| && 0 <= j < |others| && members[i].key == key == others[j].key ::
      Same(members[i].value, others[j].value)
  }

  predicate Within(keys: seq<Units>, members: seq<Member>) { forall k | k in keys :: k in Keys(members) }

  predicate SameAll(keys: seq<Units>, members: seq<Member>, others: seq<Member>) {
    forall k | k in keys :: SameAt(members, others, k)
  }

  lemma SameAllCons(keys: seq<Units>, members: seq<Member>, others: seq<Member>)
    requires keys != [] && SameAt(members, others, keys[0]) && SameAll(keys[1..], members, others)
    ensures SameAll(keys, members, others)
  {
    assert keys == [keys[0]] + keys[1..];
  }

  lemma SameMembers(keys: seq<Units>, members: seq<Member>, others: seq<Member>)
    requires forall k :: k in keys <==> k in Keys(members)
    requires forall k :: k in keys <==> k in Keys(others)
    requires SameAll(keys, members, others)
    ensures Same(Object(members), Object(others))
  {
    assert Keys(members) == Keys(others);
    forall i, j | 0 <= i < |members| && 0 <= j < |others| && members[i].key == others[j].key
      ensures Same(members[i].value, others[j].value)
    {
      assert members[i].key in Keys(members);
      assert SameAt(members, others, members[i].key);
    }
  }

  lemma OneAt(members: seq<Member>, others: seq<Member>, i: nat, j: nat)
    requires i < |members| && j < |others| && DistinctKeys(members) && DistinctKeys(others)
    requires members[i].key == others[j].key && Same(members[i].value, others[j].value)
    ensures SameAt(members, others, members[i].key)
  {
  }

  lemma {:induction false} FieldsCancel(keys: seq<Units>, members: seq<Member>,
                                        names: seq<Units>, others: seq<Member>, r: Units, t: Units)
    requires IsJson(Object(members)) && Within(keys, members)
    requires IsJson(Object(others)) && Within(names, others)
    requires Further(Fields(keys, Texts(members)), 125) + r == Further(Fields(names, Texts(others)), 125) + t
    ensures keys == names && r == t
    ensures SameAll(keys, members, others)
    decreases members, 1, |keys|
  {
    FieldsStep(keys, Texts(members), names, Texts(others), r, t);
    if keys != [] {
      FieldCancel(keys[0], members, names[0], others,
                  Further(Fields(keys[1..], Texts(members)), 125) + r,
                  Further(Fields(names[1..], Texts(others)), 125) + t);
      FieldsCancel(keys[1..], members, names[1..], others, r, t);
      SameAllCons(keys, members, others);
      assert keys == [keys[0]] + keys[1..] && names == [names[0]] + names[1..];
    }
  }

  lemma FieldsStep(keys: seq<Units>, texts: map<Units, Units>,
                   names: seq<Units>, others: map<Units, Units>, r: Units, t: Units)
    requires (forall k | k in keys :: k in texts) && (forall k | k in names :: k in others)
    requires Further(Fields(keys, texts), 125) + r == Further(Fields(names, others), 125) + t
    ensures keys == [] <==> names == []
    ensures keys == [] ==> r == t
    ensures keys != [] ==>
              var x := Further(Fields(keys[1..], texts), 125) + r;
              var y := Further(Fields(names[1..], others), 125) + t;
              && Delimited(x) && Delimited(y)
              && Quote(keys[0]) + [COLON] + texts[keys[0]] + x == Quote(names[0]) + [COLON] + others[names[0]] + y
  {
    var a, b := Fields(keys, texts), Fields(names, others);
    FurtherCancel(a, b, 125, r, t);
    if keys != [] {
      FurtherHead(a[1..], 125, r);
      FurtherHead(b[1..], 125, t);
    }
  }

  lemma {:induction false} FieldCancel(key: Units, members: seq<Member>,
                                       name: Units, others: seq<Member>, x: Units, y: Units)
    requires IsJson(Object(members)) && key in Keys(members)
    requires IsJson(Object(others)) && name in Keys(others)
    requires Delimited(x) && Delimited(y)
    requires Quote(key) + [COLON] + Texts(members)[key] + x == Quote(name) + [COLON] + Texts(others)[name] + y
    ensures key == name && x == y && SameAt(members, others, key)
    decreases members, 0, 0
  {
    FieldTextCancel(key, Texts(members)[key], name, Texts(others)[name], x, y);
    var i :| 0 <= i < |members| && members[i].key == key;
    var j :| 0 <= j < |others| && others[j].key == name;
    TextsAt(members, i);
    TextsAt(others, j);
    CanonCancel(members[i].value, others[j].value, x, y);
    OneAt(members, others, i, j);
  }

  lemma {:induction false} ObjectCancel(members: seq<Member>, others: seq<Member>, r: Units, t: Units)
    requires IsJson(Object(members)) && IsJson(Object(others))
    requires Canon(Object(members)) + r == Canon(Object(others)) + t
    ensures Same(Object(members), Object(others)) && r == t
    decreases members, 2, 0
  {
    var keys, names := Sort(KeysInOrder(members)), Sort(KeysInOrder(others));
    var a, b := Fields(keys, Texts(members)), Fields(names, Texts(others));
    ParensCancel(123, 125, a, b, r, t);
    SortedKeys(members);
    SortedKeys(others);
    FieldsCancel(keys, members, names, others, r, t);
    SameMembers(keys, members, others);
  }

  lemma {:induction false} ListCancel(items: seq<Json>, others: seq<Json>, r: Units, t: Units)
    requires IsJson(List(items)) && IsJson(List(others))
    requires Canon(List(items)) + r == Canon(List(others)) + t
    ensures Same(List(items), List(others)) && r == t
    decreases items, 2, 0
  {
    var a, b := CanonItems(items), CanonItems(others);
    if items != [] { CanonHead(items[0]); }
    if others != [] { CanonHead(others[0]); }
    ParensCancel(91, 93, a, b, r, t);
    ItemsCancel(items, others, r, t);
  }

  /** A printed value ends where it says it ends, and determines the value. */
  lemma {:induction false} CanonCancel(v: Json, w: Json, r: Units, t: Units)
    requires IsJson(v) && IsJson(w) && Delimited(r) && Delimited(t)
    requires Canon(v) + r == Canon(w) + t
    ensures Same(v, w) && r == t
    decreases v, 0
  {
    HeadDecides(v, w, r, t);
    match v
    case Number(n) => NumeralCancel(n, w.numeral, r, t);
    case String(s) => QuoteCancel(s, w.units, r, t);
    case List(items) => ListCancel(items, w.items, r, t);
    case Object(members) => ObjectCancel(members, w.members, r, t);
    case _ => Heads(Canon(v), Canon(w), r, t);
  }

  /** The canonical text is the same exactly for values that differ only in the
      order of their properties. */
  lemma CanonicalExactly(v: Json, w: Json)
    requires IsJson(v) && IsJson(w)
    ensures Canon(v) == Canon(w) <==> Same(v, w)
  {
    if Same(v, w) { SameCanon(v, w); }
    if Canon(v) == Canon(w) {
      assert Canon(v) + [] == Canon(w) + [];
      CanonCancel(v, w, [], []);
    }
  }
}
