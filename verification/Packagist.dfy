/**
 * Composer 2 metadata of Packagist: expansion of the minified version list
 * (`expandPackagistVersions` of workers/shared/native-packagist.js).
 */
module Packagist {
  import opened Common
  import opened Values

  /** An expanded version: its own properties, and the record it was given as a
      prototype by an assignment to `__proto__`, if any. */
  datatype Entry = Entry(own: map<string, Value>, proto: Option<map<string, Value>>)

  const UNSET := Text("__unset")
  const PROTO := "__proto__"

  /** `{ ...record }` */
  function Clone(fields: Fields): Entry { Entry(Properties(fields), None) }

  /** `next.__proto__ = value` on an object without such a property of its own. */
  function SetPrototype(e: Entry, value: Value): Entry {
    match value
    case Record(fields) => e.(proto := Some(Properties(fields)))
    case List(_) => e.(proto := Some(map[]))
    case Null => e.(proto := Some(map[]))
    case _ => e
  }

  /** `next[key] = value` */
  function Assign(e: Entry, key: string, value: Value): Entry {
    if key == PROTO && key !in e.own then SetPrototype(e, value) else e.(own := e.own[key := value])
  }

  /** One property of a delta. */
  function Step(e: Entry, key: string, value: Value): Entry {
    if value == UNSET then e.(own := e.own - {key}) else Assign(e, key, value)
  }

  function Apply(e: Entry, delta: Fields): Entry {
    if delta == [] then e
    else
      var last := delta[|delta| - 1];
      Step(Apply(e, delta[..|delta| - 1]), last.0, last.1)
  }

  /** Every version starts from the own properties of the one before. */
  function Expanded(deltas: seq<Fields>): (r: seq<Entry>)
    ensures |r| == |deltas|
  {
    if deltas == [] then []
    else
      var n := |deltas| - 1;
      var before := Expanded(deltas[..n]);
      if n == 0 then [Clone(deltas[0])]
      else before + [Apply(Entry(before[n - 1].own, None), deltas[n])]
  }

  predicate AllRecords(versions: seq<Value>) { forall i | 0 <= i < |versions| :: versions[i].Record? }

  function Deltas(versions: seq<Value>): (r: seq<Fields>)
    ensures |r| == |versions|
  {
    if versions == [] then []
    else
      var last := versions[|versions| - 1];
      Deltas(versions[..|versions| - 1]) + [if last.Record? then last.entries else []]
  }

  /** The records of a list that is not minified; anything else is dropped. */
  function Records(versions: seq<Value>): seq<Entry> {
    if versions == [] then []
    else
      var last := versions[|versions| - 1];
      Records(versions[..|versions| - 1]) + if last.Record? then [Clone(last.entries)] else []
  }

  /** The version list of a metadata document, for a valid coordinate. */
  function VersionList(body: Value, coordinate: string): Option<seq<Value>> {
    var packages := Property(body, "packages");
    if packages.None? then None
    else
      var versions := Property(packages.value, coordinate);
      if versions.None? || !versions.value.List? then None else Some(versions.value.items)
  }

  function Expand(body: Value, coordinate: string): seq<Entry> {
    var versions := VersionList(body, coordinate);
    var minified := Property(body, "minified");
    if versions.None? then []
    else if minified.None? then Records(versions.value)
    else if minified.value != Text("composer/2.0") then []
    else if !AllRecords(versions.value) then []
    else Expanded(Deltas(versions.value))
  }

  /** The loop over one delta. */
  method ApplyDelta(previous: Entry, delta: Fields) returns (next: Entry)
    ensures next == Apply(Entry(previous.own, None), delta)
  {
    next := Entry(previous.own, None);
    for i := 0 to |delta|
      invariant next == Apply(Entry(previous.own, None), delta[..i])
    {
      assert delta[..i + 1][..i] == delta[..i];
      var key, value := delta[i].0, delta[i].1;
      if value == UNSET {
        next := next.(own := next.own - {key});
      } else {
        next := Assign(next, key, value);
      }
    }
    assert delta[..|delta|] == delta;
  }

  lemma DeltasPrefix(versions: seq<Value>, i: nat)
    requires i < |versions|
    ensures Deltas(versions[..i + 1]) ==
            Deltas(versions[..i]) + [if versions[i].Record? then versions[i].entries else []]
  {
    assert versions[..i + 1][..i] == versions[..i];
  }

  /** The loop over a minified list: nothing at all if any entry is no record. */
  method ExpandMinified(versions: seq<Value>) returns (expanded: seq<Entry>)
    ensures expanded == if AllRecords(versions) then Expanded(Deltas(versions)) else []
  {
    expanded := [];
    var previous: Option<Entry> := None;
    for i := 0 to |versions|
      invariant AllRecords(versions[..i])
      invariant expanded == Expanded(Deltas(versions[..i]))
      invariant previous == if i == 0 then None else Some(expanded[i - 1])
    {
      DeltasPrefix(versions, i);
      if !versions[i].Record? {
        return [];
      }
      var deltas := Deltas(versions[..i + 1]);
      assert deltas[..i] == Deltas(versions[..i]);
      if previous.None? {
        previous := Some(Clone(versions[i].entries));
        expanded := expanded + [previous.value];
        continue;
      }
      var next := ApplyDelta(previous.value, versions[i].entries);
      previous := Some(next);
      expanded := expanded + [next];
    }
    assert versions[..|versions|] == versions;
  }

  method ExpandPackagistVersions(body: Value, coordinate: string) returns (expanded: seq<Entry>)
    ensures expanded == Expand(body, coordinate)
  {
    var versions := VersionList(body, coordinate);
    var minified := Property(body, "minified");
    if versions.None? || (minified.Some? && minified.value != Text("composer/2.0")) { return []; }
    if minified.None? { return Records(versions.value); }
    expanded := ExpandMinified(versions.value);
  }

  // ----- what expansion means -----

  function Own(e: Entry, key: string): Option<Value> { if key in e.own then Some(e.own[key]) else None }

  /** What the last delta up to `i` that mentions the key says about it. A first
      record is taken literally; later ones may remove the key. */
  function Meaning(deltas: seq<Fields>, i: nat, key: string): Option<Value>
    requires i < |deltas|
  {
    var fields := Properties(deltas[i]);
    if key in fields then
      if i > 0 && fields[key] == UNSET then None else Some(fields[key])
    else if i == 0 then None
    else Meaning(deltas, i - 1, key)
  }

  lemma {:induction false} ApplyOwn(e: Entry, delta: Fields, key: string)
    requires DistinctKeys(delta) && key != PROTO
    ensures Own(Apply(e, delta), key) ==
            if key in Properties(delta) then
              if Properties(delta)[key] == UNSET then None else Some(Properties(delta)[key])
            else Own(e, key)
  {
    if delta != [] { ApplyOwn(e, delta[..|delta| - 1], key); }
  }

  lemma {:induction false} ExpandedPrefix(deltas: seq<Fields>, n: nat)
    requires n <= |deltas|
    ensures Expanded(deltas)[..n] == Expanded(deltas[..n])
  {
    if n < |deltas| {
      var m := |deltas| - 1;
      ExpandedPrefix(deltas[..m], n);
      assert deltas[..m][..n] == deltas[..n];
      assert Expanded(deltas)[..m] == Expanded(deltas[..m]);
      assert Expanded(deltas)[..n] == Expanded(deltas)[..m][..n];
    } else {
      assert deltas[..n] == deltas;
    }
  }

  lemma ExpandedStep(deltas: seq<Fields>, i: nat)
    requires 0 < i < |deltas|
    ensures Expanded(deltas)[i] == Apply(Entry(Expanded(deltas)[i - 1].own, None), deltas[i])
  {
    ExpandedPrefix(deltas, i + 1);
    ExpandedPrefix(deltas, i);
    assert deltas[..i + 1][..i] == deltas[..i];
    assert Expanded(deltas)[i] == Expanded(deltas)[..i + 1][i];
    assert Expanded(deltas)[i - 1] == Expanded(deltas)[..i][i - 1];
  }

  lemma ExpandedFirst(deltas: seq<Fields>)
    requires deltas != []
    ensures Expanded(deltas)[0] == Clone(deltas[0])
  {
    ExpandedPrefix(deltas, 1);
    assert Expanded(deltas)[0] == Expanded(deltas)[..1][0];
  }

  /** Each property of each version is what the last delta that mentions it says. */
  lemma {:induction false} ExpansionMeaning(deltas: seq<Fields>, i: nat, key: string)
    requires i < |deltas| && key != PROTO && forall j | 0 <= j < |deltas| :: DistinctKeys(deltas[j])
    ensures Own(Expanded(deltas)[i], key) == Meaning(deltas, i, key)
  {
    if i == 0 {
      ExpandedFirst(deltas);
    } else {
      ExpansionMeaning(deltas, i - 1, key);
      ExpandedStep(deltas, i);
      ApplyOwn(Entry(Expanded(deltas)[i - 1].own, None), deltas[i], key);
    }
  }

  lemma {:induction false} ApplyPrototype(e: Entry, delta: Fields)
    requires PROTO !in Properties(delta)
    ensures Apply(e, delta).proto == e.proto
  {
    if delta != [] { ApplyPrototype(e, delta[..|delta| - 1]); }
  }

  /** A `__proto__` in a delta gives a prototype to that version alone. */
  lemma PrototypeIsLocal(deltas: seq<Fields>, i: nat)
    requires i < |deltas| && (i > 0 ==> PROTO !in Properties(deltas[i]))
    ensures Expanded(deltas)[i].proto.None?
  {
    if i == 0 {
      ExpandedFirst(deltas);
    } else {
      ExpandedStep(deltas, i);
      ApplyPrototype(Entry(Expanded(deltas)[i - 1].own, None), deltas[i]);
    }
  }

  lemma {:induction false} ApplyConcat(e: Entry, a: Fields, b: Fields)
    ensures Apply(e, a + b) == Apply(Apply(e, a), b)
  {
    if b == [] {
      assert a + b == a;
    } else {
      ApplyConcat(e, a, b[..|b| - 1]);
      assert (a + b)[..|a + b| - 1] == a + b[..|b| - 1];
    }
  }

  lemma {:induction false} Unmentioned(delta: Fields, key: string)
    requires forall j | 0 <= j < |delta| :: delta[j].0 != key
    ensures key !in Properties(delta)
  {
    if delta != [] { Unmentioned(delta[..|delta| - 1], key); }
  }

  /** A delta without `__proto__` leaves the prototype alone. */
  lemma {:induction false} ApplyKeepsProto(e: Entry, delta: Fields)
    requires (forall j | 0 <= j < |delta| :: delta[j].0 != PROTO) && PROTO !in e.own
    ensures PROTO !in Apply(e, delta).own && Apply(e, delta).proto == e.proto
  {
    if delta != [] { ApplyKeepsProto(e, delta[..|delta| - 1]); }
  }

  /** A record or a list that a delta names `__proto__` becomes the prototype of
      the version, not a property of it; `null` takes the prototype away, and
      anything else is ignored. */
  lemma PrototypeSet(e: Entry, delta: Fields, k: nat)
    requires k < |delta| && DistinctKeys(delta) && delta[k].0 == PROTO && PROTO !in e.own && e.proto.None?
    ensures var r := Apply(e, delta);
            && PROTO !in r.own
            && r.proto == match delta[k].1
                          case Record(fields) => Some(Properties(fields))
                          case List(_) => Some(map[])
                          case Null => Some(map[])
                          case _ => None
  {
    var front, back := delta[..k], delta[k + 1..];
    assert delta == front + [delta[k]] + back;
    ApplyConcat(e, front + [delta[k]], back);
    ApplyKeepsProto(e, front);
    assert (front + [delta[k]])[..k] == front;
    var mid := Step(Apply(e, front), PROTO, delta[k].1);
    assert Apply(e, front + [delta[k]]) == mid;
    ApplyKeepsProto(mid, back);
  }

  // ----- the four cases of a version list -----

  lemma {:induction false} RecordsAt(versions: seq<Value>)
    requires AllRecords(versions)
    ensures |Records(versions)| == |versions|
    ensures forall i | 0 <= i < |versions| :: Records(versions)[i] == Entry(Properties(versions[i].entries), None)
  {
    if versions != [] { RecordsAt(versions[..|versions| - 1]); }
  }

  lemma {:induction false} DeltasAt(versions: seq<Value>)
    requires AllRecords(versions)
    ensures forall i | 0 <= i < |versions| :: Deltas(versions)[i] == versions[i].entries
  {
    if versions != [] { DeltasAt(versions[..|versions| - 1]); }
  }

  /**
   * Without a list there are no versions, and none with a minification other
   * than Composer's or with an entry that is no record. A list that is not
   * minified is copied; a minified one is expanded, each record a delta.
   */
  lemma ExpandExactly(body: Value, coordinate: string, versions: seq<Value>)
    ensures VersionList(body, coordinate).None? ==> Expand(body, coordinate) == []
    ensures Property(body, "minified") !in {None, Some(Text("composer/2.0"))} ==> Expand(body, coordinate) == []
    ensures VersionList(body, coordinate) == Some(versions) && Property(body, "minified").None? && AllRecords(versions) ==>
              && |Expand(body, coordinate)| == |versions|
              && forall i | 0 <= i < |versions| :: Expand(body, coordinate)[i] == Entry(Properties(versions[i].entries), None)
    ensures VersionList(body, coordinate) == Some(versions) && Property(body, "minified") == Some(Text("composer/2.0")) ==>
              if !(forall i | 0 <= i < |versions| :: versions[i].Record?) then Expand(body, coordinate) == []
              else
                Expand(body, coordinate) ==
                Expanded(seq(|versions|, i requires 0 <= i < |versions| && versions[i].Record? => versions[i].entries))
  {
    if AllRecords(versions) {
      RecordsAt(versions);
      DeltasAt(versions);
      assert Deltas(versions) == seq(|versions|, i requires 0 <= i < |versions| && versions[i].Record? => versions[i].entries);
    }
  }

  // ----- the minifier -----

  /** The properties in which a version differs from the one before. */
  function Difference(before: map<string, Value>, after: map<string, Value>): map<string, Value> {
    map k | k in before.Keys + after.Keys && (k !in before || k !in after || before[k] != after[k]) ::
      if k in after then after[k] else UNSET
  }

  function MinifiedAt(records: seq<map<string, Value>>, i: nat): map<string, Value>
    requires i < |records|
  {
    if i == 0 then records[0] else Difference(records[i - 1], records[i])
  }

  /** `deltas` lists the minified records, their properties in any order. */
  predicate Minifies(deltas: seq<Fields>, records: seq<map<string, Value>>) {
    |deltas| == |records|
    && forall i | 0 <= i < |records| :: DistinctKeys(deltas[i]) && Properties(deltas[i]) == MinifiedAt(records, i)
  }

  predicate Plain(record: map<string, Value>) {
    PROTO !in record && forall k | k in record :: record[k] != UNSET
  }

  /** An own `__proto__` can only come from a delta. */
  lemma {:induction false} ApplyProto(e: Entry, delta: Fields)
    requires PROTO !in Properties(delta) && PROTO !in e.own && e.proto.None?
    ensures PROTO !in Apply(e, delta).own && Apply(e, delta).proto.None?
  {
    if delta != [] {
      ApplyProto(e, delta[..|delta| - 1]);
    }
  }

  lemma {:induction false} ExpandMinifiedAt(deltas: seq<Fields>, records: seq<map<string, Value>>, i: nat)
    requires Minifies(deltas, records) && i < |records|
    requires forall j | 0 <= j < |records| :: Plain(records[j])
    ensures Expanded(deltas)[i] == Entry(records[i], None)
  {
    if i == 0 {
      ExpandedFirst(deltas);
    } else {
      ExpandMinifiedAt(deltas, records, i - 1);
      ExpandedStep(deltas, i);
      var e := Entry(records[i - 1], None);
      var r := Apply(e, deltas[i]);
      ApplyProto(e, deltas[i]);
      forall k ensures Own(r, k) == if k in records[i] then Some(records[i][k]) else None {
        if k != PROTO { ApplyOwn(e, deltas[i], k); }
      }
      assert forall k :: k in r.own <==> Own(r, k).Some?;
      assert r.own.Keys == records[i].Keys;
      assert r.own == records[i];
    }
  }

  /** Expansion undoes minification. */
  lemma ExpandUndoesMinify(deltas: seq<Fields>, records: seq<map<string, Value>>)
    requires Minifies(deltas, records) && forall j | 0 <= j < |records| :: Plain(records[j])
    ensures Expanded(deltas) == seq(|records|, i requires 0 <= i < |records| => Entry(records[i], None))
  {
    forall i | 0 <= i < |records| ensures Expanded(deltas)[i] == Entry(records[i], None) {
      ExpandMinifiedAt(deltas, records, i);
    }
  }
}
