/** Sequences as text: splitting, joining, adjacent pairs and trailing runs. */
module Text {
  /** `s.split(sep)` for a one-character separator. */
  function Split<T(==)>(s: seq<T>, sep: T): (parts: seq<seq<T>>)
    ensures |parts| >= 1
  {
    if s == [] then [[]]
    else
      var rest := Split(s[1..], sep);
      if s[0] == sep then [[]] + rest else [[s[0]] + rest[0]] + rest[1..]
  }

  /** `parts.join(sep)` */
  function Join<T>(parts: seq<seq<T>>, sep: seq<T>): seq<T> {
    if parts == [] then []
    else if |parts| == 1 then parts[0]
    else parts[0] + sep + Join(parts[1..], sep)
  }

  lemma JoinCons<T>(head: seq<T>, tail: seq<seq<T>>, sep: seq<T>)
    requires tail != []
    ensures Join([head] + tail, sep) == head + sep + Join(tail, sep)
  {
    assert ([head] + tail)[1..] == tail;
  }

  lemma SplitStep<T>(c: T, t: seq<T>, sep: T)
    ensures Split([c] + t, sep) ==
            if c == sep then [[]] + Split(t, sep) else [[c] + Split(t, sep)[0]] + Split(t, sep)[1..]
  {
    assert ([c] + t)[1..] == t;
  }

  lemma PrependConcat<T>(c: T, ra: seq<seq<T>>, rb: seq<seq<T>>)
    requires ra != []
    ensures [[c] + (ra + rb)[0]] + (ra + rb)[1..] == ([[c] + ra[0]] + ra[1..]) + rb
  {
  }

  lemma SplitStepConcat<T>(c: T, t: seq<T>, sep: T, rb: seq<seq<T>>)
    ensures Split([c] + t, sep) + rb ==
            if c == sep then [[]] + (Split(t, sep) + rb)
            else [[c] + (Split(t, sep) + rb)[0]] + (Split(t, sep) + rb)[1..]
  {
    SplitStep(c, t, sep);
    if c == sep {
      assert [[]] + Split(t, sep) + rb == [[]] + (Split(t, sep) + rb);
    } else {
      PrependConcat(c, Split(t, sep), rb);
    }
  }

  /** A separator between two texts separates their parts. */
  lemma {:induction false} SplitConcat<T>(a: seq<T>, sep: T, b: seq<T>)
    ensures Split(a + [sep] + b, sep) == Split(a, sep) + Split(b, sep)
  {
    if a == [] {
      assert a + [sep] + b == [sep] + b;
      SplitStep(sep, b, sep);
    } else {
      var c, t := a[0], a[1..];
      assert a == [c] + t;
      assert a + [sep] + b == [c] + (t + [sep] + b);
      SplitStep(c, t + [sep] + b, sep);
      SplitConcat(t, sep, b);
      SplitStepConcat(c, t, sep, Split(b, sep));
    }
  }

  lemma {:induction false} SplitAtom<T>(a: seq<T>, sep: T)
    requires sep !in a
    ensures Split(a, sep) == [a]
  {
    if a != [] {
      SplitAtom(a[1..], sep);
      assert [a[0]] + a[1..] == a;
    }
  }

  lemma SplitHead<T>(head: seq<T>, sep: T, rest: seq<T>)
    requires sep !in head
    ensures Split(head + [sep] + rest, sep) == [head] + Split(rest, sep)
  {
    SplitConcat(head, sep, rest);
    SplitAtom(head, sep);
  }

  /** Joining separator-free parts and splitting again gives the parts back. */
  lemma {:induction false} SplitJoin<T>(parts: seq<seq<T>>, sep: T)
    requires parts != [] && forall p | p in parts :: sep !in p
    ensures Split(Join(parts, [sep]), sep) == parts
  {
    SplitAtom(parts[0], sep);
    if |parts| == 1 {
      assert parts == [parts[0]];
    } else {
      SplitJoin(parts[1..], sep);
      SplitConcat(parts[0], sep, Join(parts[1..], [sep]));
      assert parts == [parts[0]] + parts[1..];
    }
  }

  lemma {:induction false} SplitParts<T>(s: seq<T>, sep: T)
    ensures forall p | p in Split(s, sep) :: sep !in p
    ensures forall c | c in s :: c == sep || exists p :: p in Split(s, sep) && c in p
  {
    if s != [] {
      SplitParts(s[1..], sep);
      var rest, parts := Split(s[1..], sep), Split(s, sep);
      forall p | p in parts ensures sep !in p {
        if s[0] != sep && p == parts[0] { assert rest[0] in rest; }
      }
      forall c | c in s && c != sep ensures exists p :: p in parts && c in p {
        if c == s[0] {
          assert c in parts[0];
        } else {
          assert c in s[1..];
          var p :| p in rest && c in p;
          var i :| 0 <= i < |rest| && rest[i] == p;
          if s[0] == sep { assert parts[i + 1] == p; }
          else if i == 0 { assert c in parts[0]; }
          else { assert parts[i] == p; }
        }
      }
    }
  }

  /** Two equal characters next to each other, as in `s.includes("..")`. */
  predicate HasDouble<T(==)>(s: seq<T>, c: T) {
    exists i :: 0 <= i < |s| - 1 && s[i] == c && s[i + 1] == c
  }

  /** Where a concatenation has a double: in a part, or across the seam. */
  lemma DoubleConcat<T>(a: seq<T>, b: seq<T>, c: T)
    ensures HasDouble(a + b, c) <==>
            HasDouble(a, c) || HasDouble(b, c) || (a != [] && b != [] && a[|a| - 1] == c && b[0] == c)
  {
    var t := a + b;
    if HasDouble(a, c) {
      var i :| 0 <= i < |a| - 1 && a[i] == c && a[i + 1] == c;
      assert t[i] == c && t[i + 1] == c;
    }
    if HasDouble(b, c) {
      var i :| 0 <= i < |b| - 1 && b[i] == c && b[i + 1] == c;
      assert t[|a| + i] == c && t[|a| + i + 1] == c;
    }
    if a != [] && b != [] && a[|a| - 1] == c && b[0] == c {
      assert t[|a| - 1] == c && t[|a| - 1 + 1] == c;
    }
    if HasDouble(t, c) {
      var i :| 0 <= i < |t| - 1 && t[i] == c && t[i + 1] == c;
      if i >= |a| { assert b[i - |a|] == c && b[i - |a| + 1] == c; }
    }
  }

  lemma AbsentNoDouble<T>(s: seq<T>, c: T)
    requires c !in s
    ensures !HasDouble(s, c)
  {
  }

  /** `s.replace(/c+$/, "")` */
  function TrimEnd<T(==)>(s: seq<T>, c: T): seq<T> {
    if s != [] && s[|s| - 1] == c then TrimEnd(s[..|s| - 1], c) else s
  }

  predicate EndsWith<T(==)>(s: seq<T>, suffix: seq<T>) {
    |s| >= |suffix| && s[|s| - |suffix|..] == suffix
  }

  function Repeat<T>(c: T, n: nat): seq<T> {
    seq(n, _ => c)
  }

  /** Lower-casing of the ASCII letters. */
  function Lower(s: string): (r: string)
    ensures |r| == |s|
  {
    seq(|s|, i requires 0 <= i < |s| => if 'A' <= s[i] <= 'Z' then (s[i] as int + 32) as char else s[i])
  }

  /** Splitting and joining again gives the text back. */
  lemma {:induction false} JoinSplit<T>(s: seq<T>, sep: T)
    ensures Join(Split(s, sep), [sep]) == s
  {
    if s != [] {
      JoinSplit(s[1..], sep);
      var rest := Split(s[1..], sep);
      if s[0] == sep {
        JoinCons([], rest, [sep]);
        assert s == [] + [sep] + s[1..];
      } else {
        var head := [s[0]] + rest[0];
        assert rest == [rest[0]] + rest[1..];
        if |rest| > 1 {
          JoinCons(head, rest[1..], [sep]);
          JoinCons(rest[0], rest[1..], [sep]);
        }
        assert s == [s[0]] + s[1..];
      }
    }
  }

  /** One path segment in front of a path. */
  lemma SplitOnto(a: string, rest: string)
    requires '/' !in a
    ensures Split(a + "/" + rest, '/') == [a] + Split(rest, '/')
  {
    SplitHead(a, '/', rest);
    assert ['/'] == "/";
  }
}
