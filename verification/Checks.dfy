/** Conditions in the order they are checked, each with the answer to give when it fails. */
module Checks {
  import opened Common

  /** Something that has to hold, and the answer when it does not. */
  datatype Case<R> = Case(holds: bool, refusal: R)

  /** The answer of the first that does not hold. */
  function First<R>(cases: seq<Case<R>>): Option<R> {
    if cases == [] then None else if !cases[0].holds then Some(cases[0].refusal) else First(cases[1..])
  }

  function Before<R>(a: Option<R>, b: Option<R>): Option<R> { if a.Some? then a else b }

  lemma FirstTwo<R>(a: Case<R>, b: Case<R>)
    ensures First([a, b]) == if !a.holds then Some(a.refusal) else if !b.holds then Some(b.refusal) else None
  {
    assert [a, b][1..] == [b] && [b][1..] == [];
    assert First([b]) == if !b.holds then Some(b.refusal) else First([]);
  }

  lemma FirstMore<R>(a: Case<R>, rest: seq<Case<R>>)
    ensures First([a] + rest) == if !a.holds then Some(a.refusal) else First(rest)
  {
    assert ([a] + rest)[1..] == rest;
  }

  lemma FirstNine<R>(a: Case<R>, b: Case<R>, c: Case<R>, d: Case<R>, e: Case<R>, f: Case<R>, g: Case<R>, h: Case<R>, i: Case<R>)
    ensures First([a, b, c, d, e, f, g, h, i]) ==
            if !a.holds then Some(a.refusal) else if !b.holds then Some(b.refusal)
            else if !c.holds then Some(c.refusal) else if !d.holds then Some(d.refusal)
            else if !e.holds then Some(e.refusal) else if !f.holds then Some(f.refusal)
            else if !g.holds then Some(g.refusal) else if !h.holds then Some(h.refusal)
            else if !i.holds then Some(i.refusal) else None
  {
    FirstTwo(h, i);
    FirstMore(g, [h, i]);
    FirstMore(f, [g, h, i]);
    FirstMore(e, [f, g, h, i]);
    FirstMore(d, [e, f, g, h, i]);
    FirstMore(c, [d, e, f, g, h, i]);
    FirstMore(b, [c, d, e, f, g, h, i]);
    FirstMore(a, [b, c, d, e, f, g, h, i]);
    assert [g] + [h, i] == [g, h, i] && [f] + [g, h, i] == [f, g, h, i];
    assert [e] + [f, g, h, i] == [e, f, g, h, i] && [d] + [e, f, g, h, i] == [d, e, f, g, h, i];
    assert [c] + [d, e, f, g, h, i] == [c, d, e, f, g, h, i];
    assert [b] + [c, d, e, f, g, h, i] == [b, c, d, e, f, g, h, i];
    assert [a] + [b, c, d, e, f, g, h, i] == [a, b, c, d, e, f, g, h, i];
  }

  lemma FirstSix<R>(a: Case<R>, b: Case<R>, c: Case<R>, d: Case<R>, e: Case<R>, f: Case<R>)
    ensures First([a, b, c, d, e, f]) ==
            if !a.holds then Some(a.refusal) else if !b.holds then Some(b.refusal)
            else if !c.holds then Some(c.refusal) else if !d.holds then Some(d.refusal)
            else if !e.holds then Some(e.refusal) else if !f.holds then Some(f.refusal) else None
  {
    FirstTwo(e, f);
    FirstMore(d, [e, f]);
    FirstMore(c, [d, e, f]);
    FirstMore(b, [c, d, e, f]);
    FirstMore(a, [b, c, d, e, f]);
    assert [d] + [e, f] == [d, e, f] && [c] + [d, e, f] == [c, d, e, f];
    assert [b] + [c, d, e, f] == [b, c, d, e, f] && [a] + [b, c, d, e, f] == [a, b, c, d, e, f];
  }
}
