/** Runs of a state machine whose next state, if there is one, a function gives. */
module Runs {
  import opened Common

  /** The state a run leads to from s; None when some step of it was not enabled. */
  function Exec<S, A>(next: (S, A) -> Option<S>, s: S, run: seq<A>): Option<S>
    decreases |run|
  {
    if run == [] then Some(s)
    else
      match next(s, run[0])
      case None => None
      case Some(t) => Exec(next, t, run[1..])
  }

  lemma {:induction false} Then<S, A>(next: (S, A) -> Option<S>, s: S, first: seq<A>, more: seq<A>)
    requires Exec(next, s, first).Some?
    ensures Exec(next, s, first + more) == Exec(next, Exec(next, s, first).value, more)
    decreases |first|
  {
    if first == [] {
      assert first + more == more;
    } else {
      assert (first + more)[1..] == first[1..] + more;
      Then(next, next(s, first[0]).value, first[1..], more);
    }
  }

  lemma Once<S, A>(next: (S, A) -> Option<S>, s: S, a: A)
    ensures Exec(next, s, [a]) == next(s, a)
  {
    assert [a][1..] == [];
  }

  lemma Twice<S, A>(next: (S, A) -> Option<S>, s: S, a: A, b: A)
    requires next(s, a).Some?
    ensures Exec(next, s, [a, b]) == next(next(s, a).value, b)
  {
    assert [a, b][1..] == [b];
    Once(next, next(s, a).value, b);
  }

  lemma Thrice<S, A>(next: (S, A) -> Option<S>, s: S, a: A, b: A, c: A)
    requires next(s, a).Some? && next(next(s, a).value, b).Some?
    ensures Exec(next, s, [a, b, c]) == next(next(next(s, a).value, b).value, c)
  {
    assert [a, b, c][1..] == [b, c];
    Twice(next, next(s, a).value, b, c);
  }
}
