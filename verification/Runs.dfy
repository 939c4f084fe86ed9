/** Runs of a transition system, whose steps are given as a relation: `next(s, a, t)` says that
    action `a` takes state `s` to state `t`. */
module Runs {

  // The actions listed take `s` to `t`.
  ghost predicate Leads<S(!new), A(!new)>(next: (S, A, S) -> bool, s: S, actions: seq<A>, t: S)
    decreases |actions|
  {
    if actions == [] then t == s
    else exists u :: next(s, actions[0], u) && Leads(next, u, actions[1..], t)
  }

  // Some run takes `s` to `t`.
  ghost predicate Reaches<S(!new), A(!new)>(next: (S, A, S) -> bool, s: S, t: S) {
    exists actions :: Leads(next, s, actions, t)
  }

  ghost predicate Keeps<S(!new), A(!new)>(next: (S, A, S) -> bool, inv: S -> bool) {
    forall s, a, t :: inv(s) && next(s, a, t) ==> inv(t)
  }

  // What every step keeps, every run keeps.
  lemma {:induction false} LeadsKeeps<S(!new), A(!new)>(next: (S, A, S) -> bool, inv: S -> bool,
                                                        s: S, actions: seq<A>, t: S)
    requires Keeps(next, inv) && inv(s) && Leads(next, s, actions, t)
    ensures inv(t)
    decreases |actions|
  {
    if actions != [] {
      var u :| next(s, actions[0], u) && Leads(next, u, actions[1..], t);
      LeadsKeeps(next, inv, u, actions[1..], t);
    }
  }

  lemma ReachesKeeps<S(!new), A(!new)>(next: (S, A, S) -> bool, inv: S -> bool, s: S, t: S)
    requires Keeps(next, inv) && inv(s) && Reaches(next, s, t)
    ensures inv(t)
  {
    var actions :| Leads(next, s, actions, t);
    LeadsKeeps(next, inv, s, actions, t);
  }

  lemma ReachesItself<S(!new), A(!new)>(next: (S, A, S) -> bool, s: S)
    ensures Reaches(next, s, s)
  {
    assert Leads(next, s, [], s);
  }

  // Runs one after the other.
  lemma {:induction false} LeadsOn<S(!new), A(!new)>(next: (S, A, S) -> bool, s: S, first: seq<A>, t: S,
                                                     second: seq<A>, u: S)
    requires Leads(next, s, first, t) && Leads(next, t, second, u)
    ensures Leads(next, s, first + second, u)
    decreases |first|
  {
    if first == [] {
      assert first + second == second;
    } else {
      var v :| next(s, first[0], v) && Leads(next, v, first[1..], t);
      LeadsOn(next, v, first[1..], t, second, u);
      assert (first + second)[1..] == first[1..] + second;
    }
  }

  lemma ReachesOn<S(!new), A(!new)>(next: (S, A, S) -> bool, s: S, t: S, u: S)
    requires Reaches(next, s, t) && Reaches(next, t, u)
    ensures Reaches(next, s, u)
  {
    var first :| Leads(next, s, first, t);
    var second :| Leads(next, t, second, u);
    LeadsOn(next, s, first, t, second, u);
  }

  lemma ReachesThen<S(!new), A(!new)>(next: (S, A, S) -> bool, s: S, t: S, a: A, u: S)
    requires Reaches(next, s, t) && next(t, a, u)
    ensures Reaches(next, s, u)
  {
    assert next(t, [a][0], u) && Leads(next, u, [a][1..], u);
    assert Leads(next, t, [a], u);
    ReachesOn(next, s, t, u);
  }
}
