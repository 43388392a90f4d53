/** Interleavings of atomic steps, shared by every protocol model in this project.

    A machine says which actions a state enables and which state each action
    leads to.  A run is the sequence of actions some scheduler picked, so a
    lemma about all runs is a lemma about all interleavings. */
module Runs {

  datatype Machine<!S, !A> = Machine(enabled: (S, A) -> bool, next: (S, A) -> S)

  ghost predicate Feasible<S, A>(m: Machine<S, A>, s: S, run: seq<A>) {
    run == [] || (m.enabled(s, run[0]) && Feasible(m, m.next(s, run[0]), run[1..]))
  }

  ghost function After<S, A>(m: Machine<S, A>, s: S, run: seq<A>): S {
    if run == [] then s else After(m, m.next(s, run[0]), run[1..])
  }

  ghost predicate Reaches<S, A(!new)>(m: Machine<S, A>, s: S, t: S) {
    exists run: seq<A> :: Feasible(m, s, run) && After(m, s, run) == t
  }

  /** A state from which no action is possible. */
  ghost predicate Stuck<S, A(!new)>(m: Machine<S, A>, s: S) {
    forall a: A :: !m.enabled(s, a)
  }

  lemma {:induction false} Concatenate<S, A>(m: Machine<S, A>, s: S, first: seq<A>, second: seq<A>)
    requires Feasible(m, s, first) && Feasible(m, After(m, s, first), second)
    ensures Feasible(m, s, first + second)
    ensures After(m, s, first + second) == After(m, After(m, s, first), second)
  {
    if first == [] {
      assert first + second == second;
    } else {
      Concatenate(m, m.next(s, first[0]), first[1..], second);
      assert (first + second)[1..] == first[1..] + second;
    }
  }

  lemma ReachesSelf<S, A(!new)>(m: Machine<S, A>, s: S)
    ensures Reaches(m, s, s)
  {
    assert Feasible(m, s, []) && After(m, s, []) == s;
  }

  /** Reachability is closed under one more step. */
  lemma ReachesStep<S, A(!new)>(m: Machine<S, A>, s: S, t: S, a: A)
    requires Reaches(m, s, t) && m.enabled(t, a)
    ensures Reaches(m, s, m.next(t, a))
  {
    var run: seq<A> :| Feasible(m, s, run) && After(m, s, run) == t;
    assert Feasible(m, m.next(t, a), []) && After(m, m.next(t, a), []) == m.next(t, a);
    assert [a][1..] == [];
    assert Feasible(m, t, [a]) && After(m, t, [a]) == m.next(t, a);
    Concatenate(m, s, run, [a]);
  }

  lemma ReachesTransitive<S, A(!new)>(m: Machine<S, A>, s: S, t: S, u: S)
    requires Reaches(m, s, t) && Reaches(m, t, u)
    ensures Reaches(m, s, u)
  {
    var first: seq<A> :| Feasible(m, s, first) && After(m, s, first) == t;
    var second: seq<A> :| Feasible(m, t, second) && After(m, t, second) == u;
    Concatenate(m, s, first, second);
  }

  /** What holds at the start and is kept by every step holds after every run. */
  lemma {:induction false} Always<S(!new), A(!new)>(m: Machine<S, A>, inv: S -> bool, s: S, run: seq<A>)
    requires inv(s) && Feasible(m, s, run)
    requires forall t, a :: inv(t) && m.enabled(t, a) ==> inv(m.next(t, a))
    ensures inv(After(m, s, run))
  {
    if run != [] {
      Always(m, inv, m.next(s, run[0]), run[1..]);
    }
  }

  /** The same for a state that some run reaches. */
  lemma AlwaysReached<S(!new), A(!new)>(m: Machine<S, A>, inv: S -> bool, s: S, t: S)
    requires inv(s) && Reaches(m, s, t)
    requires forall u, a :: inv(u) && m.enabled(u, a) ==> inv(m.next(u, a))
    ensures inv(t)
  {
    var run: seq<A> :| Feasible(m, s, run) && After(m, s, run) == t;
    Always(m, inv, s, run);
  }

  /** What the steps of a run emit, in order. */
  ghost function Trace<S, A, T>(m: Machine<S, A>, emit: (S, A) -> seq<T>, s: S, run: seq<A>): seq<T> {
    if run == [] then [] else emit(s, run[0]) + Trace(m, emit, m.next(s, run[0]), run[1..])
  }

  /** If every step appends what it emits to some view of the state, every run
      appends its trace. */
  lemma {:induction false} Accumulates<S(!new), A(!new), T>(
    m: Machine<S, A>, inv: S -> bool, view: S -> seq<T>, emit: (S, A) -> seq<T>, s: S, run: seq<A>)
    requires inv(s) && Feasible(m, s, run)
    requires forall t, a :: inv(t) && m.enabled(t, a) ==>
               inv(m.next(t, a)) && view(m.next(t, a)) == view(t) + emit(t, a)
    ensures view(After(m, s, run)) == view(s) + Trace(m, emit, s, run)
  {
    if run != [] {
      Accumulates(m, inv, view, emit, m.next(s, run[0]), run[1..]);
    }
  }

  /** Total cost of a run, for the actions a scheduler may repeat without limit. */
  ghost function Cost<A>(cost: A -> nat, run: seq<A>): nat {
    if run == [] then 0 else cost(run[0]) + Cost(cost, run[1..])
  }

  /** If every step lowers a natural measure by at least one, except for what
      its cost pays back, then the measure and the cost bound the length of
      every run. */
  lemma {:induction false} Bounded<S(!new), A(!new)>(
    m: Machine<S, A>, inv: S -> bool, measure: S -> int, cost: A -> nat, s: S, run: seq<A>)
    requires inv(s) && Feasible(m, s, run)
    requires forall t, a :: inv(t) && m.enabled(t, a) ==> inv(m.next(t, a))
    requires forall t, a :: inv(t) && m.enabled(t, a) ==> measure(m.next(t, a)) < measure(t) + cost(a)
    ensures |run| + measure(After(m, s, run)) <= measure(s) + Cost(cost, run)
  {
    if run != [] {
      Bounded(m, inv, measure, cost, m.next(s, run[0]), run[1..]);
    }
  }

  /** The same without any paying back: every run is shorter than the measure. */
  lemma {:induction false} Terminates<S(!new), A(!new)>(
    m: Machine<S, A>, inv: S -> bool, measure: S -> int, s: S, run: seq<A>)
    requires inv(s) && Feasible(m, s, run)
    requires forall t, a :: inv(t) && m.enabled(t, a) ==> inv(m.next(t, a))
    requires forall t, a :: inv(t) && m.enabled(t, a) ==> measure(m.next(t, a)) < measure(t)
    ensures |run| + measure(After(m, s, run)) <= measure(s)
  {
    if run != [] {
      Terminates(m, inv, measure, m.next(s, run[0]), run[1..]);
    }
  }
}
