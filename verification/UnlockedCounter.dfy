/** Two threads that increment a shared variable without a lock
    (30-thread-sync/thread_incr.c).

    The load, the increment of the local copy and the store are separate
    atomic steps; loads and stores of the single word are taken to be
    sequentially consistent. */
module UnlockedCounter {
  import opened Runs

  /** Where a thread is inside the body of its for loop. */
  datatype Pc = AtLoad | AtIncrement | AtStore

  datatype Thread = Thread(j: nat, pc: Pc, loc: int)

  datatype State = State(loops: nat, glob: int, first: Thread, second: Thread)

  datatype Who = First | Second

  function ThreadOf(s: State, who: Who): Thread {
    if who.First? then s.first else s.second
  }

  function WithThread(s: State, who: Who, t: Thread): State {
    if who.First? then s.(first := t) else s.(second := t)
  }

  function Other(who: Who): Who {
    if who.First? then Second else First
  }

  predicate Enabled(s: State, who: Who) {
    ThreadOf(s, who).j < s.loops
  }

  function Next(s: State, who: Who): State {
    var t := ThreadOf(s, who);
    match t.pc
    case AtLoad => WithThread(s, who, t.(loc := s.glob, pc := AtIncrement))
    case AtIncrement => WithThread(s, who, t.(loc := t.loc + 1, pc := AtStore))
    case AtStore => WithThread(s.(glob := t.loc), who, t.(j := t.j + 1, pc := AtLoad))
  }

  const Program: Machine<State, Who> := Machine(Enabled, Next)

  const Started := Thread(0, AtLoad, 0)

  function Initial(loops: nat): State {
    State(loops, 0, Started, Started)
  }

  predicate BothJoined(s: State) {
    s.first.j >= s.loops && s.second.j >= s.loops
  }

  /** Some schedule runs both threads to their end and leaves v in glob. */
  ghost predicate Outcome(loops: nat, v: int) {
    exists s :: Reaches(Program, Initial(loops), s) && BothJoined(s) && s.glob == v
  }

  // ---------- every schedule stays within the bounds ----------

  /** What a thread can know about the value it is about to store. */
  predicate LocalBounds(s: State, t: Thread) {
    && t.j <= s.loops
    && (t.j == s.loops ==> t.pc.AtLoad?)
    && (t.pc.AtIncrement? ==> 0 <= t.loc <= s.first.j + s.second.j)
    && (t.pc.AtStore? ==> 1 <= t.loc <= s.first.j + s.second.j + 1)
    // a thread in its last iteration has seen at least its own earlier store
    && (t.j + 1 == s.loops && s.loops >= 2 ==>
          (t.pc.AtIncrement? ==> t.loc >= 1) && (t.pc.AtStore? ==> t.loc >= 2))
  }

  predicate Bounds(s: State) {
    && 0 <= s.glob <= s.first.j + s.second.j
    && (s.first.j + s.second.j >= 1 ==> s.glob >= 1)
    && (s.loops >= 2 && BothJoined(s) ==> s.glob >= 2)
    && LocalBounds(s, s.first)
    && LocalBounds(s, s.second)
  }

  lemma BoundsStep(s: State, who: Who)
    requires Bounds(s) && Enabled(s, who)
    ensures Bounds(Next(s, who))
  {
  }

  lemma BoundsAlways(loops: nat, s: State)
    requires loops >= 1 && Reaches(Program, Initial(loops), s)
    ensures Bounds(s) && s.loops == loops
  {
    var inv := (t: State) => Bounds(t) && t.loops == loops;
    forall t, who | inv(t) && Program.enabled(t, who) ensures inv(Program.next(t, who)) {
      BoundsStep(t, who);
    }
    AlwaysReached(Program, inv, Initial(loops), s);
  }

  /** No value held in glob or in a local copy ever exceeds 2*loops, so
      nothing overflows when 2*loops fits in an int. */
  lemma NoOverflow(loops: nat, s: State)
    requires loops >= 1 && Reaches(Program, Initial(loops), s)
    ensures 0 <= s.glob <= 2 * loops
    ensures forall who :: !ThreadOf(s, who).pc.AtLoad? ==> 0 <= ThreadOf(s, who).loc <= 2 * loops
  {
    BoundsAlways(loops, s);
    forall who | !ThreadOf(s, who).pc.AtLoad? ensures 0 <= ThreadOf(s, who).loc <= 2 * loops {
      assert LocalBounds(s, ThreadOf(s, who));
      assert ThreadOf(s, who).j < loops && ThreadOf(s, Other(who)).j <= loops;
    }
  }

  // ---------- what one iteration stores ----------

  lemma {:induction false} OtherStepsLeaveThread(s: State, who: Who, run: seq<Who>)
    requires Feasible(Program, s, run) && who !in run
    ensures ThreadOf(After(Program, s, run), who) == ThreadOf(s, who)
    decreases |run|
  {
    if run != [] {
      assert run[0] in run;
      OtherStepsLeaveThread(Next(s, run[0]), who, run[1..]);
    }
  }

  /** Whatever the other thread does between a thread's load and its store: what
      is stored is one more than what was loaded. */
  lemma IterationStoresItsLoad(s: State, who: Who, before: seq<Who>, after: seq<Who>) returns (t: State)
    requires Enabled(s, who) && ThreadOf(s, who).pc.AtLoad? && who !in before && who !in after
    requires Feasible(Program, Next(s, who), before)
    requires Feasible(Program, Next(After(Program, Next(s, who), before), who), after)
    ensures t == Next(After(Program, Next(After(Program, Next(s, who), before), who), after), who)
    ensures t.glob == s.glob + 1 && ThreadOf(t, who).pc.AtLoad? && ThreadOf(t, who).j == ThreadOf(s, who).j + 1
    ensures Next(s, who).glob == s.glob
    ensures Next(After(Program, Next(s, who), before), who).glob == After(Program, Next(s, who), before).glob
  {
    OtherStepsLeaveThread(Next(s, who), who, before);
    var u := Next(After(Program, Next(s, who), before), who);
    OtherStepsLeaveThread(u, who, after);
    t := Next(After(Program, u, after), who);
  }

  // ---------- a schedule for every value within the bounds ----------

  /** k whole iterations of one thread, undisturbed. */
  function Solo(who: Who, k: nat): seq<Who> {
    if k == 0 then [] else [who, who, who] + Solo(who, k - 1)
  }

  /** The effect of undisturbed iterations: glob grows by exactly k. */
  lemma {:induction false} SoloRun(s: State, who: Who, k: nat)
    requires ThreadOf(s, who).pc.AtLoad? && ThreadOf(s, who).j + k <= s.loops
    ensures Feasible(Program, s, Solo(who, k))
    ensures var t := After(Program, s, Solo(who, k));
            && t.glob == s.glob + k && t.loops == s.loops
            && ThreadOf(t, who).j == ThreadOf(s, who).j + k && ThreadOf(t, who).pc.AtLoad?
            && ThreadOf(t, Other(who)) == ThreadOf(s, Other(who))
    decreases k
  {
    if k > 0 {
      var s1 := Next(s, who);
      var s2 := Next(s1, who);
      var s3 := Next(s2, who);
      SoloRun(s3, who, k - 1);
      var run := Solo(who, k);
      assert run[0] == run[1] == run[2] == who;
      assert run[1..][1..][1..] == Solo(who, k - 1);
      assert Feasible(Program, s2, run[1..][1..]);
      assert Feasible(Program, s1, run[1..]);
      assert After(Program, s2, run[1..][1..]) == After(Program, s3, Solo(who, k - 1));
      assert After(Program, s1, run[1..]) == After(Program, s3, Solo(who, k - 1));
    }
  }

  lemma SoloReaches(start: State, s: State, who: Who, k: nat)
    requires Reaches(Program, start, s)
    requires ThreadOf(s, who).pc.AtLoad? && ThreadOf(s, who).j + k <= s.loops
    ensures Reaches(Program, start, After(Program, s, Solo(who, k)))
  {
    SoloRun(s, who, k);
    assert Reaches(Program, s, After(Program, s, Solo(who, k)));
    ReachesTransitive(Program, start, s, After(Program, s, Solo(who, k)));
  }

  /** One thread loads, the other runs k iterations, and the first stores its
      stale value: the k increments are lost. */
  lemma LoseIterations(start: State, s: State, who: Who, k: nat) returns (t: State)
    requires Reaches(Program, start, s)
    requires ThreadOf(s, who).pc.AtLoad? && ThreadOf(s, who).j < s.loops
    requires ThreadOf(s, Other(who)).pc.AtLoad? && ThreadOf(s, Other(who)).j + k <= s.loops
    ensures Reaches(Program, start, t)
    ensures t.glob == s.glob + 1 && t.loops == s.loops
    ensures ThreadOf(t, who).j == ThreadOf(s, who).j + 1 && ThreadOf(t, who).pc.AtLoad?
    ensures ThreadOf(t, Other(who)).j == ThreadOf(s, Other(who)).j + k && ThreadOf(t, Other(who)).pc.AtLoad?
  {
    var s1 := Next(s, who);
    ReachesStep(Program, start, s, who);
    var s2 := Next(s1, who);
    ReachesStep(Program, start, s1, who);
    SoloReaches(start, s2, Other(who), k);
    SoloRun(s2, Other(who), k);
    var s3 := After(Program, s2, Solo(Other(who), k));
    t := Next(s3, who);
    ReachesStep(Program, start, s3, who);
  }

  /** The first thread loses b iterations of the second, and the second then
      loses a iterations of the first: 2*loops - a - b is an outcome. */
  lemma LoseOnBothSides(loops: nat, a: nat, b: nat)
    requires loops >= 1 && a < loops && b < loops
    ensures Outcome(loops, 2 * loops - a - b)
  {
    var s0 := Initial(loops);
    ReachesSelf(Program, s0);
    var s1 := LoseIterations(s0, s0, First, b);
    SoloReaches(s0, s1, Second, loops - b - 1);
    SoloRun(s1, Second, loops - b - 1);
    var s2 := After(Program, s1, Solo(Second, loops - b - 1));
    var s3 := LoseIterations(s0, s2, Second, a);
    SoloReaches(s0, s3, First, loops - 1 - a);
    SoloRun(s3, First, loops - 1 - a);
    var s4 := After(Program, s3, Solo(First, loops - 1 - a));
    assert BothJoined(s4) && s4.glob == 2 * loops - a - b;
  }

  lemma SingleIterationLost()
    ensures Outcome(1, 1)
  {
    var s0 := Initial(1);
    ReachesSelf(Program, s0);
    var s1 := LoseIterations(s0, s0, First, 1);
    assert BothJoined(s1) && s1.glob == 1;
  }

  /** The outcomes of the unlocked program, exactly. */
  lemma OutcomesExact(loops: nat, v: int)
    requires loops >= 1
    ensures Outcome(loops, v) <==> (if loops == 1 then v == 1 || v == 2 else 2 <= v <= 2 * loops)
  {
    if Outcome(loops, v) {
      var s :| Reaches(Program, Initial(loops), s) && BothJoined(s) && s.glob == v;
      BoundsAlways(loops, s);
    }
    if loops == 1 && v == 1 {
      SingleIterationLost();
    } else if 2 <= v <= 2 * loops {
      var lost := 2 * loops - v;
      var a := if lost < loops then lost else loops - 1;
      LoseOnBothSides(loops, a, lost - a);
    }
  }

  // ---------- every complete schedule has the same length ----------

  function Steps(t: Thread): int {
    3 * t.j + (match t.pc case AtLoad => 0 case AtIncrement => 1 case AtStore => 2)
  }

  /** Scheduling cannot starve the program: whatever the interleaving, it
      ends after exactly six steps per loop count. */
  lemma {:induction false} RunLength(s: State, run: seq<Who>)
    requires Feasible(Program, s, run)
    ensures var t := After(Program, s, run);
            |run| == Steps(t.first) + Steps(t.second) - Steps(s.first) - Steps(s.second)
    decreases |run|
  {
    if run != [] {
      RunLength(Next(s, run[0]), run[1..]);
    }
  }

  lemma CompleteRunLength(loops: nat, run: seq<Who>)
    requires loops >= 1 && Feasible(Program, Initial(loops), run)
    ensures |run| <= 6 * loops
    ensures |run| == 6 * loops <==> BothJoined(After(Program, Initial(loops), run))
  {
    RunLength(Initial(loops), run);
    var s := After(Program, Initial(loops), run);
    assert Reaches(Program, Initial(loops), s);
    BoundsAlways(loops, s);
  }

  // ---------- the loop itself ----------

  /** The process memory as one thread sees it, with the other thread. */
  class Memory {
    var glob: int
    var other: Thread
    const loops: nat

    constructor (loops: nat)
      ensures glob == 0 && other == Started && this.loops == loops
    {
      glob, other, this.loops := 0, Started, loops;
    }

    ghost function Abs(who: Who, t: Thread): State
      reads this
    {
      WithThread(WithThread(State(loops, glob, t, t), who, t), Other(who), other)
    }

    /** The other thread is scheduled for some steps, as far as it has any. */
    method Meanwhile(steps: nat, ghost who: Who, ghost t: Thread)
      modifies this
      ensures Reaches(Program, old(Abs(who, t)), Abs(who, t))
      ensures steps == 0 || old(other).j >= loops ==> glob == old(glob) && other == old(other)
    {
      ReachesSelf(Program, Abs(who, t));
      var k := 0;
      while k < steps && other.j < loops
        invariant Reaches(Program, old(Abs(who, t)), Abs(who, t))
        invariant k == 0 ==> glob == old(glob) && other == old(other)
        invariant k <= steps && (old(other).j >= loops ==> k == 0)
      {
        ReachesStep(Program, old(Abs(who, t)), Abs(who, t), Other(who));
        match other.pc {
          case AtLoad => other := other.(loc := glob, pc := AtIncrement);
          case AtIncrement => other := other.(loc := other.loc + 1, pc := AtStore);
          case AtStore =>
            glob := other.loc;
            other := other.(j := other.j + 1, pc := AtLoad);
        }
        k := k + 1;
      }
    }

    /** One iteration of the loop, with the given steps of the other thread
        before its load and before its store. */
    method Iterate(ghost who: Who, j: nat, ghost was: int, beforeLoad: nat, beforeStore: nat) returns (loc: int)
      requires j < loops
      modifies this
      ensures Reaches(Program, old(Abs(who, Thread(j, AtLoad, was))), Abs(who, Thread(j + 1, AtLoad, loc)))
      ensures beforeLoad == beforeStore == 0 ==> glob == old(glob) + 1 && other == old(other)
    {
      ghost var start := Abs(who, Thread(j, AtLoad, was));
      Meanwhile(beforeLoad, who, Thread(j, AtLoad, was));
      ReachesStep(Program, start, Abs(who, Thread(j, AtLoad, was)), who);
      loc := glob;
      ReachesStep(Program, start, Abs(who, Thread(j, AtIncrement, loc)), who);
      loc := loc + 1;
      ghost var s := Abs(who, Thread(j, AtStore, loc));
      Meanwhile(beforeStore, who, Thread(j, AtStore, loc));
      ReachesTransitive(Program, start, s, Abs(who, Thread(j, AtStore, loc)));
      ReachesStep(Program, start, Abs(who, Thread(j, AtStore, loc)), who);
      glob := loc;
    }

    /** The thread function, with any number of steps of the other thread before
        each of its loads and stores: the machine gets from this thread's start
        to its end.  Left undisturbed it adds loops to glob. */
    method ThreadFunc(ghost who: Who, meanwhile: nat -> nat)
      modifies this
      ensures exists loc :: Reaches(Program, old(Abs(who, Started)), Abs(who, Thread(loops, AtLoad, loc)))
      ensures (forall i: nat :: meanwhile(i) == 0) ==> glob == old(glob) + loops && other == old(other)
    {
      ghost var start := Abs(who, Started);
      ReachesSelf(Program, start);
      var loc, j := 0, 0;
      while j < loops
        invariant 0 <= j <= loops
        invariant Reaches(Program, start, Abs(who, Thread(j, AtLoad, loc)))
        invariant (forall i: nat :: meanwhile(i) == 0) ==> glob == old(glob) + j && other == old(other)
      {
        ghost var s := Abs(who, Thread(j, AtLoad, loc));
        loc := Iterate(who, j, loc, meanwhile(2 * j), meanwhile(2 * j + 1));
        j := j + 1;
        ReachesTransitive(Program, start, s, Abs(who, Thread(j, AtLoad, loc)));
      }
    }
  }
}
