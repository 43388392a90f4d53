/** Reaping children from a SIGCHLD handler (26-process-watch/multi_SIGCHLD.c).

    SIGCHLD is a single pending bit: signals sent while it is already pending
    are lost (section 2.4.1 of POSIX.1-2017 System Interfaces).  It is blocked
    everywhere except inside sigsuspend(), and in particular while the handler
    runs.  It is raised here only by children that exit. */
module SigChild {
  import opened Counting
  import opened Runs

  datatype Child = Unborn | Running | Zombie | Reaped

  /** Reaping is the handler's waitpid() loop, Returning the rest of the
      handler, AtCount the increment of sigCnt after sigsuspend() returns. */
  datatype MainPc = Forking | AtTest | Suspended | Reaping | Returning | AtCount | Exited

  datatype State = State(
    forked: nat,
    children: seq<Child>,
    pending: bool,
    numLiveChildren: int,
    sigCnt: nat,
    main: MainPc)

  datatype Action = Exit(i: nat) | Reap(i: nat) | Main

  predicate NoZombie(s: State) {
    forall i :: 0 <= i < |s.children| ==> !s.children[i].Zombie?
  }

  predicate Enabled(s: State, a: Action) {
    match a
    case Exit(i) => !s.main.Exited? && i < |s.children| && s.children[i].Running?
    // waitpid(-1, &status, WNOHANG) returns any one of the dead children
    case Reap(i) => s.main.Reaping? && i < |s.children| && s.children[i].Zombie?
    case Main =>
      match s.main
      case Suspended => s.pending
      case Reaping => NoZombie(s)
      case Exited => false
      case _ => true
  }

  function MainNext(s: State): State {
    match s.main
    case Forking =>
      if s.forked < |s.children| then s.(forked := s.forked + 1, children := s.children[s.forked := Running])
      else s.(main := AtTest)
    case AtTest => s.(main := if s.numLiveChildren > 0 then Suspended else Exited)
    case Suspended => s.(pending := false, main := Reaping)
    case Reaping => s.(main := Returning)
    case Returning => s.(main := AtCount)
    case AtCount => s.(sigCnt := s.sigCnt + 1, main := AtTest)
    case Exited => s
  }

  function Next(s: State, a: Action): State {
    match a
    case Exit(i) => if i < |s.children| then s.(children := s.children[i := Zombie], pending := true) else s
    case Reap(i) =>
      if i < |s.children| then s.(children := s.children[i := Reaped], numLiveChildren := s.numLiveChildren - 1) else s
    case Main => MainNext(s)
  }

  const Program: Machine<State, Action> := Machine(Enabled, Next)

  function Initial(n: nat): State {
    State(0, seq(n, _ => Unborn), false, n, 0, Forking)
  }

  ghost predicate Reachable(s: State) {
    Reaches(Program, Initial(|s.children|), s)
  }

  // ---------- the invariant ----------

  function IsReaped(c: Child): int { if c.Reaped? then 1 else 0 }

  function IsDead(c: Child): int { if c.Zombie? || c.Reaped? then 1 else 0 }

  predicate InHandler(pc: MainPc) {
    pc.Reaping? || pc.Returning? || pc.AtCount?
  }

  predicate Inv(s: State) {
    && s.forked <= |s.children|
    && (forall i :: 0 <= i < |s.children| ==> (s.children[i].Unborn? <==> i >= s.forked))
    && (!s.main.Forking? ==> s.forked == |s.children|)
    && s.numLiveChildren == |s.children| - Sum(IsReaped, s.children)
    && (s.main.Suspended? ==> s.numLiveChildren > 0)
    && (s.main.Exited? ==> s.numLiveChildren <= 0)
    // no dead child is stranded
    && (NoZombie(s) || s.pending || s.main.Reaping?)
    // every return from sigsuspend() consumes a bit some death has set
    && s.sigCnt + (if s.pending then 1 else 0) + (if InHandler(s.main) then 1 else 0) <= Sum(IsDead, s.children)
    && (s.sigCnt == 0 ==> s.numLiveChildren == |s.children| || InHandler(s.main))
  }

  lemma MainStep(s: State)
    requires Inv(s) && Enabled(s, Main)
    ensures Inv(MainNext(s))
  {
    if s.main.Forking? && s.forked < |s.children| {
      SumUpdate(IsReaped, s.children, s.forked, Running);
      SumUpdate(IsDead, s.children, s.forked, Running);
      assert NoZombie(s) ==> NoZombie(MainNext(s));
    }
  }

  lemma InvStep(s: State, a: Action)
    requires Inv(s) && Enabled(s, a)
    ensures Inv(Next(s, a))
  {
    match a
    case Exit(i) =>
      SumUpdate(IsReaped, s.children, i, Zombie);
      SumUpdate(IsDead, s.children, i, Zombie);
    case Reap(i) =>
      SumUpdate(IsReaped, s.children, i, Reaped);
      SumUpdate(IsDead, s.children, i, Reaped);
    case Main => MainStep(s);
  }

  lemma InvInitially(n: nat)
    ensures Inv(Initial(n))
  {
    SumConstant(IsReaped, Initial(n).children, 0);
    SumConstant(IsDead, Initial(n).children, 0);
  }

  lemma InvFrom(n: nat, s: State)
    requires Reaches(Program, Initial(n), s)
    ensures Inv(s) && |s.children| == n
  {
    InvInitially(n);
    var inv := (t: State) => Inv(t) && |t.children| == n;
    forall t, a | inv(t) && Program.enabled(t, a) ensures inv(Program.next(t, a)) {
      InvStep(t, a);
    }
    AlwaysReached(Program, inv, Initial(n), s);
  }

  // ---------- what the program promises ----------

  /** Although signals are not queued, every dead child that has not been
      waited for is announced by a pending signal or about to be reaped. */
  lemma NoStrandedZombie(s: State, i: nat)
    requires Reachable(s) && i < |s.children| && s.children[i].Zombie?
    ensures s.pending || s.main.Reaping?
  {
    InvFrom(|s.children|, s);
  }

  lemma LiveCount(s: State)
    requires Reachable(s)
    ensures s.numLiveChildren == |s.children| - Sum(IsReaped, s.children)
    ensures 0 <= s.numLiveChildren <= |s.children|
  {
    InvFrom(|s.children|, s);
    SumConstant((c: Child) => 1, s.children, 1);
    SumMonotone(IsReaped, s.children, (c: Child) => 1, s.children);
    SumNonNegative(IsReaped, s.children);
  }

  /** A parent suspended with no signal pending is waiting for a child that
      is still running. */
  lemma SuspendedMeansRunning(s: State) returns (i: nat)
    requires Reachable(s) && s.main.Suspended? && !s.pending
    ensures i < |s.children| && s.children[i].Running?
  {
    InvFrom(|s.children|, s);
    SumConstant((c: Child) => 1, s.children, 1);
    i := SumSmaller(IsReaped, s.children, (c: Child) => 1, s.children);
  }

  lemma ExitsWhenAllReaped(s: State)
    requires Reachable(s) && s.main.Exited?
    ensures forall i :: 0 <= i < |s.children| ==> s.children[i].Reaped?
  {
    InvFrom(|s.children|, s);
    SumConstant((c: Child) => 1, s.children, 1);
    if i: nat :| i < |s.children| && !s.children[i].Reaped? {
      SumUpdate(IsReaped, s.children, i, Reaped);
      SumMonotone(IsReaped, s.children[i := Reaped], (c: Child) => 1, s.children);
      assert false;
    }
  }

  /** sigCnt never exceeds the number of children, and cannot still be zero
      at the end: also when some handler invocation reaps nothing. */
  lemma SigCntBounds(s: State)
    requires Reachable(s)
    ensures s.sigCnt <= |s.children|
    ensures s.main.Exited? && |s.children| >= 1 ==> 1 <= s.sigCnt
  {
    InvFrom(|s.children|, s);
    SumConstant((c: Child) => 1, s.children, 1);
    SumMonotone(IsDead, s.children, (c: Child) => 1, s.children);
    SumNonNegative(IsReaped, s.children);
  }

  lemma NoDeadlock(s: State)
    requires Reachable(s)
    ensures Stuck(Program, s) <==> s.main.Exited?
  {
    if s.main.Exited? {
      assert forall a :: !Enabled(s, a);
    } else if s.main.Suspended? && !s.pending {
      var i := SuspendedMeansRunning(s);
      assert Enabled(s, Exit(i));
    } else if s.main.Reaping? && !NoZombie(s) {
      var i: nat :| i < |s.children| && s.children[i].Zombie?;
      assert Enabled(s, Reap(i));
    } else {
      assert Enabled(s, Main);
    }
  }

  // ---------- every run comes to an end ----------

  function ChildWeight(c: Child): int {
    match c
    case Unborn => 9
    case Running => 8
    case Zombie => 1
    case Reaped => 0
  }

  function Rank(s: State): int {
    (if s.pending then 6 else 0) +
    match s.main
    case Forking => 3
    case AtTest => 2
    case Suspended => 1
    case Reaping => 6
    case Returning => 5
    case AtCount => 4
    case Exited => 0
  }

  function Measure(s: State): int {
    Sum(ChildWeight, s.children) + Rank(s)
  }

  lemma MeasureStep(s: State, a: Action)
    requires Inv(s) && Enabled(s, a)
    ensures Measure(Next(s, a)) < Measure(s)
  {
    match a {
      case Exit(i) => SumUpdate(ChildWeight, s.children, i, Zombie);
      case Reap(i) => SumUpdate(ChildWeight, s.children, i, Reaped);
      case Main =>
        if s.main.Forking? && s.forked < |s.children| {
          SumUpdate(ChildWeight, s.children, s.forked, Running);
        }
    }
  }

  /** Every run ends. */
  lemma RunsEnd(n: nat, run: seq<Action>)
    requires Feasible(Program, Initial(n), run)
    ensures |run| <= 9 * n + 3
  {
    InvInitially(n);
    forall t, a | Inv(t) && Program.enabled(t, a)
      ensures Inv(Program.next(t, a)) && Measure(Program.next(t, a)) < Measure(t)
    {
      InvStep(t, a);
      MeasureStep(t, a);
    }
    Terminates(Program, Inv, Measure, Initial(n), run);
    SumNonNegative(ChildWeight, After(Program, Initial(n), run).children);
    SumConstant(ChildWeight, Initial(n).children, 9);
  }

  /** A run that is not cut short ends with the program's exit, all children
      reaped and a count of 1 to n printed. */
  lemma CompleteRuns(n: nat, run: seq<Action>)
    requires Feasible(Program, Initial(n), run) && Stuck(Program, After(Program, Initial(n), run))
    ensures var s := After(Program, Initial(n), run);
            && s.main.Exited? && |s.children| == n
            && (forall i :: 0 <= i < n ==> s.children[i].Reaped?)
            && (if n == 0 then s.sigCnt == 0 else 1 <= s.sigCnt <= n)
  {
    var s := After(Program, Initial(n), run);
    InvFrom(n, s);
    NoDeadlock(s);
    ExitsWhenAllReaped(s);
    SigCntBounds(s);
  }

  // ---------- what is counted ----------

  /** How often a run wakes the parent from sigsuspend(). */
  ghost function Wakeups(s: State, run: seq<Action>): nat
    decreases |run|
  {
    if run == [] then 0
    else (if s.main.Suspended? && run[0].Main? then 1 else 0) + Wakeups(Next(s, run[0]), run[1..])
  }

  /** sigCnt counts them all, except that of a handler still running. */
  lemma {:induction false} CountsWakeups(s: State, run: seq<Action>)
    requires Feasible(Program, s, run)
    ensures var t := After(Program, s, run);
            t.sigCnt + (if InHandler(t.main) then 1 else 0)
            == s.sigCnt + (if InHandler(s.main) then 1 else 0) + Wakeups(s, run)
    decreases |run|
  {
    if run != [] {
      CountsWakeups(Next(s, run[0]), run[1..]);
    }
  }

  /** So what the program prints is how often the run has woken it. */
  lemma PrintsWakeups(n: nat, run: seq<Action>)
    requires Feasible(Program, Initial(n), run)
    ensures var t := After(Program, Initial(n), run);
            t.sigCnt == Wakeups(Initial(n), run) - (if InHandler(t.main) then 1 else 0)
  {
    CountsWakeups(Initial(n), run);
  }

  // ---------- exactly which counts can be printed ----------

  /** n children, of which the first reaped have been waited for and the next
      ones up to dead are zombies. */
  function Stage(n: nat, reaped: nat, dead: nat, pending: bool, cnt: nat, main: MainPc): State
    requires reaped <= dead <= n
  {
    State(n, seq(n, i => if i < reaped then Reaped else if i < dead then Zombie else Running),
          pending, n - reaped, cnt, main)
  }

  lemma {:induction false} ForkAll(n: nat, forked: nat)
    requires forked <= n
    requires Reaches(Program, Initial(n),
                     Initial(n).(forked := forked, children := seq(n, i => if i < forked then Running else Unborn)))
    ensures Reaches(Program, Initial(n), Stage(n, 0, 0, false, 0, AtTest))
    decreases n - forked
  {
    var s := Initial(n).(forked := forked, children := seq(n, i => if i < forked then Running else Unborn));
    ReachesStep(Program, Initial(n), s, Main);
    if forked == n {
      assert MainNext(s) == Stage(n, 0, 0, false, 0, AtTest);
    } else {
      assert MainNext(s).children == seq(n, i => if i < forked + 1 then Running else Unborn);
      ForkAll(n, forked + 1);
    }
  }

  /** Children die in order while the parent is suspended. */
  lemma {:induction false} Die(start: State, n: nat, reaped: nat, dead: nat, upTo: nat, pending: bool, cnt: nat)
    requires reaped <= dead <= upTo <= n && (dead > reaped ==> pending)
    requires Reaches(Program, start, Stage(n, reaped, dead, pending, cnt, Suspended))
    ensures Reaches(Program, start, Stage(n, reaped, upTo, pending || dead < upTo, cnt, Suspended))
    decreases upTo - dead
  {
    if dead < upTo {
      var s := Stage(n, reaped, dead, pending, cnt, Suspended);
      ReachesStep(Program, start, s, Exit(dead));
      assert Next(s, Exit(dead)) == Stage(n, reaped, dead + 1, true, cnt, Suspended);
      Die(start, n, reaped, dead + 1, upTo, true, cnt);
    }
  }

  /** One handler invocation reaps them all. */
  lemma {:induction false} ReapAll(start: State, n: nat, reaped: nat, dead: nat, cnt: nat)
    requires reaped <= dead <= n
    requires Reaches(Program, start, Stage(n, reaped, dead, false, cnt, Reaping))
    ensures Reaches(Program, start, Stage(n, dead, dead, false, cnt, Reaping))
    decreases dead - reaped
  {
    if reaped < dead {
      var s := Stage(n, reaped, dead, false, cnt, Reaping);
      ReachesStep(Program, start, s, Reap(reaped));
      assert Next(s, Reap(reaped)) == Stage(n, reaped + 1, dead, false, cnt, Reaping);
      ReapAll(start, n, reaped + 1, dead, cnt);
    }
  }

  /** One trip round the main loop in which the given children die. */
  lemma Round(start: State, n: nat, reaped: nat, upTo: nat, cnt: nat)
    requires reaped < upTo <= n
    requires Reaches(Program, start, Stage(n, reaped, reaped, false, cnt, AtTest))
    ensures Reaches(Program, start, Stage(n, upTo, upTo, false, cnt + 1, AtTest))
  {
    ReachesStep(Program, start, Stage(n, reaped, reaped, false, cnt, AtTest), Main);
    Die(start, n, reaped, reaped, upTo, false, cnt);
    ReachesStep(Program, start, Stage(n, reaped, upTo, true, cnt, Suspended), Main);
    ReapAll(start, n, reaped, upTo, cnt);
    ReachesStep(Program, start, Stage(n, upTo, upTo, false, cnt, Reaping), Main);
    ReachesStep(Program, start, Stage(n, upTo, upTo, false, cnt, Returning), Main);
    ReachesStep(Program, start, Stage(n, upTo, upTo, false, cnt, AtCount), Main);
  }

  /** The remaining children die one at a time. */
  lemma {:induction false} OneByOne(start: State, n: nat, reaped: nat, cnt: nat)
    requires reaped <= n
    requires Reaches(Program, start, Stage(n, reaped, reaped, false, cnt, AtTest))
    ensures Reaches(Program, start, Stage(n, n, n, false, cnt + n - reaped, AtTest))
    decreases n - reaped
  {
    if reaped < n {
      Round(start, n, reaped, reaped + 1, cnt);
      OneByOne(start, n, reaped + 1, cnt + 1);
    }
  }

  ghost predicate CanPrint(n: nat, cnt: nat) {
    exists s :: Reaches(Program, Initial(n), s) && s.main.Exited? && |s.children| == n && s.sigCnt == cnt
  }

  /** The counts that some schedule of n children can print are exactly those
      from 1 to n. */
  lemma PrintedCountsExact(n: nat, cnt: nat)
    requires n >= 1
    ensures CanPrint(n, cnt) <==> 1 <= cnt <= n
  {
    if CanPrint(n, cnt) {
      var s :| Reaches(Program, Initial(n), s) && s.main.Exited? && |s.children| == n && s.sigCnt == cnt;
      SigCntBounds(s);
    }
    if 1 <= cnt <= n {
      ReachesSelf(Program, Initial(n));
      assert Initial(n) == Initial(n).(forked := 0, children := seq(n, i => if i < 0 then Running else Unborn));
      ForkAll(n, 0);
      Round(Initial(n), n, 0, n - cnt + 1, 0);
      OneByOne(Initial(n), n, n - cnt + 1, 1);
      ReachesStep(Program, Initial(n), Stage(n, n, n, false, cnt, AtTest), Main);
    }
  }

  // ---------- the handler itself ----------

  /** The parent process as its handler and the kernel see it. */
  class Parent {
    var children: seq<Child>
    var pending: bool
    var numLiveChildren: int

    constructor (n: nat)
      ensures children == seq(n, _ => Unborn) && !pending && numLiveChildren == n
    {
      children := seq(n, _ => Unborn);
      pending := false;
      numLiveChildren := n;
    }

    ghost function Abs(s: State): State
      reads this
    {
      s.(children := children, pending := pending, numLiveChildren := numLiveChildren)
    }

    /** The children named in exits die, if they run. */
    method Die(exits: seq<nat>, ghost s: State) returns (ghost t: State)
      requires s == Abs(s) && s.main.Reaping?
      modifies this`children, this`pending
      ensures Reaches(Program, s, t) && t == Abs(t)
      ensures t.main == s.main && t.forked == s.forked && t.sigCnt == s.sigCnt
      ensures |children| == |old(children)|
      ensures Sum(ChildWeight, children) <= Sum(ChildWeight, old(children))
    {
      t := s;
      ReachesSelf(Program, s);
      for k := 0 to |exits|
        invariant Reaches(Program, s, t) && t == Abs(t)
        invariant t.main == s.main && t.forked == s.forked && t.sigCnt == s.sigCnt
        invariant |children| == |old(children)|
        invariant Sum(ChildWeight, children) <= Sum(ChildWeight, old(children))
      {
        var i := exits[k];
        if i < |children| && children[i].Running? {
          SumUpdate(ChildWeight, children, i, Zombie);
          ReachesStep(Program, s, t, Exit(i));
          t := Next(t, Exit(i));
          children := children[i := Zombie];
          pending := true;
        }
      }
    }

    /** The first dead child, if there is one; and whether one before it runs. */
    method FindDead() returns (j: nat, alive: bool)
      ensures j <= |children| && (j < |children| ==> children[j].Zombie?)
      ensures forall i :: 0 <= i < j ==> !children[i].Zombie?
      ensures alive <==> exists i :: 0 <= i < j && children[i].Running?
    {
      j, alive := 0, false;
      while j < |children| && !children[j].Zombie?
        invariant 0 <= j <= |children|
        invariant forall i :: 0 <= i < j ==> !children[i].Zombie?
        invariant alive <==> exists i :: 0 <= i < j && children[i].Running?
      {
        alive := alive || children[j].Running?;
        j := j + 1;
      }
    }

    /** Before the call takes effect the children named in exits may die; then
        the status of one dead child is collected.  The result is its process
        number (one more than its position), 0 if the children that are left
        are all running, -1 if there are none left. */
    method WaitPid(exits: seq<nat>, ghost s: State) returns (pid: int, ghost t: State)
      requires s == Abs(s) && s.main.Reaping?
      modifies this`children, this`pending
      ensures Reaches(Program, s, t) && t.main == s.main && t.forked == s.forked && t.sigCnt == s.sigCnt
      ensures pid > 0 ==> t == Abs(t).(numLiveChildren := numLiveChildren - 1)
      ensures pid <= 0 ==> t == Abs(t) && NoZombie(t)
      ensures pid >= -1 && (pid > 0 ==> pid <= |children| && children[pid - 1].Reaped?)
      ensures pid == -1 ==> forall i :: 0 <= i < |children| ==> !children[i].Running?
      ensures pid == 0 ==> exists i :: 0 <= i < |children| && children[i].Running?
      ensures |children| == |old(children)|
      ensures Sum(ChildWeight, children) <= Sum(ChildWeight, old(children)) - (if pid > 0 then 1 else 0)
    {
      t := Die(exits, s);
      var j, alive := FindDead();
      if j < |children| {
        SumUpdate(ChildWeight, children, j, Reaped);
        ReachesStep(Program, s, t, Reap(j));
        t := Next(t, Reap(j));
        children := children[j := Reaped];
        assert children[j].Reaped?;
        pid := j + 1;
      } else {
        pid := if alive then 0 else -1;
      }
    }

    /** The handler, with any deaths of children in between its calls (no
        more after the given ones): however they fall, the machine gets from
        the start of the reaping loop to its end, where no dead child is left. */
    method SigchldHandler(exits: seq<seq<nat>>, ghost s: State) returns (ghost t: State)
      requires s == Abs(s) && s.main.Reaping?
      modifies this
      ensures Reaches(Program, s, t) && t == Abs(t) && t.main.Returning?
      ensures NoZombie(t)
      ensures t.forked == s.forked && t.sigCnt == s.sigCnt && |t.children| == |s.children|
    {
      ReachesSelf(Program, s);
      var calls := 0;
      var childPid;
      childPid, t := WaitPid(if calls < |exits| then exits[calls] else [], s);
      while childPid > 0
        invariant Reaches(Program, s, t) && t.main.Reaping?
        invariant t.forked == s.forked && t.sigCnt == s.sigCnt && |t.children| == |s.children|
        invariant childPid > 0 ==> t == Abs(t).(numLiveChildren := numLiveChildren - 1)
        invariant childPid <= 0 ==> t == Abs(t) && NoZombie(t)
        decreases Sum(ChildWeight, children) + if childPid > 0 then 1 else 0
      {
        SumNonNegative(ChildWeight, children);
        numLiveChildren := numLiveChildren - 1;
        calls := calls + 1;
        ghost var u;
        childPid, u := WaitPid(if calls < |exits| then exits[calls] else [], t);
        ReachesTransitive(Program, s, t, u);
        t := u;
      }
      ReachesStep(Program, s, t, Main);
      t := MainNext(t);
    }
  }
}
