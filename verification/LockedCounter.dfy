/** Threads that increment a shared variable under a mutex
    (30-thread-sync/thread_incr_mutex.c), a spinlock
    (30-experimental/thread_incr_spinlock.c) or a semaphore initialised to 1
    (53-posix-semaphore/thread_incr_psem.c).

    The three programs differ only in the primitive, so the primitive is a
    parameter of one machine for any number of threads. */
module LockedCounter {
  import opened Counting
  import opened Runs
  import opened Wrappers

  datatype Lock = Mutex(owner: Option<nat>) | Spinlock(held: bool) | Semaphore(value: nat)

  predicate CanAcquire(l: Lock) {
    match l
    case Mutex(owner) => owner.None?
    case Spinlock(held) => !held
    case Semaphore(value) => value > 0
  }

  function Acquired(l: Lock, i: nat): Lock {
    match l
    case Mutex(_) => Mutex(Some(i))
    case Spinlock(_) => Spinlock(true)
    case Semaphore(value) => Semaphore(if value > 0 then value - 1 else 0)
  }

  function Released(l: Lock): Lock {
    match l
    case Mutex(_) => Mutex(None)
    case Spinlock(_) => Spinlock(false)
    case Semaphore(value) => Semaphore(value + 1)
  }

  /** PTHREAD_MUTEX_INITIALIZER, pthread_spin_init and sem_init(&sem, 0, 1). */
  predicate Fresh(l: Lock) {
    l == Mutex(None) || l == Spinlock(false) || l == Semaphore(1)
  }

  datatype Pc = AtAcquire | AtLoad | AtIncrement | AtStore | AtRelease

  datatype Thread = Thread(j: nat, pc: Pc, loc: int)

  datatype State = State(loops: nat, lock: Lock, glob: int, threads: seq<Thread>)

  predicate Enabled(s: State, i: nat) {
    && i < |s.threads|
    && s.threads[i].j < s.loops
    && (s.threads[i].pc.AtAcquire? ==> CanAcquire(s.lock))
  }

  function Next(s: State, i: nat): State {
    if i >= |s.threads| then s else
    var t := s.threads[i];
    match t.pc
    case AtAcquire => s.(lock := Acquired(s.lock, i), threads := s.threads[i := t.(pc := AtLoad)])
    case AtLoad => s.(threads := s.threads[i := t.(loc := s.glob, pc := AtIncrement)])
    case AtIncrement => s.(threads := s.threads[i := t.(loc := t.loc + 1, pc := AtStore)])
    case AtStore => s.(glob := t.loc, threads := s.threads[i := t.(pc := AtRelease)])
    case AtRelease => s.(lock := Released(s.lock), threads := s.threads[i := t.(j := t.j + 1, pc := AtAcquire)])
  }

  const Program: Machine<State, nat> := Machine(Enabled, Next)

  predicate Initial(s: State) {
    && Fresh(s.lock)
    && s.glob == 0
    && forall i :: 0 <= i < |s.threads| ==> s.threads[i] == Thread(0, AtAcquire, 0)
  }

  /** What holds in every state some start of the program can lead to. */
  ghost predicate Reachable(s: State) {
    exists start :: Initial(start) && start.loops == s.loops && |start.threads| == |s.threads|
      && Reaches(Program, start, s)
  }

  predicate AllJoined(s: State) {
    forall i :: 0 <= i < |s.threads| ==> s.threads[i].j >= s.loops
  }

  // ---------- the invariant ----------

  predicate Inside(t: Thread) {
    !t.pc.AtAcquire?
  }

  function InsideCount(t: Thread): int {
    if Inside(t) then 1 else 0
  }

  /** Increments this thread has completed, that is, stored. */
  function Stores(t: Thread): int {
    t.j + if t.pc.AtRelease? then 1 else 0
  }

  /** How many threads the lock still admits. */
  function Room(l: Lock): int {
    match l
    case Mutex(owner) => if owner.Some? then 0 else 1
    case Spinlock(held) => if held then 0 else 1
    case Semaphore(value) => value
  }

  predicate LocalOk(s: State, t: Thread) {
    && t.j <= s.loops
    && (Inside(t) ==> t.j < s.loops)
    && (t.pc.AtIncrement? ==> t.loc == s.glob)
    && (t.pc.AtStore? ==> t.loc == s.glob + 1)
  }

  predicate Inv(s: State) {
    && Room(s.lock) + Sum(InsideCount, s.threads) == 1
    && s.glob == Sum(Stores, s.threads)
    && (s.lock.Mutex? && s.lock.owner.Some? ==>
          s.lock.owner.value < |s.threads| && Inside(s.threads[s.lock.owner.value]))
    && forall i :: 0 <= i < |s.threads| ==> LocalOk(s, s.threads[i])
  }

  /** Two different threads inside would make the count at least two. */
  lemma {:induction false} TwoInside(ts: seq<Thread>, i: nat, k: nat)
    requires i < k < |ts| && Inside(ts[i]) && Inside(ts[k])
    ensures Sum(InsideCount, ts) >= 2
  {
    if i == 0 {
      SumNonNegative(InsideCount, ts[1..]);
      assert ts[1..][k - 1] == ts[k];
      assert InsideCount(ts[1..][k - 1]) <= Sum(InsideCount, ts[1..]);
    } else {
      TwoInside(ts[1..], i - 1, k - 1);
    }
  }

  lemma OnlyOneInside(s: State, i: nat, k: nat)
    requires Inv(s) && i < |s.threads| && k < |s.threads|
    requires Inside(s.threads[i]) && Inside(s.threads[k])
    ensures i == k
  {
    if i < k {
      TwoInside(s.threads, i, k);
    } else if k < i {
      TwoInside(s.threads, k, i);
    }
  }

  lemma InvStep(s: State, i: nat)
    requires Inv(s) && Enabled(s, i)
    ensures Inv(Next(s, i))
  {
    var n := Next(s, i);
    SumUpdate(InsideCount, s.threads, i, n.threads[i]);
    SumUpdate(Stores, s.threads, i, n.threads[i]);
    SumNonNegative(InsideCount, s.threads);
    assert LocalOk(s, s.threads[i]);
    if s.lock.Mutex? && s.lock.owner.Some? && Inside(s.threads[i]) {
      OnlyOneInside(s, i, s.lock.owner.value);
    }
    forall k | 0 <= k < |n.threads| ensures LocalOk(n, n.threads[k]) {
      assert LocalOk(s, s.threads[k]);
      if s.threads[i].pc.AtStore? && k != i && Inside(s.threads[k]) {
        OnlyOneInside(s, i, k);
      }
    }
  }

  lemma InvAlwaysInitially(s: State)
    requires Initial(s)
    ensures Inv(s)
  {
    SumConstant(InsideCount, s.threads, 0);
    SumConstant(Stores, s.threads, 0);
  }

  lemma InvAlways(s: State)
    requires Reachable(s)
    ensures Inv(s)
  {
    var start :| Initial(start) && start.loops == s.loops && |start.threads| == |s.threads|
      && Reaches(Program, start, s);
    InvAlwaysInitially(start);
    forall t, i | Inv(t) && Program.enabled(t, i) ensures Inv(Program.next(t, i)) {
      InvStep(t, i);
    }
    AlwaysReached(Program, Inv, start, s);
  }

  // ---------- what the three programs promise ----------

  /** At most one thread is between acquire and release. */
  lemma MutualExclusion(s: State, i: nat, k: nat)
    requires Reachable(s) && i < |s.threads| && k < |s.threads|
    requires Inside(s.threads[i]) && Inside(s.threads[k])
    ensures i == k
  {
    InvAlways(s);
    OnlyOneInside(s, i, k);
  }

  /** For the mutex: the owner is the thread inside, so pthread_mutex_unlock()
      is only ever called by the thread that holds the mutex. */
  lemma UnlockedByOwner(s: State, i: nat)
    requires Reachable(s) && s.lock.Mutex? && i < |s.threads|
    ensures s.lock.owner == Some(i) <==> Inside(s.threads[i])
  {
    InvAlways(s);
    SumNonNegative(InsideCount, s.threads);
    if Inside(s.threads[i]) {
      assert InsideCount(s.threads[i]) <= Sum(InsideCount, s.threads);
      OnlyOneInside(s, i, s.lock.owner.value);
    }
  }

  /** For the semaphore: value and the threads inside always add up to one. */
  lemma SemaphoreBalance(s: State)
    requires Reachable(s) && s.lock.Semaphore?
    ensures s.lock.value + Sum(InsideCount, s.threads) == 1
  {
    InvAlways(s);
  }

  /** Whenever the lock is free no thread is inside, and glob is the number
      of completed increments. */
  lemma GlobCountsIncrements(s: State)
    requires Reachable(s)
    ensures s.glob == Sum(Stores, s.threads)
    ensures CanAcquire(s.lock) <==> forall i :: 0 <= i < |s.threads| ==> !Inside(s.threads[i])
    ensures CanAcquire(s.lock) ==> s.glob == Sum((t: Thread) => t.j as int, s.threads)
  {
    InvAlways(s);
    SumNonNegative(InsideCount, s.threads);
    if !CanAcquire(s.lock) {
      var i := SumPositive(InsideCount, s.threads);
    } else {
      forall i | 0 <= i < |s.threads| ensures !Inside(s.threads[i]) {
        assert InsideCount(s.threads[i]) <= Sum(InsideCount, s.threads);
      }
      var done := (t: Thread) => t.j as int;
      SumMonotone(Stores, s.threads, done, s.threads);
      SumMonotone(done, s.threads, Stores, s.threads);
    }
  }

  /** No update is lost: N threads of loops iterations end with N*loops. */
  lemma NoLostUpdate(s: State)
    requires Reachable(s) && AllJoined(s)
    ensures s.glob == |s.threads| * s.loops
  {
    InvAlways(s);
    forall i | 0 <= i < |s.threads| ensures Stores(s.threads[i]) == s.loops {
      assert LocalOk(s, s.threads[i]);
    }
    SumConstant(Stores, s.threads, s.loops);
  }

  /** The programs as shipped start two threads. */
  lemma TwoThreads(s: State)
    requires Reachable(s) && AllJoined(s) && |s.threads| == 2
    ensures s.glob == 2 * s.loops
  {
    NoLostUpdate(s);
  }

  /** Some thread can always go on until all have ended. */
  lemma NoDeadlock(s: State)
    requires Reachable(s)
    ensures Stuck(Program, s) <==> AllJoined(s)
  {
    InvAlways(s);
    if AllJoined(s) {
      forall i ensures !Program.enabled(s, i) {
      }
    } else if CanAcquire(s.lock) {
      var i: nat :| i < |s.threads| && s.threads[i].j < s.loops;
      assert Program.enabled(s, i);
    } else {
      SumNonNegative(InsideCount, s.threads);
      var i := SumPositive(InsideCount, s.threads);
      assert LocalOk(s, s.threads[i]);
      assert Program.enabled(s, i);
    }
  }

  /** Steps a thread still has to take. */
  function StepsLeft(loops: nat): Thread -> int {
    (t: Thread) => 5 * (loops - t.j) - (match t.pc
      case AtAcquire => 0
      case AtLoad => 1
      case AtIncrement => 2
      case AtStore => 3
      case AtRelease => 4)
  }

  function Work(s: State): int {
    Sum(StepsLeft(s.loops), s.threads)
  }

  lemma {:induction false} WorkOfRun(s: State, run: seq<nat>)
    requires Feasible(Program, s, run)
    ensures var t := After(Program, s, run);
            t.loops == s.loops && |t.threads| == |s.threads| && Work(t) == Work(s) - |run|
    decreases |run|
  {
    if run != [] {
      SumUpdate(StepsLeft(s.loops), s.threads, run[0], Next(s, run[0]).threads[run[0]]);
      WorkOfRun(Next(s, run[0]), run[1..]);
    }
  }

  lemma NoWorkLeft(s: State)
    requires Inv(s)
    ensures Work(s) >= 0
    ensures Work(s) == 0 <==> AllJoined(s)
  {
    var f := StepsLeft(s.loops);
    forall i | 0 <= i < |s.threads|
      ensures f(s.threads[i]) >= 0 && (f(s.threads[i]) == 0 <==> s.threads[i].j >= s.loops)
    {
      assert LocalOk(s, s.threads[i]);
    }
    SumNonNegative(f, s.threads);
    if AllJoined(s) {
      SumConstant(f, s.threads, 0);
    }
  }

  /** Every run is finite, so every run that is not cut short ends with all
      threads joined and, by NoLostUpdate, with the full count. */
  lemma RunsEnd(start: State, run: seq<nat>)
    requires Initial(start) && Feasible(Program, start, run)
    ensures |run| <= |start.threads| * (5 * start.loops)
    ensures |run| == |start.threads| * (5 * start.loops) <==> AllJoined(After(Program, start, run))
  {
    var s := After(Program, start, run);
    WorkOfRun(start, run);
    SumConstant(StepsLeft(start.loops), start.threads, 5 * start.loops);
    assert Reaches(Program, start, s);
    InvAlways(s);
    NoWorkLeft(s);
  }

  // ---------- the loop itself ----------

  lemma Reached(start: State, s: State)
    requires Initial(start) && Reaches(Program, start, s)
    ensures Reachable(s) && s.loops == start.loops && |s.threads| == |start.threads|
  {
    var run: seq<nat> :| Feasible(Program, start, run) && After(Program, start, run) == s;
    WorkOfRun(start, run);
  }

  /** The process memory: the lock, the shared variable, and how far each
      thread has got. */
  class Memory {
    var lock: Lock
    var glob: int
    var threads: seq<Thread>
    const loops: nat

    constructor (lock: Lock, loops: nat, n: nat)
      requires Fresh(lock)
      ensures this.loops == loops && |threads| == n && Initial(Abs())
    {
      this.lock, this.loops := lock, loops;
      glob, threads := 0, seq(n, _ => Thread(0, AtAcquire, 0));
    }

    ghost function Abs(): State
      reads this
    {
      State(loops, lock, glob, threads)
    }

    /** Thread i takes its next step, if it can; false means that it has ended
        or is blocked. */
    method Step(i: nat) returns (ok: bool)
      requires Inv(Abs())
      modifies this
      ensures ok == old(Enabled(Abs(), i)) && Inv(Abs())
      ensures Abs() == if ok then Next(old(Abs()), i) else old(Abs())
    {
      ok := i < |threads| && threads[i].j < loops && (threads[i].pc.AtAcquire? ==> CanAcquire(lock));
      if ok {
        InvStep(Abs(), i);
        var t := threads[i];
        match t.pc {
          case AtAcquire => lock, threads := Acquired(lock, i), threads[i := t.(pc := AtLoad)];
          case AtLoad => threads := threads[i := t.(loc := glob, pc := AtIncrement)];
          case AtIncrement => threads := threads[i := t.(loc := t.loc + 1, pc := AtStore)];
          case AtStore => glob, threads := t.loc, threads[i := t.(pc := AtRelease)];
          case AtRelease => lock, threads := Released(lock), threads[i := t.(j := t.j + 1, pc := AtAcquire)];
        }
      }
    }

    /** Threads are scheduled in the given order until the schedule ends; one
        that is blocked or has ended lets its turn go by. */
    method Run(schedule: seq<nat>)
      requires Inv(Abs())
      modifies this
      ensures Inv(Abs()) && Reaches(Program, old(Abs()), Abs())
    {
      ReachesSelf(Program, Abs());
      for k := 0 to |schedule|
        invariant Inv(Abs()) && Reaches(Program, old(Abs()), Abs())
      {
        ghost var s := Abs();
        var ok := Step(schedule[k]);
        if ok {
          ReachesStep(Program, old(Abs()), s, schedule[k]);
        }
      }
    }

    /** Some thread that can go on, if there is one that has not ended. */
    method FindEnabled(ghost start: State) returns (i: nat)
      requires Initial(start) && Reaches(Program, start, Abs()) && !AllJoined(Abs())
      ensures Enabled(Abs(), i)
    {
      Reached(start, Abs());
      NoDeadlock(Abs());
      i := 0;
      while !(threads[i].j < loops && (threads[i].pc.AtAcquire? ==> CanAcquire(lock)))
        invariant 0 <= i < |threads|
        invariant exists k :: i <= k < |threads| && Enabled(Abs(), k)
        decreases |threads| - i
      {
        i := i + 1;
      }
    }

    /** One more step of some thread. */
    method Advance(ghost start: State)
      requires Initial(start) && Reaches(Program, start, Abs()) && Inv(Abs()) && !AllJoined(Abs())
      modifies this
      ensures Inv(Abs()) && Reaches(Program, start, Abs())
      ensures 0 <= Work(Abs()) < old(Work(Abs()))
    {
      var i := FindEnabled(start);
      ghost var s := Abs();
      SumUpdate(StepsLeft(s.loops), s.threads, i, Next(s, i).threads[i]);
      var ok := Step(i);
      ReachesStep(Program, start, s, i);
      NoWorkLeft(Abs());
    }

    /** The program: start the threads, let any schedule run, go on in any way
        until all have ended, and join them.  The schedule makes no difference. */
    method RunProgram(schedule: seq<nat>)
      requires Initial(Abs())
      modifies this
      ensures AllJoined(Abs()) && glob == |threads| * loops
      ensures |threads| == |old(threads)|
    {
      ghost var start := Abs();
      InvAlwaysInitially(start);
      Run(schedule);
      NoWorkLeft(Abs());
      while exists i :: 0 <= i < |threads| && threads[i].j < loops
        invariant Inv(Abs()) && Reaches(Program, start, Abs())
        invariant Work(Abs()) >= 0
        decreases Work(Abs())
      {
        Advance(start);
      }
      Reached(start, Abs());
      NoLostUpdate(Abs());
    }
  }
}
