/** Joining whichever thread has terminated (30-thread-sync/thread_multijoin.c).

    Each worker counts and marks its own termination under a mutex and
    signals after releasing it; main waits for the count, scans the table and
    calls pthread_join() while it holds the mutex. */
module MultiJoin {
  import opened Counting
  import opened Runs
  import opened Wrappers

  /** The state column of the thread table. */
  datatype ThreadState = TsAlive | TsTerminated | TsJoined

  datatype WorkerPc = ToLock | ToCount | ToMark | ToUnlock | ToSignal | Ended

  /** Scanning(idx) is the for loop over the table, the next four are the body
      of its if statement. */
  datatype MainPc =
    | Creating | AtTest | AtLock | AtCheck | Waiting | Reacquire
    | Scanning(idx: nat) | Joining(idx: nat) | Marking(idx: nat) | LowerLive(idx: nat) | LowerUnjoined(idx: nat)
    | AtUnlock | Exited

  datatype Tid = MainThread | WorkerThread(index: nat)

  datatype State = State(
    created: nat,
    numLive: int,
    numUnjoined: int,
    table: seq<ThreadState>,
    workers: seq<WorkerPc>,
    joins: seq<nat>,            // completed pthread_join() calls, per thread
    mutex: Option<Tid>,
    main: MainPc)

  datatype Action = Worker(i: nat) | Main | SpuriousWakeup

  predicate Enabled(s: State, a: Action) {
    && !s.main.Exited?
    && |s.table| == |s.workers| == |s.joins|
    && match a
       case Worker(i) =>
         && i < s.created && i < |s.workers|
         && !s.workers[i].Ended?
         && (s.workers[i].ToLock? ==> s.mutex.None?)
       case SpuriousWakeup => s.main.Waiting?
       case Main =>
         match s.main
         case AtLock | Reacquire => s.mutex.None?
         case Waiting => false
         // pthread_join() blocks until the thread has ended
         case Joining(idx) => idx < |s.workers| && s.workers[idx].Ended?
         case _ => true
  }

  function WorkerNext(s: State, i: nat): State
    requires i < |s.workers| == |s.table|
  {
    match s.workers[i]
    case ToLock => s.(mutex := Some(WorkerThread(i)), workers := s.workers[i := ToCount])
    case ToCount => s.(numUnjoined := s.numUnjoined + 1, workers := s.workers[i := ToMark])
    case ToMark => s.(table := s.table[i := TsTerminated], workers := s.workers[i := ToUnlock])
    case ToUnlock => s.(mutex := None, workers := s.workers[i := ToSignal])
    case ToSignal => s.(main := if s.main.Waiting? then Reacquire else s.main, workers := s.workers[i := Ended])
    case Ended => s
  }

  function MainNext(s: State): State
    requires |s.workers| == |s.table| == |s.joins|
  {
    match s.main
    case Creating => if s.created < |s.workers| then s.(created := s.created + 1) else s.(main := AtTest)
    case AtTest => s.(main := if s.numLive > 0 then AtLock else Exited)
    case AtLock => s.(mutex := Some(MainThread), main := AtCheck)
    case AtCheck => if s.numUnjoined == 0 then s.(mutex := None, main := Waiting) else s.(main := Scanning(0))
    case Reacquire => s.(mutex := Some(MainThread), main := AtCheck)
    case Scanning(idx) =>
      if idx >= |s.table| then s.(main := AtUnlock)
      else if s.table[idx].TsTerminated? then s.(main := Joining(idx))
      else s.(main := Scanning(idx + 1))
    case Joining(idx) =>
      if idx < |s.joins| then s.(joins := s.joins[idx := s.joins[idx] + 1], main := Marking(idx)) else s
    case Marking(idx) => if idx < |s.table| then s.(table := s.table[idx := TsJoined], main := LowerLive(idx)) else s
    case LowerLive(idx) => s.(numLive := s.numLive - 1, main := LowerUnjoined(idx))
    case LowerUnjoined(idx) => s.(numUnjoined := s.numUnjoined - 1, main := Scanning(idx + 1))
    case AtUnlock => s.(mutex := None, main := AtTest)
    case Waiting => s
    case Exited => s
  }

  function Next(s: State, a: Action): State {
    if |s.workers| != |s.table| || |s.table| != |s.joins| then s else
    match a
    case Worker(i) => if i < |s.workers| then WorkerNext(s, i) else s
    case Main => MainNext(s)
    case SpuriousWakeup => s.(main := Reacquire)
  }

  const Program: Machine<State, Action> := Machine(Enabled, Next)

  /** calloc() leaves every entry TS_ALIVE. */
  function Initial(n: nat): State {
    State(0, n, 0, seq(n, _ => TsAlive), seq(n, _ => ToLock), seq(n, _ => 0), None, Creating)
  }

  ghost predicate Reachable(s: State) {
    Reaches(Program, Initial(|s.workers|), s)
  }

  // ---------- the invariant ----------

  function Terminated(t: ThreadState): int { if t.TsTerminated? then 1 else 0 }

  function NotJoined(t: ThreadState): int { if t.TsJoined? then 0 else 1 }

  /** Counted but not yet marked. */
  function BetweenCountAndMark(w: WorkerPc): int { if w.ToMark? then 1 else 0 }

  predicate MainHolds(pc: MainPc) {
    pc.AtCheck? || pc.Scanning? || pc.Joining? || pc.Marking? || pc.LowerLive? || pc.LowerUnjoined? || pc.AtUnlock?
  }

  predicate WorkerHolds(w: WorkerPc) {
    w.ToCount? || w.ToMark? || w.ToUnlock?
  }

  predicate YetToSignal(w: WorkerPc) {
    w.ToMark? || w.ToUnlock? || w.ToSignal?
  }

  predicate MutexOk(s: State) {
    && (s.mutex == Some(MainThread) <==> MainHolds(s.main))
    && (s.mutex.Some? && s.mutex.value.WorkerThread? ==> s.mutex.value.index < |s.workers|)
    && forall i :: 0 <= i < |s.workers| ==> (s.mutex == Some(WorkerThread(i)) <==> WorkerHolds(s.workers[i]))
  }

  predicate EntryOk(s: State, i: nat)
    requires i < |s.workers| == |s.table| == |s.joins|
  {
    && (s.table[i].TsAlive? <==> s.workers[i].ToLock? || s.workers[i].ToCount? || s.workers[i].ToMark?)
    && (s.table[i].TsJoined? ==> s.workers[i].Ended?)
    && s.joins[i] == (if s.table[i].TsJoined? || s.main == Marking(i) then 1 else 0)
    && (i >= s.created ==> s.workers[i].ToLock?)
  }

  predicate PositionOk(s: State)
    requires |s.workers| == |s.table| == |s.joins|
  {
    match s.main
    case Scanning(idx) => idx <= |s.table|
    case Joining(idx) => idx < |s.table| && s.table[idx].TsTerminated?
      && (s.workers[idx].ToSignal? || s.workers[idx].Ended?)
    case Marking(idx) => idx < |s.table| && s.table[idx].TsTerminated? && s.workers[idx].Ended?
    case LowerLive(idx) => idx < |s.table| && s.table[idx].TsJoined?
    case LowerUnjoined(idx) => idx < |s.table| && s.table[idx].TsJoined?
    case AtLock | AtCheck | Waiting | Reacquire => s.numLive > 0
    case Exited => s.numLive <= 0
    case _ => true
  }

  predicate CountsOk(s: State) {
    && s.numLive == Sum(NotJoined, s.table) + (if s.main.LowerLive? then 1 else 0)
    && s.numUnjoined == Sum(Terminated, s.table) + Sum(BetweenCountAndMark, s.workers)
                        + (if s.main.LowerLive? || s.main.LowerUnjoined? then 1 else 0)
  }

  predicate Inv(s: State) {
    && |s.workers| == |s.table| == |s.joins|
    && s.created <= |s.workers|
    && (!s.main.Creating? ==> s.created == |s.workers|)
    && MutexOk(s)
    && (forall i :: 0 <= i < |s.workers| ==> EntryOk(s, i))
    && PositionOk(s)
    && CountsOk(s)
    && (s.main.Waiting? && s.numUnjoined > 0 ==> exists i :: 0 <= i < |s.workers| && YetToSignal(s.workers[i]))
  }

  lemma WorkerKeepsMutex(s: State, i: nat)
    requires Inv(s) && Enabled(s, Worker(i))
    ensures MutexOk(WorkerNext(s, i))
  {
    var n := WorkerNext(s, i);
    assert s.mutex == Some(WorkerThread(i)) <==> WorkerHolds(s.workers[i]);
    forall k | 0 <= k < |n.workers| ensures n.mutex == Some(WorkerThread(k)) <==> WorkerHolds(n.workers[k]) {
      assert s.mutex == Some(WorkerThread(k)) <==> WorkerHolds(s.workers[k]);
    }
  }

  lemma WorkerKeepsCounts(s: State, i: nat)
    requires Inv(s) && Enabled(s, Worker(i))
    ensures CountsOk(WorkerNext(s, i))
  {
    var n := WorkerNext(s, i);
    assert EntryOk(s, i);
    SumUpdate(BetweenCountAndMark, s.workers, i, n.workers[i]);
    if s.workers[i].ToMark? {
      SumUpdate(NotJoined, s.table, i, TsTerminated);
      SumUpdate(Terminated, s.table, i, TsTerminated);
    }
  }

  lemma WorkerKeepsEntries(s: State, i: nat)
    requires Inv(s) && Enabled(s, Worker(i))
    ensures var n := WorkerNext(s, i);
            PositionOk(n) && forall k :: 0 <= k < |n.workers| ==> EntryOk(n, k)
  {
    var n := WorkerNext(s, i);
    assert EntryOk(s, i);
    assert s.mutex == Some(WorkerThread(i)) <==> WorkerHolds(s.workers[i]);
    forall k | 0 <= k < |n.workers| ensures EntryOk(n, k) {
      assert EntryOk(s, k);
    }
  }

  lemma WorkerKeepsSignal(s: State, i: nat)
    requires Inv(s) && Enabled(s, Worker(i))
    ensures var n := WorkerNext(s, i);
            n.main.Waiting? && n.numUnjoined > 0 ==> exists k :: 0 <= k < |n.workers| && YetToSignal(n.workers[k])
  {
    var n := WorkerNext(s, i);
    if n.main.Waiting? && n.numUnjoined > 0 {
      if YetToSignal(n.workers[i]) {
      } else {
        var k :| 0 <= k < |s.workers| && YetToSignal(s.workers[k]);
        assert n.workers[k] == s.workers[k];
      }
    }
  }

  lemma WorkerStep(s: State, i: nat)
    requires Inv(s) && Enabled(s, Worker(i))
    ensures Inv(WorkerNext(s, i))
  {
    WorkerKeepsMutex(s, i);
    WorkerKeepsCounts(s, i);
    WorkerKeepsEntries(s, i);
    WorkerKeepsSignal(s, i);
  }

  lemma MainKeepsCounts(s: State)
    requires Inv(s) && Enabled(s, Main)
    ensures CountsOk(MainNext(s))
  {
    if s.main.Marking? {
      SumUpdate(NotJoined, s.table, s.main.idx, TsJoined);
      SumUpdate(Terminated, s.table, s.main.idx, TsJoined);
    }
  }

  lemma MainKeepsEntries(s: State)
    requires Inv(s) && Enabled(s, Main)
    ensures var n := MainNext(s);
            PositionOk(n) && forall k :: 0 <= k < |n.workers| ==> EntryOk(n, k)
  {
    var n := MainNext(s);
    forall k | 0 <= k < |n.workers| ensures EntryOk(n, k) {
      assert EntryOk(s, k);
    }
    if s.main.Scanning? && s.main.idx < |s.table| {
      // the mutex is main's, so the worker has already released it
      assert EntryOk(s, s.main.idx);
      assert s.mutex == Some(WorkerThread(s.main.idx)) <==> WorkerHolds(s.workers[s.main.idx]);
    }
  }

  lemma MainStep(s: State)
    requires Inv(s) && Enabled(s, Main)
    ensures Inv(MainNext(s))
  {
    MainKeepsCounts(s);
    MainKeepsEntries(s);
    var n := MainNext(s);
    assert MutexOk(n) by {
      forall k | 0 <= k < |n.workers| ensures n.mutex == Some(WorkerThread(k)) <==> WorkerHolds(n.workers[k]) {
        assert s.mutex == Some(WorkerThread(k)) <==> WorkerHolds(s.workers[k]);
      }
    }
  }

  lemma InvStep(s: State, a: Action)
    requires Inv(s) && Enabled(s, a)
    ensures Inv(Next(s, a))
  {
    match a
    case Worker(i) => WorkerStep(s, i);
    case Main => MainStep(s);
    case SpuriousWakeup =>
      assert forall k :: 0 <= k < |s.workers| ==> EntryOk(s, k) ==> EntryOk(Next(s, a), k);
  }

  lemma InvInitially(n: nat)
    ensures Inv(Initial(n))
  {
    SumConstant(NotJoined, Initial(n).table, 1);
    SumConstant(Terminated, Initial(n).table, 0);
    SumConstant(BetweenCountAndMark, Initial(n).workers, 0);
  }

  lemma InvFrom(n: nat, s: State)
    requires Reaches(Program, Initial(n), s)
    ensures Inv(s) && |s.workers| == n
  {
    InvInitially(n);
    var inv := (t: State) => Inv(t) && |t.workers| == n;
    forall t, a | inv(t) && Program.enabled(t, a) ensures inv(Program.next(t, a)) {
      InvStep(t, a);
    }
    AlwaysReached(Program, inv, Initial(n), s);
  }

  // ---------- what the program promises ----------

  /** Whenever the mutex is free the two counters say what their comments say. */
  lemma CountersMatchTable(s: State)
    requires Reachable(s) && s.mutex.None?
    ensures s.numUnjoined == Sum(Terminated, s.table)
    ensures s.numLive == Sum(NotJoined, s.table)
  {
    InvFrom(|s.workers|, s);
    forall i | 0 <= i < |s.workers| ensures BetweenCountAndMark(s.workers[i]) == 0 {
      assert s.mutex == Some(WorkerThread(i)) <==> WorkerHolds(s.workers[i]);
    }
    SumConstant(BetweenCountAndMark, s.workers, 0);
  }

  lemma NoLostWakeup(s: State)
    requires Reachable(s) && s.main.Waiting? && s.numUnjoined > 0
    ensures exists i :: 0 <= i < |s.workers| && YetToSignal(s.workers[i])
  {
    InvFrom(|s.workers|, s);
  }

  /** A spurious wakeup takes the mutex, finds nothing and goes back to sleep. */
  lemma SpuriousWakeupSleepsAgain(s: State)
    requires Reachable(s) && s.main.Waiting? && s.mutex.None? && s.numUnjoined == 0
    ensures |s.workers| == |s.table| == |s.joins|
    ensures var woken := Next(s, SpuriousWakeup);
            && Enabled(s, SpuriousWakeup) && Enabled(woken, Main) && woken != s
            && MainNext(woken).main.AtCheck? && MainNext(MainNext(woken)) == s
  {
    InvFrom(|s.workers|, s);
  }

  /** The join done under the mutex never waits for a thread that needs the
      mutex: that thread has nothing left to do but signal and end. */
  lemma JoinNeedsNoMutex(s: State)
    requires Reachable(s) && s.main.Joining?
    ensures s.main.idx < |s.workers| == |s.joins|
    ensures !s.workers[s.main.idx].Ended? ==>
              Enabled(s, Worker(s.main.idx)) && WorkerNext(s, s.main.idx).workers[s.main.idx].Ended?
    ensures s.joins[s.main.idx] == 0
  {
    InvFrom(|s.workers|, s);
    assert EntryOk(s, s.main.idx);
  }

  /** At exit every thread was joined, and joined exactly once. */
  lemma JoinedExactlyOnce(s: State)
    requires Reachable(s)
    ensures |s.joins| == |s.workers|
    ensures forall i :: 0 <= i < |s.joins| ==> s.joins[i] <= 1
    ensures s.main.Exited? ==>
              s.numUnjoined == 0 && forall i :: 0 <= i < |s.joins| ==> s.joins[i] == 1 && s.workers[i].Ended?
  {
    InvFrom(|s.workers|, s);
    forall i | 0 <= i < |s.joins| ensures s.joins[i] <= 1 {
      assert EntryOk(s, i);
    }
    if s.main.Exited? {
      SumNonNegative(NotJoined, s.table);
      forall i | 0 <= i < |s.joins| ensures s.table[i].TsJoined? && s.joins[i] == 1 && s.workers[i].Ended? {
        assert EntryOk(s, i);
        assert NotJoined(s.table[i]) <= Sum(NotJoined, s.table);
      }
      SumConstant(Terminated, s.table, 0);
      SumConstant(BetweenCountAndMark, s.workers, 0);
    }
  }

  ghost predicate Deadlocked(s: State) {
    && !s.main.Exited?
    && forall a: Action :: !a.SpuriousWakeup? ==> !Enabled(s, a)
  }

  /** A main asleep with threads left finds one that has not ended. */
  lemma SomeoneStillRuns(s: State) returns (i: nat)
    requires Inv(s) && s.main.Waiting?
    ensures i < |s.workers| && !s.workers[i].Ended?
  {
    if s.numUnjoined > 0 {
      i :| 0 <= i < |s.workers| && YetToSignal(s.workers[i]);
    } else {
      SumNonNegative(Terminated, s.table);
      SumNonNegative(BetweenCountAndMark, s.workers);
      i := SumPositive(NotJoined, s.table);
      assert EntryOk(s, i);
      assert Terminated(s.table[i]) <= Sum(Terminated, s.table);
    }
  }

  lemma NoDeadlock(s: State)
    requires Reachable(s)
    ensures !Deadlocked(s)
  {
    InvFrom(|s.workers|, s);
    if s.main.Exited? || Enabled(s, Main) {
    } else if s.main.Joining? {
      JoinNeedsNoMutex(s);
      assert Enabled(s, Worker(s.main.idx));
    } else if s.mutex.Some? {
      var i := s.mutex.value.index;
      assert s.mutex == Some(WorkerThread(i)) <==> WorkerHolds(s.workers[i]);
      assert EntryOk(s, i);
      assert Enabled(s, Worker(i));
    } else {
      var i := SomeoneStillRuns(s);
      assert Enabled(s, Worker(i));
    }
  }

  // ---------- every run comes to an end ----------

  /** The rest of the scan will find a thread to join. */
  ghost predicate FindsOne(s: State, from: nat) {
    exists k :: from <= k < |s.table| && s.table[k].TsTerminated?
  }

  /** What a scan with nothing left to find may still cost: one more round. */
  function NextRound(n: nat): nat { 5 * n + 6 }

  ghost function Rank(s: State): int {
    var n := |s.table|;
    match s.main
    case Creating => 5 * n + 5 + n - s.created
    case AtTest => 5 * n + 4
    case AtLock => 5 * n + 3
    case AtCheck => 5 * n + 2
    case Waiting => 5 * n + 1
    case Reacquire => 5 * n + 3
    case Scanning(idx) => 5 * (n - idx) + (if FindsOne(s, idx) then 1 else NextRound(n))
    case Joining(idx) => 5 * (n - idx)
    case Marking(idx) => 5 * (n - idx) - 1
    case LowerLive(idx) => 5 * (n - idx) - 2 + (if FindsOne(s, idx + 1) then 0 else NextRound(n))
    case LowerUnjoined(idx) => 5 * (n - idx) - 3 + (if FindsOne(s, idx + 1) then 0 else NextRound(n))
    case AtUnlock => 5 * n + 5
    case Exited => 0
  }

  function StepsLeft(w: WorkerPc): int {
    match w
    case ToLock => 5
    case ToCount => 4
    case ToMark => 3
    case ToUnlock => 2
    case ToSignal => 1
    case Ended => 0
  }

  ghost function Measure(s: State): int {
    3 * Sum(StepsLeft, s.workers) + NextRound(|s.table|) * Sum(NotJoined, s.table) + Rank(s)
  }

  lemma WorkerMeasure(s: State, i: nat)
    requires Inv(s) && Enabled(s, Worker(i))
    ensures Measure(WorkerNext(s, i)) < Measure(s)
  {
    var n := WorkerNext(s, i);
    SumUpdate(StepsLeft, s.workers, i, n.workers[i]);
    assert EntryOk(s, i);
    assert s.mutex == Some(WorkerThread(i)) <==> WorkerHolds(s.workers[i]);
    if s.workers[i].ToMark? {
      SumUpdate(NotJoined, s.table, i, TsTerminated);
      assert Rank(n) == Rank(s);
    }
    assert Rank(n) <= Rank(s) + 2;
    assert Sum(NotJoined, n.table) == Sum(NotJoined, s.table);
  }

  lemma RoundFindsOne(s: State)
    requires Inv(s) && s.main.AtCheck? && s.numUnjoined != 0
    ensures FindsOne(s, 0)
  {
    forall i | 0 <= i < |s.workers| ensures BetweenCountAndMark(s.workers[i]) == 0 {
      assert s.mutex == Some(WorkerThread(i)) <==> WorkerHolds(s.workers[i]);
    }
    SumConstant(BetweenCountAndMark, s.workers, 0);
    SumNonNegative(Terminated, s.table);
    var k := SumPositive(Terminated, s.table);
    assert s.table[k].TsTerminated?;
  }

  lemma MarkMeasure(s: State)
    requires Inv(s) && s.main.Marking?
    ensures Measure(MainNext(s)) < Measure(s)
  {
    var n := MainNext(s);
    var weight := NextRound(|s.table|);
    SumUpdate(NotJoined, s.table, s.main.idx, TsJoined);
    assert Sum(NotJoined, n.table) == Sum(NotJoined, s.table) - 1;
    assert weight * Sum(NotJoined, n.table) == weight * Sum(NotJoined, s.table) - weight;
  }

  lemma MainMeasure(s: State)
    requires Inv(s) && Enabled(s, Main)
    ensures Measure(MainNext(s)) < Measure(s)
  {
    var n := MainNext(s);
    if s.main.Marking? {
      MarkMeasure(s);
    } else {
      if s.main.AtCheck? && s.numUnjoined != 0 {
        RoundFindsOne(s);
      }
      assert n.table == s.table && n.workers == s.workers;
      if s.main.Scanning? && s.main.idx < |s.table| {
        assert FindsOne(s, s.main.idx) <==> s.table[s.main.idx].TsTerminated? || FindsOne(n, s.main.idx + 1);
      }
      if s.main.LowerLive? || s.main.LowerUnjoined? {
        assert FindsOne(n, s.main.idx + 1) <==> FindsOne(s, s.main.idx + 1);
      }
      assert Rank(n) < Rank(s);
    }
  }

  function SpuriousCost(a: Action): nat {
    if a.SpuriousWakeup? then 3 else 0
  }

  lemma MeasureStep(s: State, a: Action)
    requires Inv(s) && Enabled(s, a)
    ensures Measure(Next(s, a)) < Measure(s) + SpuriousCost(a)
  {
    match a
    case Worker(i) => WorkerMeasure(s, i);
    case Main => MainMeasure(s);
    case SpuriousWakeup =>
  }

  lemma MeasureNonNegative(s: State)
    requires Inv(s)
    ensures Measure(s) >= 0
  {
    SumNonNegative(StepsLeft, s.workers);
    SumNonNegative(NotJoined, s.table);
    assert NextRound(|s.table|) * Sum(NotJoined, s.table) >= 0;
  }

  /** Only spurious wakeups can prolong a run. */
  lemma RunsEnd(n: nat, run: seq<Action>)
    requires Feasible(Program, Initial(n), run)
    ensures |run| <= 21 * n + NextRound(n) * n + 5 + Cost(SpuriousCost, run)
  {
    InvInitially(n);
    forall t, a | Inv(t) && Program.enabled(t, a)
      ensures Inv(Program.next(t, a)) && Measure(Program.next(t, a)) < Measure(t) + SpuriousCost(a)
    {
      InvStep(t, a);
      MeasureStep(t, a);
    }
    Bounded(Program, Inv, Measure, SpuriousCost, Initial(n), run);
    InvFrom(n, After(Program, Initial(n), run));
    MeasureNonNegative(After(Program, Initial(n), run));
    SumConstant(StepsLeft, Initial(n).workers, 5);
    SumConstant(NotJoined, Initial(n).table, 1);
    assert Sum(NotJoined, Initial(n).table) == n;
  }

  /** A run after which nothing but a spurious wakeup could follow has exited
      with every thread joined once. */
  lemma CompleteRuns(n: nat, run: seq<Action>)
    requires Feasible(Program, Initial(n), run)
    requires forall a: Action :: !a.SpuriousWakeup? ==> !Enabled(After(Program, Initial(n), run), a)
    ensures var s := After(Program, Initial(n), run);
            s.main.Exited? && |s.joins| == n && forall i :: 0 <= i < n ==> s.joins[i] == 1
  {
    var s := After(Program, Initial(n), run);
    InvFrom(n, s);
    NoDeadlock(s);
    JoinedExactlyOnce(s);
  }

  // ---------- the scan itself ----------

  /** The table after every terminated entry in its first k has been joined. */
  function JoinedUpTo(table: seq<ThreadState>, k: nat): seq<ThreadState>
    requires k <= |table|
  {
    seq(|table|, i requires 0 <= i < |table| => if i < k && table[i].TsTerminated? then TsJoined else table[i])
  }

  lemma JoinedOneMore(table: seq<ThreadState>, k: nat)
    requires k < |table|
    ensures JoinedUpTo(table, k)[k] == table[k]
    ensures JoinedUpTo(table, k + 1) ==
              if table[k].TsTerminated? then JoinedUpTo(table, k)[k := TsJoined] else JoinedUpTo(table, k)
  {
  }

  /** What main can rely on while it scans: it holds the mutex, so a marked
      thread has nothing left to do but signal. */
  predicate ScanOk(s: State) {
    && s.created == |s.workers| == |s.table| == |s.joins|
    && s.numUnjoined == Sum(Terminated, s.table)
    && s.numLive == Sum(NotJoined, s.table)
    && forall i :: 0 <= i < |s.table| && s.table[i].TsTerminated? ==> s.workers[i].ToSignal? || s.workers[i].Ended?
  }

  /** Every scan the program makes starts in such a state. */
  lemma ScanStartsOk(s: State)
    requires Reachable(s) && s.main.Scanning?
    ensures ScanOk(s)
  {
    InvFrom(|s.workers|, s);
    forall i | 0 <= i < |s.workers|
      ensures BetweenCountAndMark(s.workers[i]) == 0
      ensures s.table[i].TsTerminated? ==> s.workers[i].ToSignal? || s.workers[i].Ended?
    {
      assert EntryOk(s, i);
      assert s.mutex == Some(WorkerThread(i)) <==> WorkerHolds(s.workers[i]);
    }
    SumConstant(BetweenCountAndMark, s.workers, 0);
  }

  /** Threads that had yet to signal may have done so and ended. */
  predicate Signalled(before: seq<WorkerPc>, after: seq<WorkerPc>) {
    && |before| == |after|
    && forall i :: 0 <= i < |before| ==> after[i] == before[i] || (before[i].ToSignal? && after[i].Ended?)
  }

  /** Some of the given threads signal and end, while main does not wait. */
  lemma {:induction false} LetSignal(s: State, t: State, who: seq<nat>) returns (u: State)
    requires Reaches(Program, s, t) && t.created == |t.workers| == |t.table| == |t.joins|
    requires !t.main.Waiting? && !t.main.Exited?
    ensures Reaches(Program, s, u) && u == t.(workers := u.workers) && Signalled(t.workers, u.workers)
    ensures forall i :: 0 <= i < |t.workers| ==>
              u.workers[i] == if i in who && t.workers[i].ToSignal? then Ended else t.workers[i]
    decreases |who|
  {
    u := t;
    if who != [] {
      var i := who[0];
      if i < |t.workers| && t.workers[i].ToSignal? {
        ReachesStep(Program, s, t, Worker(i));
        u := WorkerNext(t, i);
      }
      u := LetSignal(s, u, who[1..]);
    }
  }

  /** The machine after the first idx entries of the table it started from. */
  predicate Scanned(s: State, t: State, idx: nat)
    requires |s.table| == |s.workers|
  {
    && idx <= |s.table| && t.main == Scanning(idx) && ScanOk(t)
    && t.table == JoinedUpTo(s.table, idx)
    && t.numLive - t.numUnjoined == s.numLive - s.numUnjoined
    && Signalled(s.workers, t.workers)
    && forall i :: 0 <= i < idx && s.table[i].TsTerminated? ==> t.workers[i].Ended?
  }

  lemma JoinEnded(s: State, t: State) returns (u: State)
    requires Reaches(Program, s, t) && t.main.Joining? && |t.workers| == |t.table| == |t.joins|
    requires t.main.idx < |t.table| && t.workers[t.main.idx].Ended?
    ensures Reaches(Program, s, u)
    ensures u == t.(main := Scanning(t.main.idx + 1), table := t.table[t.main.idx := TsJoined],
                    joins := t.joins[t.main.idx := t.joins[t.main.idx] + 1],
                    numLive := t.numLive - 1, numUnjoined := t.numUnjoined - 1)
  {
    u := t;
    for k := 0 to 4
      invariant Reaches(Program, s, u)
      invariant k == 0 ==> u == t
      invariant k == 1 ==> u == t.(main := Marking(t.main.idx), joins := t.joins[t.main.idx := t.joins[t.main.idx] + 1])
      invariant k == 2 ==> u == t.(main := LowerLive(t.main.idx), table := t.table[t.main.idx := TsJoined],
                                   joins := t.joins[t.main.idx := t.joins[t.main.idx] + 1])
      invariant k == 3 ==> u == t.(main := LowerUnjoined(t.main.idx), table := t.table[t.main.idx := TsJoined],
                                   joins := t.joins[t.main.idx := t.joins[t.main.idx] + 1], numLive := t.numLive - 1)
      invariant k == 4 ==> u == t.(main := Scanning(t.main.idx + 1), table := t.table[t.main.idx := TsJoined],
                                   joins := t.joins[t.main.idx := t.joins[t.main.idx] + 1],
                                   numLive := t.numLive - 1, numUnjoined := t.numUnjoined - 1)
    {
      ReachesStep(Program, s, u, Main);
      u := MainNext(u);
    }
  }

  /** The body of the if statement in the scan, step by step.  The thread may
      still have to signal: the join then waits for that, its last step. */
  lemma JoinOne(s: State, t: State) returns (u: State)
    requires Reaches(Program, s, t) && t.main.Scanning? && ScanOk(t)
    requires t.main.idx < |t.table| && t.table[t.main.idx].TsTerminated?
    ensures Reaches(Program, s, u) && ScanOk(u)
    ensures u == t.(main := Scanning(t.main.idx + 1), table := t.table[t.main.idx := TsJoined],
                    workers := t.workers[t.main.idx := Ended],
                    joins := t.joins[t.main.idx := t.joins[t.main.idx] + 1],
                    numLive := t.numLive - 1, numUnjoined := t.numUnjoined - 1)
  {
    var idx := t.main.idx;
    ReachesStep(Program, s, t, Main);
    u := LetSignal(s, MainNext(t), [idx]);
    assert u.workers == t.workers[idx := Ended];
    u := JoinEnded(s, u);
    SumUpdate(Terminated, t.table, idx, TsJoined);
    SumUpdate(NotJoined, t.table, idx, TsJoined);
  }

  /** One turn of the scan, after the given threads may have signalled. */
  lemma ScanOne(s: State, t: State, idx: nat, who: seq<nat>) returns (u: State)
    requires ScanOk(s) && Reaches(Program, s, t) && idx < |s.table| && Scanned(s, t, idx)
    ensures Reaches(Program, s, u) && Scanned(s, u, idx + 1)
    ensures var joined := if t.table[idx].TsTerminated? then 1 else 0;
            u == t.(main := u.main, workers := u.workers, joins := u.joins,
                    table := if joined == 1 then t.table[idx := TsJoined] else t.table,
                    numLive := t.numLive - joined, numUnjoined := t.numUnjoined - joined)
  {
    JoinedOneMore(s.table, idx);
    u := LetSignal(s, t, who);
    if t.table[idx].TsTerminated? {
      u := JoinOne(s, u);
    } else {
      ReachesStep(Program, s, u, Main);
      u := MainNext(u);
    }
  }

  /** The thread table and the two counters beside it. */
  class ThreadTable {
    var state: array<ThreadState>
    var numLive: int
    var numUnjoined: int

    constructor (n: nat)
      ensures fresh(state) && state.Length == n && state[..] == seq(n, _ => TsAlive)
      ensures numLive == n && numUnjoined == 0
    {
      state := new ThreadState[n](_ => TsAlive);
      numLive, numUnjoined := n, 0;
    }

    /** Join every terminated thread: the loop main runs under the mutex.  The
        ghost s is a machine state about to scan this table and t is where the
        machine gets to.  Marked threads may signal before any step of the
        loop; one that has not when it is to be joined does so then. */
    method JoinTerminated(ghost s: State, ghost signals: seq<seq<nat>>) returns (ghost t: State)
      requires s.main == Scanning(0) && ScanOk(s)
      requires s.table == state[..] && s.numLive == numLive && s.numUnjoined == numUnjoined
      modifies this`numLive, this`numUnjoined, state
      ensures state[..] == JoinedUpTo(old(state[..]), state.Length)
      ensures numUnjoined == 0 && numLive == old(numLive) - old(numUnjoined)
      ensures numLive == Sum(NotJoined, state[..])
      ensures Reaches(Program, s, t) && t.main == Scanning(state.Length) && ScanOk(t)
      ensures t.table == state[..] && t.numLive == numLive && t.numUnjoined == numUnjoined
      ensures Signalled(s.workers, t.workers)
      ensures forall i :: 0 <= i < |s.table| && s.table[i].TsTerminated? ==> t.workers[i].Ended?
    {
      t := s;
      ReachesSelf(Program, s);
      for idx := 0 to state.Length
        invariant Reaches(Program, s, t) && Scanned(s, t, idx)
        invariant t.table == state[..] && t.numLive == numLive && t.numUnjoined == numUnjoined
      {
        t := ScanOne(s, t, idx, if idx < |signals| then signals[idx] else []);
        if state[idx].TsTerminated? {
          state[idx] := TsJoined;
          numLive := numLive - 1;
          numUnjoined := numUnjoined - 1;
        }
      }
      SumConstant(Terminated, t.table, 0);
    }
  }
}
