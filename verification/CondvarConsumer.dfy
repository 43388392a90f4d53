/** Any number of producers and one consumer that waits on a condition variable
    (30-thread-sync/prod_condvar.c).

    The producers signal after they have released the mutex, a signal that
    finds no waiter is lost, and a wait may return without any signal. */
module CondvarConsumer {
  import opened Counting
  import opened Runs
  import opened Wrappers

  datatype ProducerPc = ToLock | ToIncrement | ToUnlock | ToSignal

  datatype Producer = Producer(j: nat, pc: ProducerPc)

  /** Waiting is inside pthread_cond_wait() and asleep; Reacquire is inside it
      and woken, but without the mutex.  AtCheck is the test of the inner while
      loop, reached with the mutex held. */
  datatype MainPc = Creating | AtLock | AtCheck | Waiting | Reacquire | Consuming | AtUnlock | AtTest | Exited

  datatype Tid = MainThread | ProducerThread(index: nat)

  datatype State = State(
    counts: seq<int>,          // the numeric command-line arguments
    created: nat,              // how many producers main has started
    totRequired: int,
    producers: seq<Producer>,
    mutex: Option<Tid>,
    avail: int,
    numConsumed: int,
    done: bool,
    main: MainPc)

  datatype Action = Produce(i: nat) | Main | SpuriousWakeup

  predicate ProducerEnabled(s: State, i: nat) {
    && i < s.created && i < |s.producers| && i < |s.counts|
    && s.producers[i].j < s.counts[i]
    && (s.producers[i].pc.ToLock? ==> s.mutex.None?)
  }

  predicate Enabled(s: State, a: Action) {
    && !s.main.Exited?
    && match a
       case Produce(i) => ProducerEnabled(s, i)
       case SpuriousWakeup => s.main.Waiting?
       case Main =>
         match s.main
         case AtLock | Reacquire => s.mutex.None?
         case Waiting => false
         case _ => true
  }

  function ProducerNext(s: State, i: nat): State
    requires i < |s.producers|
  {
    var p := s.producers[i];
    match p.pc
    case ToLock => s.(mutex := Some(ProducerThread(i)), producers := s.producers[i := p.(pc := ToIncrement)])
    case ToIncrement => s.(avail := s.avail + 1, producers := s.producers[i := p.(pc := ToUnlock)])
    case ToUnlock => s.(mutex := None, producers := s.producers[i := p.(pc := ToSignal)])
    case ToSignal => s.(main := if s.main.Waiting? then Reacquire else s.main,
                        producers := s.producers[i := Producer(p.j + 1, ToLock)])
  }

  function MainNext(s: State): State {
    match s.main
    case Creating =>
      if s.created < |s.counts| then s.(totRequired := s.totRequired + s.counts[s.created], created := s.created + 1)
      else s.(main := AtLock)
    case AtLock => s.(mutex := Some(MainThread), main := AtCheck)
    case AtCheck => if s.avail == 0 then s.(mutex := None, main := Waiting) else s.(main := Consuming)
    case Reacquire => s.(mutex := Some(MainThread), main := AtCheck)
    case Consuming =>
      if s.avail > 0 then
        s.(numConsumed := s.numConsumed + 1, avail := s.avail - 1, done := s.numConsumed + 1 >= s.totRequired)
      else s.(main := AtUnlock)
    case AtUnlock => s.(mutex := None, main := AtTest)
    case AtTest => s.(main := if s.done then Exited else AtLock)
    case Waiting => s
    case Exited => s
  }

  function Next(s: State, a: Action): State {
    match a
    case Produce(i) => if i < |s.producers| then ProducerNext(s, i) else s
    case Main => MainNext(s)
    case SpuriousWakeup => s.(main := Reacquire)
  }

  const Program: Machine<State, Action> := Machine(Enabled, Next)

  function Initial(counts: seq<int>): State {
    State(counts, 0, 0, seq(|counts|, _ => Producer(0, ToLock)), None, 0, 0, false, Creating)
  }

  ghost predicate Reachable(s: State) {
    Reaches(Program, Initial(s.counts), s)
  }

  // ---------- the invariant ----------

  function Value(cnt: int): int { cnt }

  /** Units a producer with this argument makes: none if it is negative. */
  function Units(cnt: int): int { if cnt < 0 then 0 else cnt }

  /** Units this producer has added to avail so far. */
  function Produced(p: Producer): int {
    p.j + if p.pc.ToUnlock? || p.pc.ToSignal? then 1 else 0
  }

  predicate YetToSignal(p: Producer) {
    p.pc.ToUnlock? || p.pc.ToSignal?
  }

  predicate MutexOk(s: State) {
    && (s.mutex == Some(MainThread) <==> s.main.AtCheck? || s.main.Consuming? || s.main.AtUnlock?)
    && (s.mutex.Some? && s.mutex.value.ProducerThread? ==> s.mutex.value.index < |s.producers|)
    && forall i :: 0 <= i < |s.producers| ==>
         (s.mutex == Some(ProducerThread(i)) <==> s.producers[i].pc.ToIncrement? || s.producers[i].pc.ToUnlock?)
  }

  predicate ProducersOk(s: State) {
    && |s.producers| == |s.counts|
    && forall i :: 0 <= i < |s.producers| ==>
         && s.producers[i].j <= Units(s.counts[i])
         && (!s.producers[i].pc.ToLock? ==> s.producers[i].j < s.counts[i])
         && (i >= s.created ==> s.producers[i] == Producer(0, ToLock))
  }

  predicate ConsumerOk(s: State) {
    && s.avail >= 0 && s.numConsumed >= 0
    && s.created <= |s.counts|
    && s.totRequired == Sum(Value, s.counts[..s.created])
    && (!s.main.Creating? ==> s.created == |s.counts|)
    && (s.main.Creating? ==> s.numConsumed == 0)
    && (s.done <==> s.numConsumed > 0 && s.numConsumed >= s.totRequired)
    && (s.main in {Creating, AtLock, AtCheck, Waiting, Reacquire} ==> !s.done)
    && (s.main.AtUnlock? ==> s.avail == 0)
    && (s.main.Exited? ==> s.done)
  }

  predicate Inv(s: State) {
    && MutexOk(s)
    && ProducersOk(s)
    && ConsumerOk(s)
    && Sum(Produced, s.producers) == s.numConsumed + s.avail
    && (s.main.Waiting? && s.avail > 0 ==>
          exists i :: 0 <= i < |s.producers| && YetToSignal(s.producers[i]))
  }

  lemma ProducerKeepsMutex(s: State, i: nat)
    requires Inv(s) && Enabled(s, Produce(i))
    ensures MutexOk(ProducerNext(s, i))
  {
    var n := ProducerNext(s, i);
    assert s.mutex == Some(ProducerThread(i)) <==> s.producers[i].pc.ToIncrement? || s.producers[i].pc.ToUnlock?;
    forall k | 0 <= k < |n.producers|
      ensures n.mutex == Some(ProducerThread(k)) <==> n.producers[k].pc.ToIncrement? || n.producers[k].pc.ToUnlock?
    {
      assert s.mutex == Some(ProducerThread(k)) <==> s.producers[k].pc.ToIncrement? || s.producers[k].pc.ToUnlock?;
    }
  }

  lemma ProducerKeepsSignal(s: State, i: nat)
    requires Inv(s) && Enabled(s, Produce(i))
    ensures var n := ProducerNext(s, i);
            n.main.Waiting? && n.avail > 0 ==> exists k :: 0 <= k < |n.producers| && YetToSignal(n.producers[k])
  {
    var n := ProducerNext(s, i);
    if n.main.Waiting? && n.avail > 0 {
      if YetToSignal(n.producers[i]) {
      } else {
        var k :| 0 <= k < |s.producers| && YetToSignal(s.producers[k]);
        assert n.producers[k] == s.producers[k];
      }
    }
  }

  lemma ProducerKeepsCounts(s: State, i: nat)
    requires Inv(s) && Enabled(s, Produce(i))
    ensures var n := ProducerNext(s, i); Sum(Produced, n.producers) == n.numConsumed + n.avail
  {
    SumUpdate(Produced, s.producers, i, ProducerNext(s, i).producers[i]);
  }

  lemma ProducerKeepsOthers(s: State, i: nat)
    requires Inv(s) && Enabled(s, Produce(i))
    ensures var n := ProducerNext(s, i); ConsumerOk(n) && ProducersOk(n)
  {
    assert s.mutex == Some(ProducerThread(i)) <==> s.producers[i].pc.ToIncrement? || s.producers[i].pc.ToUnlock?;
  }

  lemma ProducerStep(s: State, i: nat)
    requires Inv(s) && Enabled(s, Produce(i))
    ensures Inv(ProducerNext(s, i))
  {
    ProducerKeepsMutex(s, i);
    ProducerKeepsOthers(s, i);
    ProducerKeepsCounts(s, i);
    ProducerKeepsSignal(s, i);
  }

  lemma MainStep(s: State)
    requires Inv(s) && Enabled(s, Main)
    ensures Inv(Next(s, Main))
  {
    var n := MainNext(s);
    if s.main.Creating? && s.created < |s.counts| {
      assert s.counts[..n.created] == s.counts[..s.created] + [s.counts[s.created]];
      SumSnoc(Value, s.counts[..s.created], s.counts[s.created]);
    }
  }

  lemma InvStep(s: State, a: Action)
    requires Inv(s) && Enabled(s, a)
    ensures Inv(Next(s, a))
  {
    match a
    case Produce(i) => ProducerStep(s, i);
    case Main => MainStep(s);
    case SpuriousWakeup =>
  }

  lemma InvInitially(counts: seq<int>)
    ensures Inv(Initial(counts))
  {
    SumConstant(Produced, Initial(counts).producers, 0);
  }

  lemma InvFrom(counts: seq<int>, s: State)
    requires Reaches(Program, Initial(counts), s)
    ensures Inv(s) && s.counts == counts
  {
    InvInitially(counts);
    var inv := (t: State) => Inv(t) && t.counts == counts;
    forall t, a | inv(t) && Program.enabled(t, a) ensures inv(Program.next(t, a)) {
      InvStep(t, a);
    }
    AlwaysReached(Program, inv, Initial(counts), s);
  }

  // ---------- what the program promises ----------

  lemma ProducedAtMost(s: State)
    requires Inv(s)
    ensures Sum(Produced, s.producers) <= Sum(Units, s.counts)
  {
    forall i | 0 <= i < |s.producers| ensures Produced(s.producers[i]) <= Units(s.counts[i]) {
      assert s.producers[i].j <= Units(s.counts[i]);
    }
    SumMonotone(Produced, s.producers, Units, s.counts);
  }

  /** No unit is lost or invented, in any interleaving. */
  lemma Conservation(s: State)
    requires Reachable(s)
    ensures Sum(Produced, s.producers) == s.numConsumed + s.avail
    ensures 0 <= s.avail && 0 <= s.numConsumed <= Sum(Units, s.counts)
  {
    InvFrom(s.counts, s);
    ProducedAtMost(s);
  }

  /** A consumer asleep while a unit is available will still be signalled. */
  lemma NoLostWakeup(s: State)
    requires Reachable(s) && s.main.Waiting? && s.avail > 0
    ensures exists i :: 0 <= i < |s.producers| && YetToSignal(s.producers[i])
  {
    InvFrom(s.counts, s);
  }

  predicate NoneNegative(counts: seq<int>) {
    forall i :: 0 <= i < |counts| ==> counts[i] >= 0
  }

  /** A spurious wakeup takes the mutex, finds nothing and goes back to sleep. */
  lemma SpuriousWakeupSleepsAgain(s: State)
    requires Reachable(s) && s.main.Waiting? && s.mutex.None? && s.avail == 0
    ensures var woken := Next(s, SpuriousWakeup);
            && Enabled(s, SpuriousWakeup) && Enabled(woken, Main) && woken != s
            && MainNext(woken).main.AtCheck? && MainNext(MainNext(woken)) == s
  {
    InvFrom(s.counts, s);
  }

  /** On exit the consumer has what it asked for; when no argument is
      negative it has exactly that, and nothing is left over (ExitCountsExact
      shows that this condition cannot be weakened). */
  lemma ExitCounts(s: State)
    requires Reachable(s) && s.main.Exited?
    ensures s.totRequired == Sum(Value, s.counts)
    ensures s.numConsumed >= s.totRequired
    ensures NoneNegative(s.counts) ==> s.numConsumed == s.totRequired && s.avail == 0
  {
    InvFrom(s.counts, s);
    assert s.counts[..s.created] == s.counts;
    ProducedAtMost(s);
    if NoneNegative(s.counts) {
      SumMonotone(Units, s.counts, Value, s.counts);
    }
  }

  /** Nothing but a spurious wakeup could move this state. */
  ghost predicate Deadlocked(s: State) {
    && !s.main.Exited?
    && forall a: Action :: !a.SpuriousWakeup? ==> !Enabled(s, a)
  }

  /** A consumer asleep with nothing available has not yet got everything, so
      some producer still has a unit to make. */
  lemma SomeoneStillProduces(s: State) returns (i: nat)
    requires Inv(s) && s.main.Waiting? && s.avail == 0 && Sum(Units, s.counts) > 0
    ensures i < |s.producers| && s.producers[i].j < s.counts[i]
  {
    assert s.counts[..s.created] == s.counts;
    SumMonotone(Value, s.counts, Units, s.counts);
    i := SumSmaller(Produced, s.producers, Units, s.counts);
  }

  /** No state before exit is deadlocked, as long as there is a unit to produce. */
  lemma NoDeadlock(s: State)
    requires Reachable(s) && Sum(Units, s.counts) > 0
    ensures !Deadlocked(s)
  {
    InvFrom(s.counts, s);
    if s.main.Exited? || Enabled(s, Main) {
    } else if s.mutex.Some? {
      var i := s.mutex.value.index;
      assert s.mutex == Some(ProducerThread(i)) <==> s.producers[i].pc.ToIncrement? || s.producers[i].pc.ToUnlock?;
      assert Enabled(s, Produce(i));
    } else if s.avail > 0 {
      var i :| 0 <= i < |s.producers| && YetToSignal(s.producers[i]);
      assert Enabled(s, Produce(i));
    } else {
      var i := SomeoneStillProduces(s);
      assert Enabled(s, Produce(i));
    }
  }

  /** The creation loop, run while no producer is scheduled. */
  lemma {:induction false} CreateAll(counts: seq<int>, s: State) returns (t: State)
    requires Reaches(Program, Initial(counts), s)
    requires s.main.Creating? && s.created <= |s.counts| && s.counts == counts && s.mutex.None? && s.avail == 0
    ensures Reaches(Program, Initial(counts), t)
    ensures t == s.(created := |counts|, totRequired := t.totRequired)
    decreases |counts| - s.created
  {
    if s.created == |counts| {
      t := s;
    } else {
      ReachesStep(Program, Initial(counts), s, Main);
      t := CreateAll(counts, MainNext(s));
    }
  }

  /** With nothing to produce the consumer waits for ever: the condition in
      NoDeadlock is exact. */
  lemma DeadlockWithoutUnits(counts: seq<int>)
    requires Sum(Units, counts) <= 0
    ensures exists s :: Reaches(Program, Initial(counts), s) && Deadlocked(s) && s.counts == counts
  {
    ReachesSelf(Program, Initial(counts));
    var s := CreateAll(counts, Initial(counts));
    ReachesStep(Program, Initial(counts), s, Main);
    var s1 := MainNext(s);
    ReachesStep(Program, Initial(counts), s1, Main);
    var s2 := MainNext(s1);
    ReachesStep(Program, Initial(counts), s2, Main);
    var s3 := MainNext(s2);
    SumNonNegative(Units, counts);
    forall a: Action | !a.SpuriousWakeup? ensures !Enabled(s3, a) {
      if a.Produce? && a.i < |counts| {
        assert Units(counts[a.i]) <= 0;
      }
    }
    assert Deadlocked(s3);
  }

  /** Deadlock is possible exactly when the arguments ask for no unit at all. */
  lemma DeadlockExact(counts: seq<int>)
    ensures (exists s :: Reaches(Program, Initial(counts), s) && Deadlocked(s)) <==> Sum(Units, counts) <= 0
  {
    if Sum(Units, counts) <= 0 {
      DeadlockWithoutUnits(counts);
    } else {
      forall s | Reaches(Program, Initial(counts), s) ensures !Deadlocked(s) {
        InvFrom(counts, s);
        NoDeadlock(s);
      }
    }
  }

  // ---------- every run comes to an end ----------

  function Rank(s: State): int {
    match s.main
    case Creating => 6 + |s.counts| - s.created
    case AtLock => 5
    case AtCheck => 4
    case Waiting => 3
    case Reacquire => 5
    case Consuming => if s.avail > 0 then 3 else 8
    case AtUnlock => 7
    case AtTest => 6
    case Exited => 0
  }

  /** Steps a producer has taken. */
  function Taken(p: Producer): int {
    4 * p.j + (match p.pc case ToLock => 0 case ToIncrement => 1 case ToUnlock => 2 case ToSignal => 3)
  }

  function FourTimes(cnt: int): int { 4 * Units(cnt) }

  function Measure(s: State): int {
    3 * (Sum(FourTimes, s.counts) - Sum(Taken, s.producers)) + 6 * (Sum(Units, s.counts) - s.numConsumed) + Rank(s)
  }

  lemma MainMeasure(s: State)
    requires Inv(s) && Enabled(s, Main)
    ensures Measure(MainNext(s)) < Measure(s)
  {
    var n := MainNext(s);
    assert n.counts == s.counts && n.producers == s.producers;
    assert Rank(n) - 6 * n.numConsumed < Rank(s) - 6 * s.numConsumed;
  }

  lemma ProducerMeasure(s: State, i: nat)
    requires Inv(s) && Enabled(s, Produce(i))
    ensures Measure(ProducerNext(s, i)) < Measure(s)
  {
    var n := ProducerNext(s, i);
    SumUpdate(Taken, s.producers, i, n.producers[i]);
    assert Taken(n.producers[i]) == Taken(s.producers[i]) + 1;
    assert s.mutex == Some(ProducerThread(i)) <==> s.producers[i].pc.ToIncrement? || s.producers[i].pc.ToUnlock?;
    assert Rank(n) <= Rank(s) + 2;
  }

  function SpuriousCost(a: Action): nat {
    if a.SpuriousWakeup? then 3 else 0
  }

  lemma MeasureStep(s: State, a: Action)
    requires Inv(s) && Enabled(s, a)
    ensures Measure(Next(s, a)) < Measure(s) + SpuriousCost(a)
  {
    match a
    case Produce(i) => ProducerMeasure(s, i);
    case Main => MainMeasure(s);
    case SpuriousWakeup =>
  }

  lemma MeasureNonNegative(s: State)
    requires Inv(s)
    ensures Measure(s) >= 0
  {
    ProducedAtMost(s);
    forall i | 0 <= i < |s.producers| ensures Taken(s.producers[i]) <= FourTimes(s.counts[i]) {
      assert s.producers[i].j <= Units(s.counts[i]);
    }
    SumMonotone(Taken, s.producers, FourTimes, s.counts);
  }

  lemma {:induction false} FourTimesSum(counts: seq<int>)
    ensures Sum(FourTimes, counts) == 4 * Sum(Units, counts)
  {
    if counts != [] {
      FourTimesSum(counts[1..]);
    }
  }

  /** However the threads are scheduled, only spurious wakeups can prolong a run. */
  lemma RunsEnd(counts: seq<int>, run: seq<Action>)
    requires Feasible(Program, Initial(counts), run)
    ensures |run| <= 18 * Sum(Units, counts) + |counts| + 6 + Cost(SpuriousCost, run)
  {
    InvInitially(counts);
    forall t, a | Inv(t) && Program.enabled(t, a)
      ensures Inv(Program.next(t, a)) && Measure(Program.next(t, a)) < Measure(t) + SpuriousCost(a)
    {
      InvStep(t, a);
      MeasureStep(t, a);
    }
    Bounded(Program, Inv, Measure, SpuriousCost, Initial(counts), run);
    InvFrom(counts, After(Program, Initial(counts), run));
    MeasureNonNegative(After(Program, Initial(counts), run));
    SumConstant(Taken, Initial(counts).producers, 0);
    FourTimesSum(counts);
  }

  /** A run that is not cut short, one after which nothing but a spurious wakeup
      could follow, has exited with what was required. */
  lemma CompleteRuns(counts: seq<int>, run: seq<Action>)
    requires Feasible(Program, Initial(counts), run) && Sum(Units, counts) > 0
    requires forall a: Action :: !a.SpuriousWakeup? ==> !Enabled(After(Program, Initial(counts), run), a)
    ensures var s := After(Program, Initial(counts), run);
            && s.main.Exited?
            && s.numConsumed >= s.totRequired == Sum(Value, counts)
            && (NoneNegative(counts) ==> s.numConsumed == s.totRequired && s.avail == 0)
  {
    var s := After(Program, Initial(counts), run);
    InvFrom(counts, s);
    NoDeadlock(s);
    ExitCounts(s);
  }

  // ---------- exactly when the exit counts agree ----------

  predicate ProducersEnded(s: State) {
    && |s.producers| == |s.counts|
    && forall i :: 0 <= i < |s.producers| ==> s.producers[i] == Producer(Units(s.counts[i]), ToLock)
  }

  /** Before main takes the mutex the producers can run to their end. */
  lemma {:induction false} LetProducersEnd(counts: seq<int>, s: State) returns (t: State)
    requires Reaches(Program, Initial(counts), s) && s.main.Creating? && s.created == |counts|
    ensures Reaches(Program, Initial(counts), t) && t.main.Creating? && ProducersEnded(t)
    decreases Measure(s)
  {
    InvFrom(counts, s);
    MeasureNonNegative(s);
    if ProducersEnded(s) {
      t := s;
    } else {
      // a producer with units left can go on, or else the one with the mutex can
      var i: nat :| i < |s.producers| && s.producers[i] != Producer(Units(s.counts[i]), ToLock);
      if s.mutex.Some? && s.producers[i].pc.ToLock? {
        i := s.mutex.value.index;
        assert s.mutex == Some(ProducerThread(i)) <==> s.producers[i].pc.ToIncrement? || s.producers[i].pc.ToUnlock?;
      }
      ReachesStep(Program, Initial(counts), s, Produce(i));
      ProducerMeasure(s, i);
      t := LetProducersEnd(counts, ProducerNext(s, i));
    }
  }

  /** With the producers gone main consumes all they have made and exits. */
  lemma {:induction false} LetMainFinish(counts: seq<int>, s: State) returns (t: State)
    requires Reaches(Program, Initial(counts), s) && ProducersEnded(s) && Sum(Units, counts) > 0
    requires s.main.AtTest? || s.main.Exited? ==> s.avail == 0
    ensures Reaches(Program, Initial(counts), t) && t.main.Exited?
    ensures t.numConsumed == Sum(Units, counts) && t.avail == 0
    decreases Measure(s)
  {
    InvFrom(counts, s);
    MeasureNonNegative(s);
    if s.main.Exited? {
      SumMonotone(Produced, s.producers, Units, s.counts);
      SumMonotone(Units, s.counts, Produced, s.producers);
      t := s;
    } else {
      NoDeadlock(s);
      var a: Action :| !a.SpuriousWakeup? && Enabled(s, a);
      assert a.Main?;
      ReachesStep(Program, Initial(counts), s, Main);
      MainMeasure(s);
      t := LetMainFinish(counts, MainNext(s));
    }
  }

  /** Some schedule lets the consumer have every unit there is, whatever the
      arguments add up to. */
  lemma CanConsumeEverything(counts: seq<int>) returns (t: State)
    requires Sum(Units, counts) > 0
    ensures Reaches(Program, Initial(counts), t) && t.main.Exited?
    ensures t.numConsumed == Sum(Units, counts) && t.avail == 0
  {
    ReachesSelf(Program, Initial(counts));
    var s := CreateAll(counts, Initial(counts));
    s := LetProducersEnd(counts, s);
    t := LetMainFinish(counts, s);
  }

  lemma NegativeLowersTotal(counts: seq<int>)
    ensures Sum(Value, counts) <= Sum(Units, counts)
    ensures Sum(Value, counts) == Sum(Units, counts) <==> NoneNegative(counts)
  {
    SumMonotone(Value, counts, Units, counts);
    if NoneNegative(counts) {
      SumMonotone(Units, counts, Value, counts);
    } else {
      var i :| 0 <= i < |counts| && counts[i] < 0;
      SumUpdate(Value, counts, i, 0);
      SumMonotone(Value, counts[i := 0], Units, counts);
    }
  }

  /** The consumer is sure to exit with exactly what it asked for if and only
      if no argument is negative, or there is no unit and it never exits. */
  lemma ExitCountsExact(counts: seq<int>)
    ensures (forall s :: Reaches(Program, Initial(counts), s) && s.main.Exited? ==>
               s.numConsumed == s.totRequired && s.avail == 0)
       <==> NoneNegative(counts) || Sum(Units, counts) <= 0
  {
    NegativeLowersTotal(counts);
    forall s | Reaches(Program, Initial(counts), s) && s.main.Exited?
      ensures s.totRequired == Sum(Value, counts) && Sum(Units, counts) > 0
      ensures NoneNegative(counts) ==> s.numConsumed == s.totRequired && s.avail == 0
    {
      InvFrom(counts, s);
      ExitCounts(s);
      ProducedAtMost(s);
    }
    if Sum(Units, counts) > 0 {
      var t := CanConsumeEverything(counts);
      assert t.totRequired == Sum(Value, counts);
    }
  }

  /** Asked for one unit by the arguments -1 and 2, it can consume both that
      the second producer makes. */
  lemma NegativeArgument()
    ensures exists s :: Reaches(Program, Initial([-1, 2]), s) &&
              s.main.Exited? && s.totRequired == 1 && s.numConsumed == 2
  {
    var counts := [-1, 2];
    assert counts[1..] == [2];
    assert Sum(Units, counts) == 2 && Sum(Value, counts) == 1;
    var s := CanConsumeEverything(counts);
    InvFrom(counts, s);
    ExitCounts(s);
  }

  // ---------- the consuming loop itself ----------

  /** The data main works on between locking and unlocking the mutex. */
  class Stock {
    var avail: int
    var numConsumed: int
    var done: bool

    constructor ()
      ensures avail == 0 && numConsumed == 0 && !done
    {
      avail, numConsumed, done := 0, 0, false;
    }

    /** Consume all available units, as a sequence of steps of the machine. */
    method ConsumeAll(totRequired: int, ghost s: State)
      requires s.main.Consuming? && s.totRequired == totRequired
      requires s.avail == avail >= 0 && s.numConsumed == numConsumed && s.done == done
      modifies this
      ensures avail == 0 && numConsumed == old(numConsumed) + old(avail)
      ensures done == if old(avail) == 0 then old(done) else numConsumed >= totRequired
      ensures Reaches(Program, s, s.(avail := avail, numConsumed := numConsumed, done := done))
    {
      ReachesSelf(Program, s);
      while avail > 0
        invariant 0 <= avail <= old(avail) && numConsumed == old(numConsumed) + old(avail) - avail
        invariant done == if avail == old(avail) then old(done) else numConsumed >= totRequired
        invariant Reaches(Program, s, s.(avail := avail, numConsumed := numConsumed, done := done))
      {
        ReachesStep(Program, s, s.(avail := avail, numConsumed := numConsumed, done := done), Main);
        numConsumed := numConsumed + 1;
        avail := avail - 1;
        done := numConsumed >= totRequired;
      }
    }
  }
}
