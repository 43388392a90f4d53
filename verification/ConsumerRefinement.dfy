/** The condition-variable consumer refines the polling consumer: waiting and
    waking are invisible, and what is left is a run of the polling program
    that makes the same updates to avail and numConsumed in the same order. */
module ConsumerRefinement {
  import opened Runs
  import opened Wrappers
  import C = CondvarConsumer
  import P = PollingConsumer

  // ---------- the abstraction ----------

  /** A producer about to signal has finished its iteration as far as the
      polling program can tell. */
  function Producer(p: C.Producer): P.Producer {
    match p.pc
    case ToLock => P.Producer(p.j, P.ToLock)
    case ToIncrement => P.Producer(p.j, P.ToIncrement)
    case ToUnlock => P.Producer(p.j, P.ToUnlock)
    case ToSignal => P.Producer(p.j + 1, P.ToLock)
  }

  function Tid(t: C.Tid): P.Tid {
    match t
    case MainThread => P.MainThread
    case ProducerThread(i) => P.ProducerThread(i)
  }

  function Mutex(m: Option<C.Tid>): Option<P.Tid> {
    match m
    case None => None
    case Some(t) => Some(Tid(t))
  }

  /** Asleep in the wait, or woken and without the mutex, the consumer is at
      the top of its next polling round. */
  function Main(pc: C.MainPc): P.MainPc {
    match pc
    case Creating => P.Creating
    case AtLock | Waiting | Reacquire => P.AtLock
    case AtCheck | Consuming => P.Consuming
    case AtUnlock => P.AtUnlock
    case AtTest => P.AtTest
    case Exited => P.Exited
  }

  function Abs(s: C.State): P.State {
    P.State(s.counts, s.created, s.totRequired,
            seq(|s.producers|, i requires 0 <= i < |s.producers| => Producer(s.producers[i])),
            Mutex(s.mutex), s.avail, s.numConsumed, s.done, Main(s.main))
  }

  // ---------- what can be observed ----------

  datatype Observation = Observation(avail: int, numConsumed: int)

  function ObserveC(s: C.State): Observation {
    Observation(s.avail, s.numConsumed)
  }

  function ObserveP(s: P.State): Observation {
    Observation(s.avail, s.numConsumed)
  }

  /** The successive values of (avail, numConsumed), without repetitions. */
  ghost function Updates<S, A>(m: Machine<S, A>, observe: S -> Observation, s: S, run: seq<A>): seq<Observation> {
    if run == [] then []
    else
      var n := m.next(s, run[0]);
      (if observe(n) == observe(s) then [] else [observe(n)]) + Updates(m, observe, n, run[1..])
  }

  lemma {:induction false} UpdatesConcatenate<S, A>(
    m: Machine<S, A>, observe: S -> Observation, s: S, first: seq<A>, second: seq<A>)
    requires Feasible(m, s, first)
    ensures Updates(m, observe, s, first + second)
         == Updates(m, observe, s, first) + Updates(m, observe, After(m, s, first), second)
    decreases |first|
  {
    if first == [] {
      assert first + second == second;
    } else {
      UpdatesConcatenate(m, observe, m.next(s, first[0]), first[1..], second);
      assert (first + second)[1..] == first[1..] + second;
    }
  }

  // ---------- one step ----------

  /** The polling steps one step stands for: none for a signal or a wakeup,
      a whole empty round for going to sleep, otherwise the same step. */
  function Steps(s: C.State, a: C.Action): seq<P.Action> {
    match a
    case SpuriousWakeup => []
    case Produce(i) => if i < |s.producers| && s.producers[i].pc.ToSignal? then [] else [P.Produce(i)]
    case Main =>
      if s.main.AtCheck? then (if s.avail == 0 then [P.Main, P.Main, P.Main] else [])
      else [P.Main]
  }

  lemma OneStep(s: P.State, a: P.Action)
    requires P.Enabled(s, a)
    ensures Feasible(P.Program, s, [a]) && After(P.Program, s, [a]) == P.Next(s, a)
    ensures Updates(P.Program, ObserveP, s, [a]) ==
            if ObserveP(P.Next(s, a)) == ObserveP(s) then [] else [ObserveP(P.Next(s, a))]
  {
    assert [a][1..] == [];
    assert Feasible(P.Program, P.Next(s, a), [a][1..]);
    assert Updates(P.Program, ObserveP, P.Next(s, a), [a][1..]) == [];
  }

  lemma ProducerStep(s: C.State, i: nat)
    requires C.Enabled(s, C.Produce(i))
    ensures s.producers[i].pc.ToSignal? ==> Abs(C.ProducerNext(s, i)) == Abs(s)
    ensures !s.producers[i].pc.ToSignal? ==>
              P.Enabled(Abs(s), P.Produce(i)) && Abs(C.ProducerNext(s, i)) == P.ProducerNext(Abs(s), i)
  {
    var n := C.ProducerNext(s, i);
    if s.producers[i].pc.ToSignal? {
      assert Abs(n).producers == Abs(s).producers;
    } else {
      assert Abs(n).producers == P.ProducerNext(Abs(s), i).producers;
    }
  }

  lemma MainStep(s: C.State)
    requires C.Inv(s) && C.Enabled(s, C.Main) && !s.main.AtCheck?
    ensures P.Enabled(Abs(s), P.Main) && Abs(C.MainNext(s)) == P.MainNext(Abs(s))
  {
  }

  /** Going to sleep is an empty polling round: leave the consuming loop at
      once, unlock, find done false and start over. */
  lemma SleepStep(s: C.State)
    requires C.Inv(s) && s.main.AtCheck? && s.avail == 0
    ensures Feasible(P.Program, Abs(s), [P.Main, P.Main, P.Main])
    ensures After(P.Program, Abs(s), [P.Main, P.Main, P.Main]) == Abs(C.MainNext(s))
    ensures Updates(P.Program, ObserveP, Abs(s), [P.Main, P.Main, P.Main]) == []
  {
    var s1 := P.MainNext(Abs(s));
    var s2 := P.MainNext(s1);
    OneStep(Abs(s), P.Main);
    OneStep(s1, P.Main);
    OneStep(s2, P.Main);
    assert [P.Main] + [P.Main] == [P.Main, P.Main];
    assert [P.Main, P.Main] + [P.Main] == [P.Main, P.Main, P.Main];
    Concatenate(P.Program, Abs(s), [P.Main], [P.Main]);
    Concatenate(P.Program, Abs(s), [P.Main, P.Main], [P.Main]);
    UpdatesConcatenate(P.Program, ObserveP, Abs(s), [P.Main], [P.Main]);
    UpdatesConcatenate(P.Program, ObserveP, Abs(s), [P.Main, P.Main], [P.Main]);
  }

  lemma Step(s: C.State, a: C.Action)
    requires C.Inv(s) && C.Enabled(s, a)
    ensures Feasible(P.Program, Abs(s), Steps(s, a))
    ensures After(P.Program, Abs(s), Steps(s, a)) == Abs(C.Next(s, a))
    ensures Updates(P.Program, ObserveP, Abs(s), Steps(s, a))
         == if ObserveC(C.Next(s, a)) == ObserveC(s) then [] else [ObserveC(C.Next(s, a))]
  {
    match a {
      case SpuriousWakeup =>
      case Produce(i) =>
        ProducerStep(s, i);
        if !s.producers[i].pc.ToSignal? {
          OneStep(Abs(s), P.Produce(i));
        }
      case Main =>
        if s.main.AtCheck? && s.avail == 0 {
          SleepStep(s);
        } else if !s.main.AtCheck? {
          MainStep(s);
          OneStep(Abs(s), P.Main);
        }
    }
  }

  // ---------- whole runs ----------

  function Translate(s: C.State, run: seq<C.Action>): seq<P.Action>
    decreases |run|
  {
    if run == [] then [] else Steps(s, run[0]) + Translate(C.Next(s, run[0]), run[1..])
  }

  lemma {:induction false} TranslatedRun(s: C.State, run: seq<C.Action>)
    requires C.Inv(s) && Feasible(C.Program, s, run)
    ensures Feasible(P.Program, Abs(s), Translate(s, run))
    ensures After(P.Program, Abs(s), Translate(s, run)) == Abs(After(C.Program, s, run))
    ensures Updates(P.Program, ObserveP, Abs(s), Translate(s, run)) == Updates(C.Program, ObserveC, s, run)
    decreases |run|
  {
    if run != [] {
      var n := C.Next(s, run[0]);
      C.InvStep(s, run[0]);
      Step(s, run[0]);
      TranslatedRun(n, run[1..]);
      Concatenate(P.Program, Abs(s), Steps(s, run[0]), Translate(n, run[1..]));
      UpdatesConcatenate(P.Program, ObserveP, Abs(s), Steps(s, run[0]), Translate(n, run[1..]));
    }
  }

  /** Every run of the condition-variable program, spurious wakeups included,
      is matched by a run of the polling program from its own start, with the
      same updates and corresponding final states. */
  lemma Refinement(counts: seq<int>, run: seq<C.Action>)
    requires Feasible(C.Program, C.Initial(counts), run)
    ensures exists polling: seq<P.Action> ::
              && Feasible(P.Program, P.Initial(counts), polling)
              && After(P.Program, P.Initial(counts), polling) == Abs(After(C.Program, C.Initial(counts), run))
              && Updates(P.Program, ObserveP, P.Initial(counts), polling)
                 == Updates(C.Program, ObserveC, C.Initial(counts), run)
  {
    C.InvInitially(counts);
    TranslatedRun(C.Initial(counts), run);
    assert Abs(C.Initial(counts)) == P.Initial(counts);
  }
  // ---------- and back ----------

  function BackProducer(p: P.Producer): C.Producer {
    match p.pc
    case ToLock => C.Producer(p.j, C.ToLock)
    case ToIncrement => C.Producer(p.j, C.ToIncrement)
    case ToUnlock => C.Producer(p.j, C.ToUnlock)
  }

  function BackMutex(m: Option<P.Tid>): Option<C.Tid> {
    match m
    case None => None
    case Some(MainThread) => Some(C.MainThread)
    case Some(ProducerThread(i)) => Some(C.ProducerThread(i))
  }

  function BackMain(pc: P.MainPc): C.MainPc {
    match pc
    case Creating => C.Creating
    case AtLock => C.AtLock
    case Consuming => C.Consuming
    case AtUnlock => C.AtUnlock
    case AtTest => C.AtTest
    case Exited => C.Exited
  }

  /** The consumer is in a polling round that found nothing. */
  predicate Idle(s: P.State) {
    !s.done && ((s.main.Consuming? && s.avail == 0) || s.main.AtUnlock? || s.main.AtTest?)
  }

  /** The other program in the same situation.  In an idle round it has not taken
      the mutex yet, and a producer that unlocks signals at once. */
  function Back(s: P.State, idle: bool): C.State {
    C.State(s.counts, s.created, s.totRequired,
            seq(|s.producers|, i requires 0 <= i < |s.producers| => BackProducer(s.producers[i])),
            if idle && s.mutex == Some(P.MainThread) then None else BackMutex(s.mutex),
            s.avail, s.numConsumed, s.done, if idle then C.AtLock else BackMain(s.main))
  }

  function BackSteps(s: P.State, idle: bool, a: P.Action): seq<C.Action> {
    match a
    case Produce(i) =>
      if i < |s.producers| && s.producers[i].pc.ToUnlock? then [C.Produce(i), C.Produce(i)] else [C.Produce(i)]
    case Main =>
      if idle then []
      else if s.main.AtLock? then (if s.avail == 0 then [] else [C.Main, C.Main])
      else [C.Main]
  }

  /** Whether the round is idle after a step. */
  predicate StillIdle(s: P.State, idle: bool, a: P.Action) {
    if a.Produce? then idle
    else if idle then !s.main.AtTest?
    else s.main.AtLock? && s.avail == 0
  }

  lemma OneBackStep(s: C.State, a: C.Action)
    requires C.Enabled(s, a)
    ensures Feasible(C.Program, s, [a]) && After(C.Program, s, [a]) == C.Next(s, a)
    ensures Updates(C.Program, ObserveC, s, [a]) ==
            if ObserveC(C.Next(s, a)) == ObserveC(s) then [] else [ObserveC(C.Next(s, a))]
  {
    assert [a][1..] == [];
    assert Feasible(C.Program, C.Next(s, a), []);
  }

  /** Two steps of which only one can be observed. */
  lemma TwoBackSteps(s: C.State, a: C.Action, b: C.Action)
    requires C.Enabled(s, a) && C.Enabled(C.Next(s, a), b)
    requires ObserveC(C.Next(s, a)) == ObserveC(s) == ObserveC(C.Next(C.Next(s, a), b))
    ensures Feasible(C.Program, s, [a, b]) && After(C.Program, s, [a, b]) == C.Next(C.Next(s, a), b)
    ensures Updates(C.Program, ObserveC, s, [a, b]) == []
  {
    assert [a, b][1..] == [b];
    OneBackStep(C.Next(s, a), b);
  }

  predicate Matches(s: P.State, idle: bool) {
    P.Inv(s) && (idle ==> Idle(s))
  }

  lemma BackProduce(s: P.State, idle: bool, i: nat)
    requires Matches(s, idle) && P.Enabled(s, P.Produce(i))
    ensures C.Enabled(Back(s, idle), C.Produce(i))
    ensures var c := C.ProducerNext(Back(s, idle), i);
            if s.producers[i].pc.ToUnlock?
            then C.Enabled(c, C.Produce(i)) && C.ProducerNext(c, i) == Back(P.ProducerNext(s, i), idle)
            else c == Back(P.ProducerNext(s, i), idle)
    ensures idle ==> Idle(P.ProducerNext(s, i))
  {
    assert s.mutex == Some(P.ProducerThread(i)) <==> s.producers[i].pc.ToIncrement? || s.producers[i].pc.ToUnlock?;
    var c, n := C.ProducerNext(Back(s, idle), i), P.ProducerNext(s, i);
    if s.producers[i].pc.ToUnlock? {
      assert C.ProducerNext(c, i).producers == Back(n, idle).producers;
    } else {
      assert c.producers == Back(n, idle).producers;
    }
  }

  /** The steps of the other program get to the corresponding state with the
      same update, if any. */
  ghost predicate BackStepOk(s: P.State, idle: bool, a: P.Action) {
    var c, n := Back(s, idle), P.Next(s, a);
    && Feasible(C.Program, c, BackSteps(s, idle, a))
    && After(C.Program, c, BackSteps(s, idle, a)) == Back(n, StillIdle(s, idle, a))
    && Updates(C.Program, ObserveC, c, BackSteps(s, idle, a)) ==
       if ObserveP(n) == ObserveP(s) then [] else [ObserveP(n)]
  }

  lemma BackProduceStep(s: P.State, idle: bool, i: nat)
    requires Matches(s, idle) && P.Enabled(s, P.Produce(i))
    ensures BackStepOk(s, idle, P.Produce(i))
  {
    BackProduce(s, idle, i);
    if s.producers[i].pc.ToUnlock? {
      TwoBackSteps(Back(s, idle), C.Produce(i), C.Produce(i));
    } else {
      OneBackStep(Back(s, idle), C.Produce(i));
    }
  }

  lemma BackMainStep(s: P.State, idle: bool)
    requires Matches(s, idle) && P.Enabled(s, P.Main)
    ensures BackStepOk(s, idle, P.Main)
  {
    if idle || (s.main.AtLock? && s.avail == 0) {
    } else if s.main.AtLock? {
      TwoBackSteps(Back(s, idle), C.Main, C.Main);
    } else {
      OneBackStep(Back(s, idle), C.Main);
    }
  }

  /** What a step of the polling program stands for in the other one. */
  lemma BackStep(s: P.State, idle: bool, a: P.Action)
    requires Matches(s, idle) && P.Enabled(s, a)
    ensures Matches(P.Next(s, a), StillIdle(s, idle, a)) && BackStepOk(s, idle, a)
  {
    P.InvStep(s, a);
    match a
    case Produce(i) => BackProduceStep(s, idle, i); BackProduce(s, idle, i);
    case Main => BackMainStep(s, idle);
  }

  lemma StepsAndRest(c: C.State, steps: seq<C.Action>, rest: seq<C.Action>)
    requires Feasible(C.Program, c, steps) && Feasible(C.Program, After(C.Program, c, steps), rest)
    ensures Feasible(C.Program, c, steps + rest)
    ensures After(C.Program, c, steps + rest) == After(C.Program, After(C.Program, c, steps), rest)
    ensures Updates(C.Program, ObserveC, c, steps + rest)
         == Updates(C.Program, ObserveC, c, steps) + Updates(C.Program, ObserveC, After(C.Program, c, steps), rest)
  {
    Concatenate(C.Program, c, steps, rest);
    UpdatesConcatenate(C.Program, ObserveC, c, steps, rest);
  }

  lemma {:induction false} BackRun(s: P.State, idle: bool, run: seq<P.Action>) returns (back: seq<C.Action>, ends: bool)
    requires Matches(s, idle) && Feasible(P.Program, s, run)
    ensures Feasible(C.Program, Back(s, idle), back) && C.SpuriousWakeup !in back
    ensures ends ==> Idle(After(P.Program, s, run))
    ensures After(C.Program, Back(s, idle), back) == Back(After(P.Program, s, run), ends)
    ensures Updates(C.Program, ObserveC, Back(s, idle), back) == Updates(P.Program, ObserveP, s, run)
    decreases |run|
  {
    if run == [] {
      back, ends := [], idle;
    } else {
      var a := run[0];
      BackStep(s, idle, a);
      var steps := BackSteps(s, idle, a);
      var rest;
      rest, ends := BackRun(P.Next(s, a), StillIdle(s, idle, a), run[1..]);
      StepsAndRest(Back(s, idle), steps, rest);
      back := steps + rest;
    }
  }

  /** Every run of the polling program is matched by one of the other, without
      spurious wakeups, with the same updates; and it exits if that one does. */
  lemma ReverseRefinement(counts: seq<int>, run: seq<P.Action>)
    requires Feasible(P.Program, P.Initial(counts), run)
    ensures exists back: seq<C.Action> ::
              && Feasible(C.Program, C.Initial(counts), back) && C.SpuriousWakeup !in back
              && Updates(C.Program, ObserveC, C.Initial(counts), back)
                 == Updates(P.Program, ObserveP, P.Initial(counts), run)
              && (After(P.Program, P.Initial(counts), run).main.Exited? ==>
                    After(C.Program, C.Initial(counts), back).main.Exited?)
  {
    assert Back(P.Initial(counts), false) == C.Initial(counts);
    var back, ends := BackRun(P.Initial(counts), false, run);
  }

  // ---------- one unit at a time ----------

  /** A unit has been produced, or one has been consumed. */
  predicate OneUnit(before: Observation, after: Observation) {
    || after == Observation(before.avail + 1, before.numConsumed)
    || after == Observation(before.avail - 1, before.numConsumed + 1)
  }

  predicate UnitByUnit(start: Observation, updates: seq<Observation>)
    decreases |updates|
  {
    updates == [] || (OneUnit(start, updates[0]) && UnitByUnit(updates[0], updates[1..]))
  }

  lemma UnitStep(s: P.State, a: P.Action)
    requires P.Enabled(s, a) && ObserveP(P.Next(s, a)) != ObserveP(s)
    ensures OneUnit(ObserveP(s), ObserveP(P.Next(s, a)))
  {
  }

  /** Units come and go one by one in every run. */
  lemma {:induction false} UpdatesAreUnits(s: P.State, run: seq<P.Action>)
    requires Feasible(P.Program, s, run)
    ensures UnitByUnit(ObserveP(s), Updates(P.Program, ObserveP, s, run))
    decreases |run|
  {
    if run != [] {
      var n := P.Next(s, run[0]);
      UpdatesAreUnits(n, run[1..]);
      var rest := Updates(P.Program, ObserveP, n, run[1..]);
      if ObserveP(n) == ObserveP(s) {
        assert [] + rest == rest;
      } else {
        UnitStep(s, run[0]);
        assert ([ObserveP(n)] + rest)[1..] == rest;
      }
    }
  }

  // ---------- the same behaviours ----------

  ghost predicate PollingShows(counts: seq<int>, updates: seq<Observation>, exits: bool) {
    exists run: seq<P.Action> ::
      && Feasible(P.Program, P.Initial(counts), run)
      && Updates(P.Program, ObserveP, P.Initial(counts), run) == updates
      && (exits ==> After(P.Program, P.Initial(counts), run).main.Exited?)
  }

  ghost predicate CondvarShows(counts: seq<int>, updates: seq<Observation>, exits: bool, spurious: bool) {
    exists run: seq<C.Action> ::
      && Feasible(C.Program, C.Initial(counts), run)
      && Updates(C.Program, ObserveC, C.Initial(counts), run) == updates
      && (exits ==> After(C.Program, C.Initial(counts), run).main.Exited?)
      && (!spurious ==> C.SpuriousWakeup !in run)
  }

  /** The two programs show the same sequences of updates, on all runs as on
      those that exit, and whether or not wakeups may be spurious. */
  lemma SameUpdates(counts: seq<int>, updates: seq<Observation>, exits: bool, spurious: bool)
    ensures CondvarShows(counts, updates, exits, spurious) <==> PollingShows(counts, updates, exits)
    ensures PollingShows(counts, updates, exits) ==> UnitByUnit(Observation(0, 0), updates)
  {
    if CondvarShows(counts, updates, exits, spurious) {
      var run: seq<C.Action> :|
        && Feasible(C.Program, C.Initial(counts), run)
        && Updates(C.Program, ObserveC, C.Initial(counts), run) == updates
        && (exits ==> After(C.Program, C.Initial(counts), run).main.Exited?);
      Refinement(counts, run);
    }
    if PollingShows(counts, updates, exits) {
      var run: seq<P.Action> :|
        && Feasible(P.Program, P.Initial(counts), run)
        && Updates(P.Program, ObserveP, P.Initial(counts), run) == updates
        && (exits ==> After(P.Program, P.Initial(counts), run).main.Exited?);
      ReverseRefinement(counts, run);
      UpdatesAreUnits(P.Initial(counts), run);
    }
  }
}
