/** Message notification by threads (52-posix-msgqueue/mq_notify_thread.c).

    Each notification starts a new thread, which registers again before it
    drains the queue; any number of these threads may overlap. */
module NotifyThread {
  import opened Counting
  import opened MessageQueue
  import opened Runs

  /** A notification thread before its notifySetup(), in its mq_receive() loop,
      or past the EAGAIN that ends the loop. */
  datatype ThreadPc = BeforeSetup | Draining | Ended

  datatype MainPc = Registering | Paused

  datatype State = State(
    maxMessages: nat,
    queue: seq<Message>,
    registered: bool,
    threads: seq<ThreadPc>,
    main: MainPc,
    late: bool,                 // the first registration found a message queued
    aborted: bool,              // some mq_notify() failed and errExit() was called
    sent: seq<Message>,
    received: seq<Message>)

  datatype Action = Send(m: Message) | Main | Thread(i: nat)

  predicate Enabled(s: State, a: Action) {
    && !s.aborted
    && match a
       case Send(m) => |s.queue| < s.maxMessages
       case Main => s.main.Registering?
       case Thread(i) => i < |s.threads| && !s.threads[i].Ended?
  }

  function SendNext(s: State, m: Message): State {
    var notify := s.queue == [] && s.registered;
    s.(queue := Insert(s.queue, m), sent := s.sent + [m],
       registered := s.registered && !notify,
       threads := if notify then s.threads + [BeforeSetup] else s.threads)
  }

  /** mq_notify() fails when a process is registered already. */
  function NotifySetup(s: State): State {
    if s.registered then s.(aborted := true) else s.(registered := true)
  }

  function ThreadNext(s: State, i: nat): State
    requires i < |s.threads|
  {
    match s.threads[i]
    case BeforeSetup => NotifySetup(s).(threads := s.threads[i := Draining])
    case Draining =>
      if s.queue == [] then s.(threads := s.threads[i := Ended])
      else s.(queue := s.queue[1..], received := s.received + [s.queue[0]])
    case Ended => s
  }

  function Next(s: State, a: Action): State {
    match a
    case Send(m) => SendNext(s, m)
    case Main => NotifySetup(s).(main := Paused, late := s.queue != [])
    case Thread(i) => if i < |s.threads| then ThreadNext(s, i) else s
  }

  const Program: Machine<State, Action> := Machine(Enabled, Next)

  function Initial(maxMessages: nat): State {
    State(maxMessages, [], false, [], Registering, false, false, [], [])
  }

  ghost predicate Reachable(s: State) {
    Reaches(Program, Initial(s.maxMessages), s)
  }

  // ---------- the invariant ----------

  function AtSetup(t: ThreadPc): int { if t.BeforeSetup? then 1 else 0 }

  predicate SomeThreadWillRead(s: State) {
    exists i :: 0 <= i < |s.threads| && !s.threads[i].Ended?
  }

  predicate ProtocolOk(s: State) {
    && !s.aborted
    && (s.main.Registering? ==> !s.registered && s.threads == [] && !s.late)
    && (s.late ==> s.registered && s.threads == [] && s.queue != [])
    && (s.main.Paused? && !s.late ==>
          && Sum(AtSetup, s.threads) == (if s.registered then 0 else 1)
          && (s.queue != [] ==> SomeThreadWillRead(s)))
  }

  ghost predicate Inv(s: State) {
    ProtocolOk(s) && Accounted(s.sent, s.received, s.queue) && |s.queue| <= s.maxMessages
  }

  lemma SendStep(s: State, m: Message)
    requires Inv(s) && Enabled(s, Send(m))
    ensures Inv(SendNext(s, m))
  {
    AccountedSend(s.sent, s.received, s.queue, m);
    InsertContents(s.queue, m);
    var n := SendNext(s, m);
    if s.queue == [] && s.registered {
      SumSnoc(AtSetup, s.threads, BeforeSetup);
      assert n.threads[|s.threads|].BeforeSetup?;
    } else if s.main.Paused? && !s.late && s.queue == [] {
      var i := SumPositive(AtSetup, s.threads);
      assert !n.threads[i].Ended?;
    }
  }

  lemma ThreadStep(s: State, i: nat)
    requires Inv(s) && Enabled(s, Thread(i))
    ensures Inv(ThreadNext(s, i))
  {
    var n := ThreadNext(s, i);
    SumNonNegative(AtSetup, s.threads);
    SumUpdate(AtSetup, s.threads, i, n.threads[i]);
    if s.threads[i].BeforeSetup? {
      assert AtSetup(s.threads[i]) <= Sum(AtSetup, s.threads);
      assert !n.threads[i].Ended?;
    } else if s.queue != [] {
      AccountedReceive(s.sent, s.received, s.queue);
      assert !n.threads[i].Ended?;
    }
  }

  lemma InvStep(s: State, a: Action)
    requires Inv(s) && Enabled(s, a)
    ensures Inv(Next(s, a))
  {
    match a
    case Send(m) => SendStep(s, m);
    case Main =>
    case Thread(i) => ThreadStep(s, i);
  }

  lemma InvAlways(s: State)
    requires Reachable(s)
    ensures Inv(s)
  {
    forall t, a | Inv(t) && Program.enabled(t, a) ensures Inv(Program.next(t, a)) {
      InvStep(t, a);
    }
    AlwaysReached(Program, Inv, Initial(s.maxMessages), s);
  }

  // ---------- what the program promises ----------

  /** However the threads overlap, the registration is active and no thread is
      before its notifySetup(), or it is not and exactly one thread is.  So
      mq_notify() never finds a registration. */
  lemma OneRegistration(s: State)
    requires Reachable(s)
    ensures !s.aborted && NotifySetup(s.(registered := true)).aborted
    ensures s.main.Paused? && s.registered ==> forall i :: 0 <= i < |s.threads| ==> !s.threads[i].BeforeSetup?
    ensures s.main.Paused? && !s.registered ==>
              exists i :: 0 <= i < |s.threads| && s.threads[i].BeforeSetup?
                && forall k :: 0 <= k < |s.threads| && s.threads[k].BeforeSetup? ==> k == i
  {
    InvAlways(s);
    SumNonNegative(AtSetup, s.threads);
    if s.main.Paused? && s.registered {
      forall i | 0 <= i < |s.threads| ensures !s.threads[i].BeforeSetup? {
        assert AtSetup(s.threads[i]) <= Sum(AtSetup, s.threads);
      }
    } else if s.main.Paused? {
      var i := SumPositive(AtSetup, s.threads);
      SumUpdate(AtSetup, s.threads, i, Ended);
      SumNonNegative(AtSetup, s.threads[i := Ended]);
      forall k | 0 <= k < |s.threads| && s.threads[k].BeforeSetup? ensures k == i {
        assert AtSetup(s.threads[i := Ended][k]) <= 0;
      }
    }
  }

  /** Messages are queued and no thread is left to read them. */
  predicate Stranded(s: State) {
    s.main.Paused? && s.queue != [] && !SomeThreadWillRead(s)
  }

  /** That happens exactly when a message was already queued at the first
      registration, the case the program's own comment excludes. */
  lemma StrandedExactly(s: State)
    requires Reachable(s)
    ensures Stranded(s) <==> s.late
  {
    InvAlways(s);
  }

  /** One message sent before that registration is enough. */
  lemma LateCanHappen(maxMessages: nat, m: Message)
    requires maxMessages >= 1
    ensures exists s :: Reaches(Program, Initial(maxMessages), s) && Stranded(s) && s.queue == [m]
  {
    var start := Initial(maxMessages);
    ReachesSelf(Program, start);
    ReachesStep(Program, start, start, Send(m));
    var s := SendNext(start, m);
    ReachesStep(Program, start, s, Main);
    assert Stranded(Next(s, Main)) && Next(s, Main).queue == [m];
  }

  /** In that case no thread is ever started, whatever is sent. */
  lemma LateNeverWakes(s: State)
    requires Reachable(s) && s.late
    ensures forall a :: Enabled(s, a) ==> a.Send? && Next(s, a).late && Next(s, a).threads == []
  {
    InvAlways(s);
  }

  /** Each message sent is received exactly once or still queued, and messages
      of one priority leave the queue in the order of sending. */
  lemma NothingLostOrReordered(s: State)
    requires Reachable(s)
    ensures multiset(s.sent) == multiset(s.received) + multiset(s.queue)
    ensures forall p: nat :: OfPriority(s.received, p) <= OfPriority(s.sent, p)
    ensures forall i :: 0 <= i < |s.queue| ==> s.queue[i].priority <= s.queue[0].priority
    ensures |s.queue| <= s.maxMessages
  {
    InvAlways(s);
    forall p: nat ensures OfPriority(s.received, p) <= OfPriority(s.sent, p) {
      assert OfPriority(s.sent, p) == OfPriority(s.received, p) + OfPriority(s.queue, p);
    }
  }

  /** What a receive takes is a queued message of the highest priority. */
  lemma ReceivesHighest(s: State, i: nat) returns (m: Message)
    requires Reachable(s) && i < |s.threads| && s.threads[i].Draining? && s.queue != []
    ensures var n := Next(s, Thread(i));
            n.received == s.received + [m] && multiset(s.queue) == multiset(n.queue) + multiset{m}
    ensures forall k :: 0 <= k < |s.queue| ==> s.queue[k].priority <= m.priority
  {
    m := s.queue[0];
    NothingLostOrReordered(s);
    assert s.queue == [m] + s.queue[1..];
  }

  // ---------- progress ----------

  function Weight(t: ThreadPc): int {
    match t
    case BeforeSetup => 2
    case Draining => 1
    case Ended => 0
  }

  function Measure(s: State): int {
    |s.queue| + Sum(Weight, s.threads) + (if s.main.Registering? then 1 else 0)
  }

  function SendCost(a: Action): nat {
    if a.Send? then 4 else 0
  }

  lemma MeasureStep(s: State, a: Action)
    requires Inv(s) && Enabled(s, a)
    ensures Measure(Next(s, a)) < Measure(s) + SendCost(a)
  {
    match a
    case Send(m) =>
      InsertContents(s.queue, m);
      SumSnoc(Weight, s.threads, BeforeSetup);
    case Main =>
    case Thread(i) => SumUpdate(Weight, s.threads, i, ThreadNext(s, i).threads[i]);
  }

  lemma MeasureNonNegative(s: State)
    ensures Measure(s) >= 0
  {
    SumNonNegative(Weight, s.threads);
  }

  /** Between messages the threads come to rest after a bounded number of
      steps, however they are scheduled. */
  lemma StepsBounded(maxMessages: nat, run: seq<Action>)
    requires Feasible(Program, Initial(maxMessages), run)
    ensures |run| <= 1 + Cost(SendCost, run)
  {
    forall t, a | Inv(t) && Program.enabled(t, a)
      ensures Inv(Program.next(t, a)) && Measure(Program.next(t, a)) < Measure(t) + SendCost(a)
    {
      InvStep(t, a);
      MeasureStep(t, a);
    }
    Bounded(Program, Inv, Measure, SendCost, Initial(maxMessages), run);
    MeasureNonNegative(After(Program, Initial(maxMessages), run));
  }

  /** At rest, without a late start, everything sent has been received and the
      registration is active for the next message. */
  lemma AtRest(s: State)
    requires Reachable(s) && s.main.Paused? && !s.late
    requires forall i :: !Enabled(s, Thread(i))
    ensures s.queue == [] && s.registered && multiset(s.received) == multiset(s.sent)
  {
    InvAlways(s);
    if SomeThreadWillRead(s) {
      var i: nat :| i < |s.threads| && !s.threads[i].Ended?;
      assert Enabled(s, Thread(i));
    }
    if !s.registered {
      var i := SumPositive(AtSetup, s.threads);
      assert Enabled(s, Thread(i));
    }
  }

  // ---------- the notification function itself ----------

  /** The process, its queue and its registration, once main has paused. */
  class Process {
    const maxMessages: nat
    var queue: seq<Message>
    var registered: bool
    var threads: seq<ThreadPc>
    var sent: seq<Message>
    var received: seq<Message>

    /** Right after main's notifySetup(). */
    constructor (maxMessages: nat)
      ensures Abs() == Next(Initial(maxMessages), Main) && Inv(Abs())
    {
      this.maxMessages := maxMessages;
      queue, sent, received := [], [], [];
      registered, threads := true, [];
    }

    ghost function Abs(): State
      reads this
    {
      State(maxMessages, queue, registered, threads, Paused, false, false, sent, received)
    }

    method Send(m: Message)
      requires Inv(Abs()) && |queue| < maxMessages
      modifies this
      ensures Abs() == SendNext(old(Abs()), m) && Inv(Abs())
    {
      InvStep(Abs(), Action.Send(m));
      if queue == [] && registered {
        registered := false;
        threads := threads + [BeforeSetup];
      }
      queue, sent := Insert(queue, m), sent + [m];
    }

    /** mq_notify() of thread i, which succeeds. */
    method Notify(i: nat) returns (ok: bool)
      requires Inv(Abs()) && i < |threads| && threads[i].BeforeSetup?
      modifies this
      ensures ok && Abs() == ThreadNext(old(Abs()), i) && Inv(Abs())
    {
      InvStep(Abs(), Thread(i));
      ok := !registered;
      registered := true;
      threads := threads[i := Draining];
    }

    /** mq_receive() of thread i; false stands for EAGAIN, which ends it. */
    method Receive(i: nat) returns (ok: bool)
      requires Inv(Abs()) && i < |threads| && threads[i].Draining?
      modifies this
      ensures ok == (old(queue) != [])
      ensures Abs() == ThreadNext(old(Abs()), i) && Inv(Abs())
    {
      InvStep(Abs(), Thread(i));
      ok := queue != [];
      if ok {
        received, queue := received + [queue[0]], queue[1..];
      } else {
        threads := threads[i := Ended];
      }
    }

    /** Other processes send and other notification threads run meanwhile. */
    method Meanwhile(others: seq<Action>, self: nat)
      requires Inv(Abs()) && self < |threads|
      modifies this
      ensures Inv(Abs()) && Reaches(Program, old(Abs()), Abs())
      ensures self < |threads| && threads[self] == old(threads[self])
    {
      ReachesSelf(Program, Abs());
      for k := 0 to |others|
        invariant Inv(Abs()) && Reaches(Program, old(Abs()), Abs())
        invariant self < |threads| && threads[self] == old(threads[self])
      {
        var a := others[k];
        ghost var s := Abs();
        if a.Send? && |queue| < maxMessages {
          Send(a.m);
          ReachesStep(Program, old(Abs()), s, a);
        } else if a.Thread? && a.i != self && a.i < |threads| && !threads[a.i].Ended? {
          if threads[a.i].BeforeSetup? {
            var _ := Notify(a.i);
          } else {
            var _ := Receive(a.i);
          }
          ReachesStep(Program, old(Abs()), s, a);
        }
      }
    }

    /** One mq_receive() of the thread, after what the others do before it. */
    method ReceiveAfter(others: seq<Action>, self: nat) returns (ok: bool)
      requires Inv(Abs()) && self < |threads| && threads[self].Draining?
      modifies this
      ensures Inv(Abs()) && Reaches(Program, old(Abs()), Abs())
      ensures self < |threads| && threads[self] == if ok then Draining else Ended
      ensures others == [] ==> |queue| <= |old(queue)| && (ok ==> |queue| < |old(queue)|)
    {
      ReachesSelf(Program, Abs());
      if others != [] {
        Meanwhile(others, self);
      }
      ghost var s := Abs();
      ok := Receive(self);
      ReachesStep(Program, old(Abs()), s, Thread(self));
    }

    /** The function each notification runs in a thread of its own, with
        anything the others do before each of its system calls: it registers,
        never finding a registration in its way, and leaves with EAGAIN. */
    method ThreadFunc(self: nat, meanwhile: seq<seq<Action>>)
      requires Inv(Abs()) && self < |threads| && threads[self].BeforeSetup?
      modifies this
      ensures Inv(Abs()) && Reaches(Program, old(Abs()), Abs())
      ensures self < |threads| && threads[self].Ended?
    {
      ghost var start := Abs();
      Meanwhile(if meanwhile == [] then [] else meanwhile[0], self);
      ghost var s := Abs();
      var ok := Notify(self);
      ReachesStep(Program, start, s, Thread(self));
      var calls := 1;
      while ok
        invariant Inv(Abs()) && Reaches(Program, start, Abs())
        invariant self < |threads| && threads[self] == if ok then Draining else Ended
        decreases |meanwhile| - calls, |queue|, ok
      {
        s := Abs();
        var others := if calls < |meanwhile| then meanwhile[calls] else [];
        ok := ReceiveAfter(others, self);
        ReachesTransitive(Program, start, s, Abs());
        if calls < |meanwhile| {
          calls := calls + 1;
        }
      }
    }
  }
}
