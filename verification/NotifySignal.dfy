/** Message notification by a signal (52-posix-msgqueue/mq_notify_sig.c).

    A registration is used up by the notification it causes, and a
    notification happens only when a message arrives on an empty queue
    (POSIX.1-2017, System Interfaces, mq_notify()).  The process is the only
    reader of the queue and the kernel the only sender of the signal, which is
    blocked except inside sigsuspend(). */
module NotifySignal {
  import opened MessageQueue
  import opened Runs

  /** Registering is the first mq_notify(), Reregistering the one in the loop,
      Aborted the errExit() after either of them fails because a process is
      already registered. */
  datatype MainPc = Registering | Suspended | Reregistering | Draining | Aborted

  datatype State = State(
    maxMessages: nat,
    queue: seq<Message>,
    registered: bool,
    pending: bool,              // NOTIFY_SIG is pending
    main: MainPc,
    late: bool,                 // the first registration found a message queued
    sent: seq<Message>,
    received: seq<Message>)

  datatype Action = Send(m: Message) | Main

  predicate Enabled(s: State, a: Action) {
    match a
    case Send(m) => |s.queue| < s.maxMessages
    case Main =>
      match s.main
      case Suspended => s.pending
      case Aborted => false
      case _ => true
  }

  function SendNext(s: State, m: Message): State {
    var notify := s.queue == [] && s.registered;
    s.(queue := Insert(s.queue, m), sent := s.sent + [m],
       registered := s.registered && !notify, pending := s.pending || notify)
  }

  function MainNext(s: State): State {
    match s.main
    case Registering =>
      if s.registered then s.(main := Aborted) else s.(registered := true, late := s.queue != [], main := Suspended)
    case Suspended => s.(pending := false, main := Reregistering)
    case Reregistering => if s.registered then s.(main := Aborted) else s.(registered := true, main := Draining)
    case Draining =>
      // mq_receive() on an empty queue fails with EAGAIN
      if s.queue == [] then s.(main := Suspended)
      else s.(queue := s.queue[1..], received := s.received + [s.queue[0]])
    case Aborted => s
  }

  function Next(s: State, a: Action): State {
    match a
    case Send(m) => SendNext(s, m)
    case Main => MainNext(s)
  }

  const Program: Machine<State, Action> := Machine(Enabled, Next)

  function Initial(maxMessages: nat): State {
    State(maxMessages, [], false, false, Registering, false, [], [])
  }

  ghost predicate Reachable(s: State) {
    Reaches(Program, Initial(s.maxMessages), s)
  }

  // ---------- the invariant ----------

  predicate ProtocolOk(s: State) {
    if s.late then s.main.Suspended? && s.registered && !s.pending && s.queue != []
    else
      match s.main
      case Registering => !s.registered && !s.pending
      case Suspended => s.pending != s.registered && (s.registered ==> s.queue == [])
      case Reregistering => !s.registered && !s.pending
      case Draining => s.pending != s.registered
      case Aborted => false
  }

  ghost predicate Inv(s: State) {
    ProtocolOk(s) && Accounted(s.sent, s.received, s.queue) && |s.queue| <= s.maxMessages
  }

  lemma InvStep(s: State, a: Action)
    requires Inv(s) && Enabled(s, a)
    ensures Inv(Next(s, a))
  {
    match a
    case Send(m) =>
      AccountedSend(s.sent, s.received, s.queue, m);
      InsertContents(s.queue, m);
    case Main =>
      if s.main.Draining? && s.queue != [] {
        AccountedReceive(s.sent, s.received, s.queue);
      }
  }

  /** The invariant holds wherever the machine gets to. */
  lemma KeptFrom(s: State, t: State)
    requires Inv(s) && Reaches(Program, s, t)
    ensures Inv(t)
  {
    forall u, a | Inv(u) && Program.enabled(u, a) ensures Inv(Program.next(u, a)) {
      InvStep(u, a);
    }
    AlwaysReached(Program, Inv, s, t);
  }

  // ---------- what the program promises ----------

  /** Suspended with no signal on its way although a message is queued. */
  predicate Stranded(s: State) {
    s.main.Suspended? && !s.pending && s.queue != []
  }

  /** Messages are stranded exactly in the case the program's own comment
      excludes: when one was already queued at the first registration. */
  lemma StrandedExactly(s: State)
    requires Reachable(s)
    ensures Stranded(s) <==> s.late
  {
    KeptFrom(Initial(s.maxMessages), s);
  }

  /** One message sent before that registration is enough. */
  lemma LateCanHappen(maxMessages: nat, m: Message)
    requires maxMessages >= 1
    ensures exists s :: Reaches(Program, Initial(maxMessages), s) && Stranded(s) && s.queue == [m]
  {
    var start := Initial(maxMessages);
    ReachesSelf(Program, start);
    ReachesStep(Program, start, start, Send(m));
    var s := SendNext(start, m);
    ReachesStep(Program, start, s, Main);
    assert Stranded(MainNext(s)) && MainNext(s).queue == [m];
  }

  /** In that case the program never moves again, whatever is sent. */
  lemma LateNeverWakes(s: State)
    requires Reachable(s) && s.late
    ensures !Enabled(s, Main)
    ensures forall a :: Enabled(s, a) ==> Next(s, a).late && Stranded(Next(s, a)) && Next(s, a).received == s.received
  {
    KeptFrom(Initial(s.maxMessages), s);
    forall a | Enabled(s, a) ensures Next(s, a).late && Stranded(Next(s, a)) && Next(s, a).received == s.received {
      InvStep(s, a);
    }
  }

  /** Otherwise, suspension with no signal pending means that the queue is
      empty and the registration is active. */
  lemma SuspendedMeansQuiet(s: State)
    requires Reachable(s) && s.main.Suspended? && !s.pending && !s.late
    ensures s.queue == [] && s.registered
  {
    KeptFrom(Initial(s.maxMessages), s);
  }

  /** Re-registration never finds an existing registration, which would have
      been the end of the program. */
  lemma RegistrationNeverBusy(s: State)
    requires Reachable(s)
    ensures !s.main.Aborted?
    ensures s.main.Reregistering? || s.main.Registering? ==> MainNext(s.(registered := true)).main.Aborted?
    ensures s.main.Reregistering? || s.main.Registering? ==> !s.registered
  {
    KeptFrom(Initial(s.maxMessages), s);
  }

  /** Every message sent is received once or still queued; messages of one
      priority are received in the order of sending, and the next one received
      has the highest priority of all that are queued. */
  lemma NothingLostOrReordered(s: State)
    requires Reachable(s)
    ensures multiset(s.sent) == multiset(s.received) + multiset(s.queue)
    ensures forall p: nat :: OfPriority(s.received, p) <= OfPriority(s.sent, p)
    ensures forall i :: 0 <= i < |s.queue| ==> s.queue[i].priority <= s.queue[0].priority
    ensures |s.queue| <= s.maxMessages
  {
    KeptFrom(Initial(s.maxMessages), s);
    forall p: nat ensures OfPriority(s.received, p) <= OfPriority(s.sent, p) {
      assert OfPriority(s.sent, p) == OfPriority(s.received, p) + OfPriority(s.queue, p);
    }
  }

  /** What a receive takes is a queued message of the highest priority. */
  lemma ReceivesHighest(s: State) returns (m: Message)
    requires Reachable(s) && s.main.Draining? && s.queue != []
    ensures var n := Next(s, Main);
            n.received == s.received + [m] && multiset(s.queue) == multiset(n.queue) + multiset{m}
    ensures forall k :: 0 <= k < |s.queue| ==> s.queue[k].priority <= m.priority
  {
    m := s.queue[0];
    NothingLostOrReordered(s);
    assert s.queue == [m] + s.queue[1..];
  }

  // ---------- progress ----------

  function Measure(s: State): int {
    |s.queue| + (if s.pending then 3 else 0) +
    match s.main
    case Registering => 1
    case Suspended => 0
    case Reregistering => 2
    case Draining => 1
    case Aborted => 0
  }

  function SendCost(a: Action): nat {
    if a.Send? then 5 else 0
  }

  lemma MeasureStep(s: State, a: Action)
    requires ProtocolOk(s) && Enabled(s, a)
    ensures ProtocolOk(Next(s, a)) && Measure(Next(s, a)) < Measure(s) + SendCost(a)
  {
    if a.Send? {
      InsertContents(s.queue, a.m);
    }
  }

  /** Between messages the program comes to rest after a bounded number of
      its own steps. */
  lemma StepsBounded(maxMessages: nat, run: seq<Action>)
    requires Feasible(Program, Initial(maxMessages), run)
    ensures |run| <= 1 + Cost(SendCost, run)
  {
    forall t, a | ProtocolOk(t) && Program.enabled(t, a)
      ensures ProtocolOk(Program.next(t, a)) && Measure(Program.next(t, a)) < Measure(t) + SendCost(a)
    {
      MeasureStep(t, a);
    }
    Bounded(Program, ProtocolOk, Measure, SendCost, Initial(maxMessages), run);
  }

  /** Left alone, the program reads everything: from any state without a late
      start it gets to rest with an empty queue and an active registration. */
  lemma {:induction false} ComesToRest(start: State, s: State) returns (t: State)
    requires Inv(s) && !s.late && Reaches(Program, start, s)
    requires !s.main.Registering?
    ensures Reaches(Program, start, t) && multiset(t.received) == multiset(s.sent)
    ensures t == s.(main := Suspended, pending := false, queue := [], registered := true, received := t.received)
    decreases Measure(s)
  {
    if Enabled(s, Main) {
      InvStep(s, Main);
      ReachesStep(Program, start, s, Main);
      t := ComesToRest(start, MainNext(s));
    } else {
      t := s;
    }
  }

  // ---------- the loop body itself ----------

  /** The queue and the signal as the process's system calls see them. */
  class Process {
    var queue: seq<Message>
    var registered: bool
    var pending: bool
    var sent: seq<Message>
    var received: seq<Message>
    const maxMessages: nat

    constructor (maxMessages: nat)
      ensures queue == sent == received == [] && !registered && !pending && this.maxMessages == maxMessages
    {
      this.maxMessages := maxMessages;
      queue, sent, received := [], [], [];
      registered, pending := false, false;
    }

    ghost function Abs(main: MainPc): State
      reads this
    {
      State(maxMessages, queue, registered, pending, main, false, sent, received)
    }

    /** Other processes send messages, as far as the queue has room. */
    method Arrive(messages: seq<Message>, ghost main: MainPc)
      modifies this`queue, this`registered, this`pending, this`sent
      ensures Reaches(Program, old(Abs(main)), Abs(main))
    {
      ReachesSelf(Program, Abs(main));
      for k := 0 to |messages|
        invariant Reaches(Program, old(Abs(main)), Abs(main))
      {
        if |queue| < maxMessages {
          ReachesStep(Program, old(Abs(main)), Abs(main), Send(messages[k]));
          if queue == [] && registered {
            registered, pending := false, true;
          }
          queue, sent := Insert(queue, messages[k]), sent + [messages[k]];
        }
      }
    }

    /** mq_notify() */
    method Notify() returns (ok: bool)
      modifies this`registered
      ensures ok == !old(registered) && registered
    {
      ok := !registered;
      registered := true;
    }

    /** mq_receive() without blocking; false stands for EAGAIN. */
    method Receive() returns (ok: bool)
      modifies this`queue, this`received
      ensures ok == (old(queue) != [])
      ensures ok ==> queue == old(queue)[1..] && received == old(received) + [old(queue)[0]]
      ensures !ok ==> queue == old(queue) && received == old(received)
    {
      ok := queue != [];
      if ok {
        received, queue := received + [queue[0]], queue[1..];
      }
    }

    /** What the main loop does after sigsuspend() returns, while the given
        messages arrive before its successive system calls: the machine gets
        from re-registration to suspension, without aborting. */
    method HandleNotification(arrivals: seq<seq<Message>>)
      requires Inv(Abs(Reregistering))
      modifies this
      ensures Reaches(Program, old(Abs(Reregistering)), Abs(Suspended))
      ensures pending || (queue == [] && registered)
    {
      ghost var start := Abs(Reregistering);
      ReachesSelf(Program, start);
      var ok := Notify();
      assert ok;
      ReachesStep(Program, start, start, Main);
      var calls := 0;
      ok := true;
      while ok
        invariant Reaches(Program, start, Abs(if ok then Draining else Suspended))
        invariant !ok ==> queue == []
        decreases |arrivals| - calls, |queue|, ok
      {
        if calls < |arrivals| {
          label Before:
          Arrive(arrivals[calls], Draining);
          ReachesTransitive(Program, start, old@Before(Abs(Draining)), Abs(Draining));
          calls := calls + 1;
        }
        ReachesStep(Program, start, Abs(Draining), Main);
        ok := Receive();
      }
      KeptFrom(start, Abs(Suspended));
    }
  }
}
