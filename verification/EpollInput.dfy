/** Reading several FIFOs until each is drained and hung up
    (63-io-advanced/epoll_input.c).

    epoll is level-triggered and may report any non-empty choice of at most
    MAX_EVENTS ready descriptors.  Between the report and the read, writers go
    on writing and hanging up; a FIFO that has been hung up gets no new
    writer.  Reading ends of FIFOs never report EPOLLERR. */
module EpollInput {
  import opened Counting
  import opened Runs

  const MAX_BUF: nat := 1000
  const MAX_EVENTS: nat := 5

  datatype Fifo = Fifo(
    open: bool,              // the program's descriptor is open
    writers: bool,           // some process has it open for writing
    future: string,          // what the writers still mean to write
    written: string,         // everything written so far
    output: string,          // everything the program has read, in order
    closes: nat)

  /** events: EPOLLIN and EPOLLHUP */
  datatype Event = Event(fd: nat, epollin: bool, epollhup: bool)

  datatype Pc = AtTest | Waiting | Handling(evlist: seq<Event>, j: nat) | Exited

  datatype State = State(fifos: seq<Fifo>, numOpenFds: int, pc: Pc)

  /** Write(i, k) and HangUp(i) are the writers' steps, Report an epoll_wait()
      that succeeds and Eintr one that is interrupted.  Main(k) is any other
      step of the program; k is how much a read returns, if it is a read. */
  datatype Action = Write(i: nat, k: nat) | HangUp(i: nat) | Report(evlist: seq<Event>) | Eintr | Main(k: nat)

  predicate Unread(f: Fifo) {
    |f.output| < |f.written|
  }

  /** What epoll says about a descriptor at this moment. */
  predicate Accurate(s: State, e: Event) {
    && e.fd < |s.fifos| && s.fifos[e.fd].open
    && e.epollin == Unread(s.fifos[e.fd])
    && e.epollhup == !s.fifos[e.fd].writers
    && (e.epollin || e.epollhup)
  }

  predicate DistinctFrom(evlist: seq<Event>, j: nat) {
    forall a, b :: j <= a < b < |evlist| ==> evlist[a].fd != evlist[b].fd
  }

  predicate CanReport(s: State, evlist: seq<Event>) {
    && 1 <= |evlist| <= MAX_EVENTS
    && DistinctFrom(evlist, 0)
    && forall a :: 0 <= a < |evlist| ==> Accurate(s, evlist[a])
  }

  /** read() blocks while there is nothing to read and a writer is left; at
      end of file it returns 0. */
  predicate MainEnabled(s: State, k: nat) {
    match s.pc
    case AtTest => true
    case Waiting => false
    case Exited => false
    case Handling(evlist, j) =>
      if j >= |evlist| || !evlist[j].epollin then true
      else
        && evlist[j].fd < |s.fifos|
        && var f := s.fifos[evlist[j].fd];
        if Unread(f) then 1 <= k <= MAX_BUF && k <= |f.written| - |f.output| else !f.writers && k == 0
  }

  predicate Enabled(s: State, a: Action) {
    && !s.pc.Exited?
    && match a
       case Write(i, k) => i < |s.fifos| && s.fifos[i].writers && 1 <= k <= |s.fifos[i].future|
       case HangUp(i) => i < |s.fifos| && s.fifos[i].writers
       case Report(evlist) => s.pc.Waiting? && CanReport(s, evlist)
       case Eintr => s.pc.Waiting?
       case Main(k) => MainEnabled(s, k)
  }

  function MainNext(s: State, k: nat): State {
    match s.pc
    case AtTest => s.(pc := if s.numOpenFds > 0 then Waiting else Exited)
    case Waiting => s
    case Exited => s
    case Handling(evlist, j) =>
      if j >= |evlist| then s.(pc := AtTest)
      else if evlist[j].fd >= |s.fifos| then s
      else
        var i := evlist[j].fd;
        var f := s.fifos[i];
        var next := s.(pc := Handling(evlist, j + 1));
        if evlist[j].epollin then
          if |f.output| + k > |f.written| then s
          else next.(fifos := s.fifos[i := f.(output := f.output + f.written[|f.output|..|f.output| + k])])
        else if evlist[j].epollhup then
          next.(fifos := s.fifos[i := f.(open := false, closes := f.closes + 1)], numOpenFds := s.numOpenFds - 1)
        else next
  }

  function WriteNext(f: Fifo, k: nat): Fifo {
    if k > |f.future| then f else f.(future := f.future[k..], written := f.written + f.future[..k])
  }

  function Next(s: State, a: Action): State {
    match a
    case Write(i, k) => if i < |s.fifos| then s.(fifos := s.fifos[i := WriteNext(s.fifos[i], k)]) else s
    case HangUp(i) =>
      if i < |s.fifos| then s.(fifos := s.fifos[i := s.fifos[i].(writers := false, future := [])]) else s
    case Report(evlist) => s.(pc := Handling(evlist, 0))
    case Eintr => s.(pc := AtTest)
    case Main(k) => MainNext(s, k)
  }

  const Program: Machine<State, Action> := Machine(Enabled, Next)

  /** All descriptors have just been opened and nothing has been read yet. */
  predicate Initial(s: State) {
    && s.pc.AtTest? && s.numOpenFds == |s.fifos|
    && forall i :: 0 <= i < |s.fifos| ==>
         && s.fifos[i].open && s.fifos[i].closes == 0 && s.fifos[i].output == []
         && (!s.fifos[i].writers ==> s.fifos[i].future == [])
  }

  ghost predicate Reachable(s: State) {
    exists start :: Initial(start) && Reaches(Program, start, s)
  }

  // ---------- the invariant ----------

  function IsOpen(f: Fifo): int { if f.open then 1 else 0 }

  predicate FifoOk(f: Fifo) {
    && f.output <= f.written
    && f.closes == (if f.open then 0 else 1)
    && (!f.writers ==> f.future == [])
    && (!f.open ==> !f.writers && f.output == f.written)
  }

  /** What remains true of a report that has not been acted upon yet. */
  predicate StillTrue(s: State, e: Event) {
    && e.fd < |s.fifos| && s.fifos[e.fd].open
    && (e.epollin ==> Unread(s.fifos[e.fd]))
    && (!e.epollin ==> e.epollhup && !s.fifos[e.fd].writers && !Unread(s.fifos[e.fd]))
  }

  predicate EventsOk(s: State) {
    s.pc.Handling? ==>
      && s.pc.j <= |s.pc.evlist|
      && DistinctFrom(s.pc.evlist, s.pc.j)
      && forall a :: s.pc.j <= a < |s.pc.evlist| ==> StillTrue(s, s.pc.evlist[a])
  }

  predicate Inv(s: State) {
    && (forall i :: 0 <= i < |s.fifos| ==> FifoOk(s.fifos[i]))
    && s.numOpenFds == Sum(IsOpen, s.fifos)
    && EventsOk(s)
    && (s.pc.Waiting? ==> s.numOpenFds > 0)
    && (s.pc.Exited? ==> s.numOpenFds <= 0)
  }

  lemma ReadKeepsPrefix(f: Fifo, k: nat)
    requires f.output <= f.written && |f.output| + k <= |f.written|
    ensures f.output + f.written[|f.output|..|f.output| + k] == f.written[..|f.output| + k]
  {
  }

  lemma MainStep(s: State, k: nat)
    requires Inv(s) && Enabled(s, Main(k))
    ensures Inv(MainNext(s, k))
  {
    var n := MainNext(s, k);
    if s.pc.Handling? && s.pc.j < |s.pc.evlist| {
      var e := s.pc.evlist[s.pc.j];
      assert StillTrue(s, e);
      SumUpdate(IsOpen, s.fifos, e.fd, n.fifos[e.fd]);
      assert FifoOk(s.fifos[e.fd]);
      if e.epollin {
        ReadKeepsPrefix(s.fifos[e.fd], k);
      }
      forall a | s.pc.j + 1 <= a < |s.pc.evlist| ensures StillTrue(n, s.pc.evlist[a]) {
        assert StillTrue(s, s.pc.evlist[a]);
      }
    }
  }

  lemma InvStep(s: State, a: Action)
    requires Inv(s) && Enabled(s, a)
    ensures Inv(Next(s, a))
  {
    match a
    case Write(i, k) =>
      assert FifoOk(s.fifos[i]);
      SumUpdate(IsOpen, s.fifos, i, Next(s, a).fifos[i]);
    case HangUp(i) =>
      assert FifoOk(s.fifos[i]);
      SumUpdate(IsOpen, s.fifos, i, Next(s, a).fifos[i]);
    case Report(evlist) =>
    case Eintr =>
    case Main(k) => MainStep(s, k);
  }

  lemma InvInitially(s: State)
    requires Initial(s)
    ensures Inv(s)
  {
    SumConstant(IsOpen, s.fifos, 1);
  }

  lemma InvAlways(s: State)
    requires Reachable(s)
    ensures Inv(s)
  {
    var start :| Initial(start) && Reaches(Program, start, s);
    InvInitially(start);
    forall t, a | Inv(t) && Program.enabled(t, a) ensures Inv(Program.next(t, a)) {
      InvStep(t, a);
    }
    AlwaysReached(Program, Inv, start, s);
  }

  // ---------- what the program promises ----------

  /** numOpenFds is the number of open descriptors, and none is closed twice. */
  lemma OpenCount(s: State)
    requires Reachable(s)
    ensures s.numOpenFds == Sum(IsOpen, s.fifos)
    ensures forall i :: 0 <= i < |s.fifos| ==> s.fifos[i].closes == if s.fifos[i].open then 0 else 1
  {
    InvAlways(s);
    forall i | 0 <= i < |s.fifos| ensures s.fifos[i].closes == if s.fifos[i].open then 0 else 1 {
      assert FifoOk(s.fifos[i]);
    }
  }

  /** What has been read of a FIFO is a prefix of what was written to it; a
      descriptor is closed only when that is all of it, for good: nobody can
      write any more. */
  lemma ClosedOnlyWhenDrained(s: State, i: nat)
    requires Reachable(s) && i < |s.fifos|
    ensures s.fifos[i].output <= s.fifos[i].written
    ensures !s.fifos[i].open ==> s.fifos[i].output == s.fifos[i].written && !s.fifos[i].writers
  {
    InvAlways(s);
    assert FifoOk(s.fifos[i]);
  }

  /** Each FIFO carries what its writers meant to write, in order, up to where
      they hang up. */
  predicate Carries(start: State, s: State) {
    && |s.fifos| == |start.fifos|
    && forall i :: 0 <= i < |s.fifos| ==>
         && s.fifos[i].written <= start.fifos[i].written + start.fifos[i].future
         && (s.fifos[i].writers ==>
               s.fifos[i].written + s.fifos[i].future == start.fifos[i].written + start.fifos[i].future)
  }

  lemma CarriesStep(start: State, s: State, a: Action)
    requires Carries(start, s) && Enabled(s, a)
    ensures Carries(start, Next(s, a))
  {
    if a.Write? {
      var f := s.fifos[a.i];
      assert f.written + f.future[..a.k] + f.future[a.k..] == f.written + f.future;
    }
  }

  /** What the program reads of a FIFO is a prefix of what was meant for it. */
  lemma OutputAsMeant(start: State, s: State, i: nat)
    requires Initial(start) && Reaches(Program, start, s) && i < |s.fifos|
    ensures |s.fifos| == |start.fifos|
    ensures s.fifos[i].output <= start.fifos[i].written + start.fifos[i].future
  {
    forall t, a | Carries(start, t) && Program.enabled(t, a) ensures Carries(start, Program.next(t, a)) {
      CarriesStep(start, t, a);
    }
    AlwaysReached(Program, (t: State) => Carries(start, t), start, s);
    ClosedOnlyWhenDrained(s, i);
  }

  /** A read the program makes never blocks and never meets end of file,
      although the report it acts on may be out of date. */
  lemma ReadsSomething(s: State)
    requires Reachable(s) && s.pc.Handling? && s.pc.j < |s.pc.evlist| && s.pc.evlist[s.pc.j].epollin
    ensures Enabled(s, Main(1)) && !Enabled(s, Main(0))
  {
    InvAlways(s);
    assert StillTrue(s, s.pc.evlist[s.pc.j]);
  }

  /** An interrupted epoll_wait() is called again. */
  lemma InterruptionWaitsAgain(s: State)
    requires Reachable(s) && s.pc.Waiting?
    ensures Enabled(s, Eintr) && Enabled(Next(s, Eintr), Main(0))
    ensures Next(s, Eintr) != s && MainNext(Next(s, Eintr), 0) == s
  {
    InvAlways(s);
  }

  lemma OutputUntouched(s: State, k: nat)
    requires !(s.pc.Handling? && s.pc.j < |s.pc.evlist| && s.pc.evlist[s.pc.j].epollin)
    ensures var n := MainNext(s, k);
            |n.fifos| == |s.fifos| && forall i :: 0 <= i < |s.fifos| ==> n.fifos[i].output == s.fifos[i].output
  {
  }

  /** One call reports at most five events and one read returns at most 1000
      bytes of that FIFO, all of which are kept. */
  lemma Limits(s: State, a: Action)
    requires Reachable(s) && Enabled(s, a)
    ensures a.Report? ==> |a.evlist| <= 5
    ensures a.Main? ==> |Next(s, a).fifos| == |s.fifos|
    ensures a.Main? ==> forall i :: 0 <= i < |s.fifos| ==> |Next(s, a).fifos[i].output| <= |s.fifos[i].output| + 1000
  {
    if a.Main? && s.pc.Handling? && s.pc.j < |s.pc.evlist| && s.pc.evlist[s.pc.j].epollin {
      InvAlways(s);
      assert StillTrue(s, s.pc.evlist[s.pc.j]);
      var f := s.fifos[s.pc.evlist[s.pc.j].fd];
      assert |f.output + f.written[|f.output|..|f.output| + a.k]| == |f.output| + a.k;
    } else if a.Main? {
      OutputUntouched(s, a.k);
    }
  }

  lemma EverythingReadAtExit(s: State)
    requires Reachable(s) && s.pc.Exited?
    ensures forall i :: 0 <= i < |s.fifos| ==> s.fifos[i].closes == 1 && s.fifos[i].output == s.fifos[i].written
  {
    InvAlways(s);
    SumNonNegative(IsOpen, s.fifos);
    forall i | 0 <= i < |s.fifos| ensures s.fifos[i].closes == 1 && s.fifos[i].output == s.fifos[i].written {
      assert IsOpen(s.fifos[i]) <= Sum(IsOpen, s.fifos);
      assert FifoOk(s.fifos[i]);
    }
  }

  /** Before exit something other than an interruption can always happen:
      waiting, some FIFO is ready or its writers have something to do. */
  lemma NoDeadlock(s: State)
    requires Reachable(s) && !s.pc.Exited?
    ensures exists a: Action :: Enabled(s, a) && !a.Eintr?
  {
    InvAlways(s);
    if s.pc.Waiting? {
      var i := SumPositive(IsOpen, s.fifos);
      var f := s.fifos[i];
      if Unread(f) || !f.writers {
        var e := Event(i, Unread(f), !f.writers);
        assert CanReport(s, [e]);
        assert Enabled(s, Report([e]));
      } else {
        assert Enabled(s, HangUp(i));
      }
    } else if s.pc.Handling? && s.pc.j < |s.pc.evlist| && s.pc.evlist[s.pc.j].epollin {
      ReadsSomething(s);
    } else {
      assert Enabled(s, Main(0));
    }
  }

  // ---------- every run comes to an end ----------

  /** Bytes unread and descriptors open, and what the writers have yet to do. */
  function Weight(f: Fifo): int {
    4 * (|f.written| - |f.output|) + (if f.open then 4 else 0) + 5 * |f.future| + (if f.writers then 1 else 0)
  }

  function Rank(pc: Pc): int {
    match pc
    case AtTest => 2
    case Waiting => 1
    case Handling(evlist, j) => if j < |evlist| then 0 else 3
    case Exited => 0
  }

  function Measure(s: State): int {
    Sum(Weight, s.fifos) + Rank(s.pc)
  }

  function EintrCost(a: Action): nat {
    if a.Eintr? then 2 else 0
  }

  /** Acting on a reported event always reads or closes something. */
  lemma EventMeasure(s: State, k: nat)
    requires Inv(s) && Enabled(s, Main(k)) && s.pc.Handling? && s.pc.j < |s.pc.evlist|
    ensures Measure(MainNext(s, k)) < Measure(s)
  {
    var n := MainNext(s, k);
    var e := s.pc.evlist[s.pc.j];
    assert StillTrue(s, e);
    SumUpdate(Weight, s.fifos, e.fd, n.fifos[e.fd]);
    assert Weight(n.fifos[e.fd]) <= Weight(s.fifos[e.fd]) - 4;
  }

  lemma MeasureStep(s: State, a: Action)
    requires Inv(s) && Enabled(s, a)
    ensures Measure(Next(s, a)) < Measure(s) + EintrCost(a)
  {
    match a
    case Write(i, k) => SumUpdate(Weight, s.fifos, i, WriteNext(s.fifos[i], k));
    case HangUp(i) => SumUpdate(Weight, s.fifos, i, s.fifos[i].(writers := false, future := []));
    case Report(evlist) =>
    case Eintr =>
    case Main(k) =>
      if s.pc.Handling? && s.pc.j < |s.pc.evlist| {
        EventMeasure(s, k);
      }
  }

  lemma MeasureNonNegative(s: State)
    requires Inv(s)
    ensures Measure(s) >= 0
  {
    forall i | 0 <= i < |s.fifos| ensures Weight(s.fifos[i]) >= 0 {
      assert FifoOk(s.fifos[i]);
    }
    SumNonNegative(Weight, s.fifos);
  }

  /** With finite input only interruptions of epoll_wait() can prolong a run. */
  lemma RunsEnd(start: State, run: seq<Action>)
    requires Initial(start) && Feasible(Program, start, run)
    ensures |run| <= Sum(Weight, start.fifos) + 2 + Cost(EintrCost, run)
  {
    InvInitially(start);
    forall t, a | Inv(t) && Program.enabled(t, a)
      ensures Inv(Program.next(t, a)) && Measure(Program.next(t, a)) < Measure(t) + EintrCost(a)
    {
      InvStep(t, a);
      MeasureStep(t, a);
    }
    Bounded(Program, Inv, Measure, EintrCost, start, run);
    var inv := Inv;
    Always(Program, inv, start, run);
    MeasureNonNegative(After(Program, start, run));
  }

  /** A run after which nothing but such an interruption could follow has
      exited with all input read and every descriptor closed once. */
  lemma CompleteRuns(start: State, run: seq<Action>)
    requires Initial(start) && Feasible(Program, start, run)
    requires forall a: Action :: !a.Eintr? ==> !Enabled(After(Program, start, run), a)
    ensures var s := After(Program, start, run);
            && s.pc.Exited?
            && forall i :: 0 <= i < |s.fifos| ==> s.fifos[i].closes == 1 && s.fifos[i].output == s.fifos[i].written
  {
    var s := After(Program, start, run);
    assert Reachable(s);
    if !s.pc.Exited? {
      NoDeadlock(s);
    }
    EverythingReadAtExit(s);
  }

  // ---------- the event loop itself ----------

  /** What a read returns of what there is, when the kernel hands over at most
      the given number of bytes at a time (but at least one). */
  function ReadCount(f: Fifo, most: nat): int {
    var count := if most == 0 then 1 else if most < MAX_BUF then most else MAX_BUF;
    if |f.written| - |f.output| < count then |f.written| - |f.output| else count
  }

  /** The event at hand can be acted upon at once. */
  lemma CanAct(s: State, most: nat)
    requires Inv(s) && s.pc.Handling? && s.pc.j < |s.pc.evlist|
    ensures var e := s.pc.evlist[s.pc.j];
            && e.fd < |s.fifos| && |s.fifos[e.fd].output| <= |s.fifos[e.fd].written|
            && (if e.epollin then Enabled(s, Main(ReadCount(s.fifos[e.fd], most)))
                else e.epollhup && Enabled(s, Main(0)))
  {
    var e := s.pc.evlist[s.pc.j];
    assert StillTrue(s, e);
    assert FifoOk(s.fifos[e.fd]);
  }

  /** The descriptors and the counter of the program. */
  class Monitor {
    var fifos: seq<Fifo>
    var numOpenFds: int

    constructor (fifos: seq<Fifo>)
      ensures this.fifos == fifos && numOpenFds == |fifos|
    {
      this.fifos := fifos;
      numOpenFds := |fifos|;
    }

    ghost function Abs(pc: Pc): State
      reads this
    {
      State(fifos, numOpenFds, pc)
    }

    /** Writers write and hang up meanwhile, as far as they can. */
    method Meanwhile(steps: seq<Action>, ghost pc: Pc)
      requires Inv(Abs(pc)) && !pc.Exited?
      modifies this`fifos
      ensures Inv(Abs(pc)) && Reaches(Program, old(Abs(pc)), Abs(pc))
    {
      ReachesSelf(Program, Abs(pc));
      for k := 0 to |steps|
        invariant Inv(Abs(pc)) && Reaches(Program, old(Abs(pc)), Abs(pc))
      {
        var a := steps[k];
        if (a.Write? || a.HangUp?) && a.i < |fifos| && fifos[a.i].writers
           && (a.Write? ==> 1 <= a.k <= |fifos[a.i].future|) {
          InvStep(Abs(pc), a);
          ReachesStep(Program, old(Abs(pc)), Abs(pc), a);
          var f := fifos[a.i];
          fifos := fifos[a.i := if a.Write? then WriteNext(f, a.k) else f.(writers := false, future := [])];
        }
      }
    }

    /** read(): a part of what there is, up to MAX_BUF. */
    method Read(fd: nat, most: nat) returns (s: nat)
      requires fd < |fifos| && |fifos[fd].output| <= |fifos[fd].written|
      modifies this`fifos
      ensures var f := old(fifos[fd]);
              && s == ReadCount(f, most)
              && fifos == old(fifos)[fd := f.(output := f.output + f.written[|f.output|..|f.output| + s])]
    {
      var f := fifos[fd];
      s := ReadCount(f, most);
      fifos := fifos[fd := f.(output := f.output + f.written[|f.output|..|f.output| + s])];
    }

    /** Deal with one reported event. */
    method Act(evlist: seq<Event>, j: nat, most: nat)
      requires j < |evlist| && Inv(Abs(Handling(evlist, j)))
      modifies this
      ensures Inv(Abs(Handling(evlist, j + 1)))
      ensures Reaches(Program, old(Abs(Handling(evlist, j))), Abs(Handling(evlist, j + 1)))
    {
      ghost var s := Abs(Handling(evlist, j));
      CanAct(s, most);
      ReachesSelf(Program, s);
      ghost var k := 0;
      if evlist[j].epollin {
        k := Read(evlist[j].fd, most);
      } else if evlist[j].epollhup {
        var f := fifos[evlist[j].fd];
        fifos := fifos[evlist[j].fd := f.(open := false, closes := f.closes + 1)];
        numOpenFds := numOpenFds - 1;
      }
      MainStep(s, k);
      ReachesStep(Program, s, s, Main(k));
      assert Abs(Handling(evlist, j + 1)) == MainNext(s, k);
    }

    /** Deal with one reported event, after what the writers do meanwhile. */
    method HandleOne(evlist: seq<Event>, j: nat, meanwhile: seq<Action>, most: nat)
      requires j < |evlist| && Inv(Abs(Handling(evlist, j)))
      modifies this
      ensures Inv(Abs(Handling(evlist, j + 1)))
      ensures Reaches(Program, old(Abs(Handling(evlist, j))), Abs(Handling(evlist, j + 1)))
    {
      Meanwhile(meanwhile, Handling(evlist, j));
      ghost var s := Abs(Handling(evlist, j));
      Act(evlist, j, most);
      ReachesTransitive(Program, old(Abs(Handling(evlist, j))), s, Abs(Handling(evlist, j + 1)));
    }

    /** Deal with the returned list of events, while writers go on and reads
        return any part of what there is: the machine gets from the report to
        the next test of the outer loop, reading or closing something for each
        event. */
    method HandleEvents(evlist: seq<Event>, meanwhile: seq<seq<Action>>, counts: seq<nat>)
      requires Inv(Abs(Handling(evlist, 0)))
      modifies this
      ensures Inv(Abs(AtTest))
      ensures Reaches(Program, old(Abs(Handling(evlist, 0))), Abs(AtTest))
    {
      ghost var start := Abs(Handling(evlist, 0));
      ReachesSelf(Program, start);
      for j := 0 to |evlist|
        invariant Inv(Abs(Handling(evlist, j)))
        invariant Reaches(Program, start, Abs(Handling(evlist, j)))
      {
        ghost var before := Abs(Handling(evlist, j));
        HandleOne(evlist, j, if j < |meanwhile| then meanwhile[j] else [], if j < |counts| then counts[j] else MAX_BUF);
        ReachesTransitive(Program, start, before, Abs(Handling(evlist, j + 1)));
      }
      ghost var last := Abs(Handling(evlist, |evlist|));
      MainStep(last, 0);
      ReachesStep(Program, start, last, Main(0));
    }
  }
}
