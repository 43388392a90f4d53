/** The same producers and consumer without a condition variable
    (30-thread-sync/prod_no_condvar.c): the consumer locks and unlocks the
    mutex in a loop until it finds something to consume. */
module PollingConsumer {
  import opened Runs
  import opened Wrappers

  datatype ProducerPc = ToLock | ToIncrement | ToUnlock

  datatype Producer = Producer(j: nat, pc: ProducerPc)

  datatype MainPc = Creating | AtLock | Consuming | AtUnlock | AtTest | Exited

  datatype Tid = MainThread | ProducerThread(index: nat)

  datatype State = State(
    counts: seq<int>,
    created: nat,
    totRequired: int,
    producers: seq<Producer>,
    mutex: Option<Tid>,
    avail: int,
    numConsumed: int,
    done: bool,
    main: MainPc)

  datatype Action = Produce(i: nat) | Main

  predicate Enabled(s: State, a: Action) {
    && !s.main.Exited?
    && match a
       case Produce(i) =>
         && i < s.created && i < |s.producers| && i < |s.counts|
         && s.producers[i].j < s.counts[i]
         && (s.producers[i].pc.ToLock? ==> s.mutex.None?)
       case Main => s.main.AtLock? ==> s.mutex.None?
  }

  function ProducerNext(s: State, i: nat): State
    requires i < |s.producers|
  {
    var p := s.producers[i];
    match p.pc
    case ToLock => s.(mutex := Some(ProducerThread(i)), producers := s.producers[i := p.(pc := ToIncrement)])
    case ToIncrement => s.(avail := s.avail + 1, producers := s.producers[i := p.(pc := ToUnlock)])
    case ToUnlock => s.(mutex := None, producers := s.producers[i := Producer(p.j + 1, ToLock)])
  }

  function MainNext(s: State): State {
    match s.main
    case Creating =>
      if s.created < |s.counts| then s.(totRequired := s.totRequired + s.counts[s.created], created := s.created + 1)
      else s.(main := AtLock)
    case AtLock => s.(mutex := Some(MainThread), main := Consuming)
    case Consuming =>
      if s.avail > 0 then
        s.(numConsumed := s.numConsumed + 1, avail := s.avail - 1, done := s.numConsumed + 1 >= s.totRequired)
      else s.(main := AtUnlock)
    case AtUnlock => s.(mutex := None, main := AtTest)
    case AtTest => s.(main := if s.done then Exited else AtLock)
    case Exited => s
  }

  function Next(s: State, a: Action): State {
    match a
    case Produce(i) => if i < |s.producers| then ProducerNext(s, i) else s
    case Main => MainNext(s)
  }

  const Program: Machine<State, Action> := Machine(Enabled, Next)

  function Initial(counts: seq<int>): State {
    State(counts, 0, 0, seq(|counts|, _ => Producer(0, ToLock)), None, 0, 0, false, Creating)
  }
  predicate Inv(s: State) {
    && s.avail >= 0
    && (s.mutex == Some(MainThread) <==> s.main.Consuming? || s.main.AtUnlock?)
    && (s.main.Creating? || s.main.AtLock? ==> !s.done)
    && forall i :: 0 <= i < |s.producers| ==>
         (s.mutex == Some(ProducerThread(i)) <==> s.producers[i].pc.ToIncrement? || s.producers[i].pc.ToUnlock?)
  }

  lemma InvStep(s: State, a: Action)
    requires Inv(s) && Enabled(s, a)
    ensures Inv(Next(s, a))
  {
    if a.Produce? {
      assert s.mutex == Some(ProducerThread(a.i)) <==>
             s.producers[a.i].pc.ToIncrement? || s.producers[a.i].pc.ToUnlock?;
    }
  }
}
