/** Sequence numbers handed out over FIFOs (44-ipc-pipe-fifo/fifo_seqnum_server.c
    and fifo_seqnum_client.c).

    Opening a FIFO blocks until the other end is open or being opened, so
    each blocking open is two steps: arrive, then complete.  Requests are far
    smaller than PIPE_BUF, so each is written and read as one unit.  A client's
    process number is its position in the sequence of clients. */
module FifoSeqnum {
  import opened Counting
  import opened Runs
  import opened Wrappers

  datatype Request = Request(pid: nat, seqLen: int)

  /** What a request was given: the numbers from start to start + seqLen - 1. */
  datatype Grant = Grant(request: Request, start: int)

  datatype ClientPc = AtMkfifo | AtOpenServer | OpeningServer | AtWrite | AtOpenOwn
    | OpeningOwn | AtRead | Done | Failed

  datatype Client = Client(
    seqLen: int,
    pc: ClientPc,
    fifo: bool,                // its own FIFO exists
    writerSeen: bool,          // the server has come to open that FIFO
    data: seq<int>,            // unread responses in that FIFO
    reply: Option<int>,        // what it printed
    grant: Option<int>)        // history: the start the server gave it

  datatype ServerPc =
    | ServerAtMkfifo | ServerAtOpen | ServerOpening | ServerAtOpenDummy | ServerAtRead
    | AtOpenClient(req: Request) | OpeningClient(req: Request) | AtRespond(req: Request)
    | AtClose(req: Request) | AtAdd(req: Request)
    | ServerAborted

  datatype State = State(
    capacity: nat,             // requests the server FIFO can hold
    serverFifo: bool,          // the well-known FIFO exists
    buffer: seq<Request>,
    dummyFd: bool,
    seqNum: int,
    discarded: nat,            // reads that did not return a whole request
    server: ServerPc,
    clients: seq<Client>,
    grants: seq<Grant>)

  datatype Action = Server | ClientStep(pid: nat)

  // ---------- the two ends of each FIFO ----------

  predicate ServerReads(s: State) {
    !s.server.ServerAtMkfifo? && !s.server.ServerAtOpen? && !s.server.ServerAborted?
  }

  /** A client keeps the server FIFO open until it exits. */
  predicate WritesToServer(c: Client) {
    c.pc.OpeningServer? || c.pc.AtWrite? || c.pc.AtOpenOwn? || c.pc.OpeningOwn? || c.pc.AtRead?
  }

  predicate SomeWriter(s: State) {
    s.dummyFd || exists i :: 0 <= i < |s.clients| && WritesToServer(s.clients[i])
  }

  predicate ReadsOwn(c: Client) {
    c.pc.OpeningOwn? || c.pc.AtRead?
  }

  /** The server holds, or is opening, the writing end of this client's FIFO. */
  predicate ServerWritesTo(s: State, pid: nat) {
    (s.server.OpeningClient? || s.server.AtRespond? || s.server.AtClose?) && s.server.req.pid == pid
  }

  // ---------- steps ----------

  predicate Enabled(s: State, a: Action) {
    match a {
      case Server =>
        (match s.server
         case ServerOpening => SomeWriter(s)
         case ServerAtRead => s.buffer != [] || !SomeWriter(s)
         case OpeningClient(req) => req.pid < |s.clients| && ReadsOwn(s.clients[req.pid])
         case ServerAborted => false
         case _ => true)
      case ClientStep(pid) =>
        && pid < |s.clients|
        && var c := s.clients[pid];
        match c.pc
        case OpeningServer => ServerReads(s)
        case AtWrite => |s.buffer| < s.capacity
        case OpeningOwn => c.writerSeen
        case AtRead => c.data != [] || !ServerWritesTo(s, pid)
        case Done | Failed => false
        case _ => true
    }
  }

  function ServerNext(s: State): State {
    match s.server
    case ServerAtMkfifo => s.(serverFifo := true, server := ServerAtOpen)
    case ServerAtOpen => s.(server := ServerOpening)
    case ServerOpening => s.(server := ServerAtOpenDummy)
    case ServerAtOpenDummy => s.(dummyFd := true, server := ServerAtRead)
    case ServerAtRead =>
      // with no writer left read() returns 0: end of file, discarded
      if s.buffer == [] then s.(discarded := s.discarded + 1)
      else s.(buffer := s.buffer[1..], server := AtOpenClient(s.buffer[0]))
    case AtOpenClient(req) =>
      if req.pid < |s.clients| && s.clients[req.pid].fifo then
        s.(server := OpeningClient(req), clients := s.clients[req.pid := s.clients[req.pid].(writerSeen := true)])
      else s.(server := ServerAborted)
    case OpeningClient(req) => s.(server := AtRespond(req))
    case AtRespond(req) =>
      // without a reader write() fails with EPIPE, which is reported and ignored
      if req.pid < |s.clients| && ReadsOwn(s.clients[req.pid]) then
        var c := s.clients[req.pid];
        s.(server := AtClose(req), grants := s.grants + [Grant(req, s.seqNum)],
           clients := s.clients[req.pid := c.(data := c.data + [s.seqNum], grant := Some(s.seqNum))])
      else s.(server := AtClose(req), grants := s.grants + [Grant(req, s.seqNum)])
    case AtClose(req) => s.(server := AtAdd(req))
    case AtAdd(req) => s.(seqNum := s.seqNum + req.seqLen, server := ServerAtRead)
    case ServerAborted => s
  }

  function ClientNext(s: State, pid: nat): State
    requires pid < |s.clients|
  {
    var c := s.clients[pid];
    match c.pc
    case AtMkfifo => s.(clients := s.clients[pid := c.(fifo := true, pc := AtOpenServer)])
    case AtOpenServer =>
      if s.serverFifo then s.(clients := s.clients[pid := c.(pc := OpeningServer)])
      else s.(clients := s.clients[pid := c.(fifo := false, pc := Failed)])
    case OpeningServer => s.(clients := s.clients[pid := c.(pc := AtWrite)])
    case AtWrite => s.(buffer := s.buffer + [Request(pid, c.seqLen)], clients := s.clients[pid := c.(pc := AtOpenOwn)])
    case AtOpenOwn => s.(clients := s.clients[pid := c.(pc := OpeningOwn)])
    case OpeningOwn => s.(clients := s.clients[pid := c.(pc := AtRead)])
    case AtRead =>
      // end of file instead of a response is fatal; either way the exit
      // handler removes the FIFO
      if c.data == [] then s.(clients := s.clients[pid := c.(fifo := false, pc := Failed)])
      else s.(clients := s.clients[pid := c.(fifo := false, data := c.data[1..], reply := Some(c.data[0]), pc := Done)])
    case Done => s
    case Failed => s
  }

  function Next(s: State, a: Action): State {
    match a
    case Server => ServerNext(s)
    case ClientStep(pid) => if pid < |s.clients| then ClientNext(s, pid) else s
  }

  const Program: Machine<State, Action> := Machine(Enabled, Next)

  function NewClient(seqLen: int): Client {
    Client(seqLen, AtMkfifo, false, false, [], None, None)
  }

  /** Clients ask for positive lengths (GN_GT_0); the well-known FIFO may be
      left over from an earlier server. */
  function Initial(capacity: nat, serverFifo: bool, lens: seq<int>): State {
    State(capacity, serverFifo, [], false, 0, 0, ServerAtMkfifo,
          seq(|lens|, i requires 0 <= i < |lens| => NewClient(lens[i])), [])
  }

  predicate Positive(lens: seq<int>) {
    forall i :: 0 <= i < |lens| ==> lens[i] > 0
  }

  ghost predicate Reachable(s: State) {
    exists serverFifo: bool, lens: seq<int> ::
      Positive(lens) && Reaches(Program, Initial(s.capacity, serverFifo, lens), s)
  }

  // ---------- the invariant ----------

  function GrantedLen(c: Client): int { if c.grant.Some? then c.seqLen else 0 }

  function Len(c: Client): int { c.seqLen }

  /** The server has read this client's request and not answered it yet. */
  predicate Handling(s: State, pid: nat) {
    (s.server.AtOpenClient? || s.server.OpeningClient? || s.server.AtRespond?) && s.server.req.pid == pid
  }

  predicate Queued(s: State, pid: nat) {
    exists k :: 0 <= k < |s.buffer| && s.buffer[k].pid == pid
  }

  predicate HasAsked(c: Client) {
    c.pc.AtOpenOwn? || c.pc.OpeningOwn? || c.pc.AtRead? || c.pc.Done?
  }

  predicate ClientOk(s: State, pid: nat)
    requires pid < |s.clients|
  {
    var c := s.clients[pid];
    && c.seqLen > 0
    && (c.fifo <==> !c.pc.AtMkfifo? && !c.pc.Done? && !c.pc.Failed?)
    && (HasAsked(c) <==> c.grant.Some? || Handling(s, pid) || Queued(s, pid))
    && (c.grant.Some? ==> !Handling(s, pid) && !Queued(s, pid))
    && (Handling(s, pid) ==> !Queued(s, pid) && s.server.req.seqLen == c.seqLen)
    && (c.writerSeen <==> c.grant.Some? || (Handling(s, pid) && !s.server.AtOpenClient?))
    && (c.grant.Some? || (Handling(s, pid) && s.server.AtRespond?) ==> !c.pc.AtOpenOwn?)
    && (c.pc.AtRead? ==> c.writerSeen)
    && c.data == (if c.grant.Some? && !c.pc.Done? then [c.grant.value] else [])
    && (c.pc.Done? ==> c.grant.Some?)
    && c.reply == (if c.pc.Done? then c.grant else None)
  }

  predicate BufferOk(s: State) {
    && (forall k :: 0 <= k < |s.buffer| ==>
          s.buffer[k].pid < |s.clients| && s.buffer[k].seqLen == s.clients[s.buffer[k].pid].seqLen)
    && (forall j, k :: 0 <= j < k < |s.buffer| ==> s.buffer[j].pid != s.buffer[k].pid)
  }

  predicate ServerOk(s: State) {
    && !s.server.ServerAborted?
    && s.discarded == 0
    && (s.dummyFd <==>
          && !s.server.ServerAtMkfifo? && !s.server.ServerAtOpen?
          && !s.server.ServerOpening? && !s.server.ServerAtOpenDummy?)
    && (s.server.AtOpenClient? || s.server.OpeningClient? || s.server.AtRespond?
         || s.server.AtClose? || s.server.AtAdd? ==>
          s.server.req.pid < |s.clients|)
  }

  /** Where the next grant will start once the current one is accounted for. */
  function GrantedUpTo(s: State): int {
    s.seqNum + if s.server.AtClose? || s.server.AtAdd? then s.server.req.seqLen else 0
  }

  /** Each range starts where the one before ends. */
  predicate Tiles(grants: seq<Grant>, from: int, upTo: int) {
    if grants == [] then from == upTo
    else grants[0].start == from && Tiles(grants[1..], from + grants[0].request.seqLen, upTo)
  }

  predicate GrantsOk(s: State) {
    && Tiles(s.grants, 0, GrantedUpTo(s))
    && GrantedUpTo(s) == Sum(GrantedLen, s.clients)
    && (forall k :: 0 <= k < |s.grants| ==>
          var r := s.grants[k].request;
          r.pid < |s.clients| && r.seqLen == s.clients[r.pid].seqLen
          && s.clients[r.pid].grant == Some(s.grants[k].start))
    && (forall j, k :: 0 <= j < k < |s.grants| ==> s.grants[j].request.pid != s.grants[k].request.pid)
    && (forall i :: 0 <= i < |s.clients| && s.clients[i].grant.Some? ==>
          exists k :: 0 <= k < |s.grants| && s.grants[k].request.pid == i)
  }

  predicate Inv(s: State) {
    && BufferOk(s)
    && ServerOk(s)
    && GrantsOk(s)
    && forall i :: 0 <= i < |s.clients| ==> ClientOk(s, i)
  }

  lemma {:induction false} TilesSnoc(grants: seq<Grant>, from: int, upTo: int, g: Grant)
    requires Tiles(grants, from, upTo) && g.start == upTo
    ensures Tiles(grants + [g], from, upTo + g.request.seqLen)
  {
    if grants == [] {
      assert (grants + [g])[1..] == [];
    } else {
      TilesSnoc(grants[1..], from + grants[0].request.seqLen, upTo, g);
      assert (grants + [g])[1..] == grants[1..] + [g];
    }
  }

  /** Only a client's write changes the server FIFO, by its own request. */
  lemma QueuedAfterClientStep(s: State, pid: nat, i: nat)
    requires pid < |s.clients|
    ensures Queued(ClientNext(s, pid), i) <==> Queued(s, i) || (i == pid && s.clients[pid].pc.AtWrite?)
  {
    var n := ClientNext(s, pid);
    if Queued(s, i) {
      var k :| 0 <= k < |s.buffer| && s.buffer[k].pid == i;
      assert n.buffer[k] == s.buffer[k];
    }
    if s.clients[pid].pc.AtWrite? {
      assert n.buffer[|s.buffer|].pid == pid;
      if Queued(n, i) {
        var k :| 0 <= k < |n.buffer| && n.buffer[k].pid == i;
        assert k < |s.buffer| ==> n.buffer[k] == s.buffer[k];
      }
    } else {
      assert n.buffer == s.buffer;
    }
  }

  lemma ClientStepKeepsOwn(s: State, pid: nat)
    requires ServerOk(s) && Enabled(s, ClientStep(pid)) && ClientOk(s, pid)
    ensures ClientOk(ClientNext(s, pid), pid)
  {
    QueuedAfterClientStep(s, pid, pid);
    assert Handling(ClientNext(s, pid), pid) == Handling(s, pid);
  }

  lemma ClientStepKeepsOther(s: State, pid: nat, i: nat)
    requires Enabled(s, ClientStep(pid)) && i < |s.clients| && i != pid && ClientOk(s, i)
    ensures ClientOk(ClientNext(s, pid), i)
  {
    QueuedAfterClientStep(s, pid, i);
    assert Handling(ClientNext(s, pid), i) == Handling(s, i);
  }

  /** A client's own step keeps its part of the invariant and, since it touches
      nothing of theirs, that of the others. */
  lemma ClientStepKeepsClients(s: State, pid: nat)
    requires Inv(s) && Enabled(s, ClientStep(pid))
    ensures var n := ClientNext(s, pid);
            forall i :: 0 <= i < |n.clients| ==> ClientOk(n, i)
  {
    var n := ClientNext(s, pid);
    forall i | 0 <= i < |n.clients| ensures ClientOk(n, i) {
      assert ClientOk(s, i);
      if i == pid {
        ClientStepKeepsOwn(s, pid);
      } else {
        ClientStepKeepsOther(s, pid, i);
      }
    }
  }

  /** What the grants depend on is not the client's to change. */
  lemma ClientStepChangesNoGrant(s: State, pid: nat)
    requires pid < |s.clients|
    ensures var n := ClientNext(s, pid);
            && n.grants == s.grants && n.server == s.server && n.seqNum == s.seqNum
            && n.dummyFd == s.dummyFd && n.discarded == s.discarded
            && |n.clients| == |s.clients| && n.clients == s.clients[pid := n.clients[pid]]
            && n.clients[pid].grant == s.clients[pid].grant && n.clients[pid].seqLen == s.clients[pid].seqLen
  {
  }

  /** All that matters of a client here is its length and its grant. */
  lemma SameGrantsStayOk(s: State, n: State)
    requires GrantsOk(s) && n.grants == s.grants && GrantedUpTo(n) == GrantedUpTo(s)
    requires |n.clients| == |s.clients| && Sum(GrantedLen, n.clients) == Sum(GrantedLen, s.clients)
    requires forall i :: 0 <= i < |s.clients| ==>
               n.clients[i].grant == s.clients[i].grant && n.clients[i].seqLen == s.clients[i].seqLen
    ensures GrantsOk(n)
  {
  }

  lemma ClientStepKeepsGrants(s: State, pid: nat)
    requires GrantsOk(s) && pid < |s.clients|
    ensures GrantsOk(ClientNext(s, pid))
  {
    ClientStepChangesNoGrant(s, pid);
    SumUpdate(GrantedLen, s.clients, pid, ClientNext(s, pid).clients[pid]);
    SameGrantsStayOk(s, ClientNext(s, pid));
  }

  lemma ClientStepKeepsBuffer(s: State, pid: nat)
    requires BufferOk(s) && pid < |s.clients| && (s.clients[pid].pc.AtWrite? ==> !Queued(s, pid))
    ensures BufferOk(ClientNext(s, pid))
  {
    var n := ClientNext(s, pid);
    ClientStepChangesNoGrant(s, pid);
    if s.clients[pid].pc.AtWrite? {
      assert n.buffer == s.buffer + [Request(pid, s.clients[pid].seqLen)];
      forall k | 0 <= k < |s.buffer| ensures s.buffer[k].pid != pid {
      }
    } else {
      assert n.buffer == s.buffer;
    }
  }

  lemma ClientStepKeepsServer(s: State, pid: nat)
    requires ServerOk(s) && pid < |s.clients|
    ensures ServerOk(ClientNext(s, pid))
  {
    ClientStepChangesNoGrant(s, pid);
  }

  lemma ClientStepKeepsInv(s: State, pid: nat)
    requires Inv(s) && Enabled(s, ClientStep(pid))
    ensures Inv(ClientNext(s, pid))
  {
    assert ClientOk(s, pid);
    ClientStepKeepsClients(s, pid);
    ClientStepKeepsGrants(s, pid);
    ClientStepKeepsBuffer(s, pid);
    ClientStepKeepsServer(s, pid);
  }

  lemma ServerReadKeepsInv(s: State)
    requires Inv(s) && Enabled(s, Server) && s.server.ServerAtRead?
    ensures Inv(ServerNext(s))
  {
    var n := ServerNext(s);
    assert s.buffer != [];
    assert BufferOk(n);
    forall i | 0 <= i < |n.clients| ensures ClientOk(n, i) {
      assert ClientOk(s, i);
      if Queued(s, i) {
        var k :| 0 <= k < |s.buffer| && s.buffer[k].pid == i;
        if k > 0 {
          assert n.buffer[k - 1].pid == i;
        }
      }
      if Queued(n, i) {
        var k :| 0 <= k < |n.buffer| && n.buffer[k].pid == i;
        assert s.buffer[k + 1].pid == i;
      }
      assert Queued(s, i) <==> Queued(n, i) || s.buffer[0].pid == i;
    }
  }

  lemma ServerOpenKeepsInv(s: State)
    requires Inv(s) && s.server.AtOpenClient?
    ensures Inv(ServerNext(s))
  {
    var n := ServerNext(s);
    var pid := s.server.req.pid;
    assert ClientOk(s, pid);
    SumUpdate(GrantedLen, s.clients, pid, n.clients[pid]);
    forall i | 0 <= i < |n.clients| ensures ClientOk(n, i) {
      assert ClientOk(s, i);
      assert Queued(n, i) == Queued(s, i);
    }
    forall i | 0 <= i < |n.clients| && n.clients[i].grant.Some?
      ensures exists k :: 0 <= k < |n.grants| && n.grants[k].request.pid == i
    {
      assert s.clients[i].grant.Some?;
    }
  }

  /** The client about to be answered is there to read. */
  lemma RespondFindsReader(s: State)
    requires Inv(s) && s.server.AtRespond?
    ensures var pid := s.server.req.pid;
            && pid < |s.clients| && ReadsOwn(s.clients[pid]) && s.clients[pid].grant.None?
            && s.clients[pid].seqLen == s.server.req.seqLen
            && forall k :: 0 <= k < |s.grants| ==> s.grants[k].request.pid != pid
  {
    assert ClientOk(s, s.server.req.pid);
  }

  lemma RespondKeepsTiling(s: State)
    requires Inv(s) && s.server.AtRespond?
    ensures var n := ServerNext(s);
            Tiles(n.grants, 0, GrantedUpTo(n)) && GrantedUpTo(n) == Sum(GrantedLen, n.clients)
  {
    RespondFindsReader(s);
    var pid := s.server.req.pid;
    SumUpdate(GrantedLen, s.clients, pid, ServerNext(s).clients[pid]);
    TilesSnoc(s.grants, 0, s.seqNum, Grant(s.server.req, s.seqNum));
  }

  /** The grants match what the clients hold. */
  lemma RespondKeepsMatches(s: State)
    requires Inv(s) && s.server.AtRespond?
    ensures var n := ServerNext(s);
            && (forall k :: 0 <= k < |n.grants| ==>
                  var r := n.grants[k].request;
                  r.pid < |n.clients| && r.seqLen == n.clients[r.pid].seqLen
                  && n.clients[r.pid].grant == Some(n.grants[k].start))
            && (forall j, k :: 0 <= j < k < |n.grants| ==> n.grants[j].request.pid != n.grants[k].request.pid)
  {
    RespondFindsReader(s);
  }

  /** And every client that holds a grant is among them. */
  lemma RespondKeepsGranted(s: State)
    requires Inv(s) && s.server.AtRespond?
    ensures var n := ServerNext(s);
            forall i :: 0 <= i < |n.clients| && n.clients[i].grant.Some? ==>
              exists k :: 0 <= k < |n.grants| && n.grants[k].request.pid == i
  {
    var n := ServerNext(s);
    var pid := s.server.req.pid;
    RespondFindsReader(s);
    assert n.grants[|s.grants|].request.pid == pid;
    forall i | 0 <= i < |n.clients| && n.clients[i].grant.Some?
      ensures exists k :: 0 <= k < |n.grants| && n.grants[k].request.pid == i
    {
      if i != pid {
        var k :| 0 <= k < |s.grants| && s.grants[k].request.pid == i;
        assert n.grants[k].request.pid == i;
      }
    }
  }

  lemma RespondKeepsInv(s: State)
    requires Inv(s) && s.server.AtRespond?
    ensures Inv(ServerNext(s))
  {
    var n := ServerNext(s);
    RespondKeepsTiling(s);
    RespondKeepsMatches(s);
    RespondKeepsGranted(s);
    RespondFindsReader(s);
    assert ClientOk(s, s.server.req.pid);
    forall i | 0 <= i < |n.clients| ensures ClientOk(n, i) {
      assert ClientOk(s, i);
      assert Queued(n, i) == Queued(s, i);
    }
  }

  lemma OtherServerStepKeepsClient(s: State, i: nat)
    requires ServerOk(s) && Enabled(s, Server) && i < |s.clients| && ClientOk(s, i)
    requires !s.server.ServerAtRead? && !s.server.AtOpenClient? && !s.server.AtRespond?
    ensures ClientOk(ServerNext(s), i)
  {
    var n := ServerNext(s);
    assert Queued(n, i) == Queued(s, i);
    assert Handling(n, i) == Handling(s, i);
  }

  lemma OtherServerStepKeepsInv(s: State)
    requires Inv(s) && Enabled(s, Server)
    requires !s.server.ServerAtRead? && !s.server.AtOpenClient? && !s.server.AtRespond?
    ensures Inv(ServerNext(s))
  {
    var n := ServerNext(s);
    if s.server.OpeningClient? {
      assert ClientOk(s, s.server.req.pid);
    }
    assert n.clients == s.clients && n.buffer == s.buffer && n.grants == s.grants;
    forall i | 0 <= i < |n.clients| ensures ClientOk(n, i) {
      assert ClientOk(s, i);
      OtherServerStepKeepsClient(s, i);
    }
    assert GrantedUpTo(n) == GrantedUpTo(s);
  }

  lemma InvStep(s: State, a: Action)
    requires Inv(s) && Enabled(s, a)
    ensures Inv(Next(s, a))
  {
    match a {
      case ClientStep(pid) => ClientStepKeepsInv(s, pid);
      case Server =>
        if s.server.ServerAtRead? {
          ServerReadKeepsInv(s);
        } else if s.server.AtOpenClient? {
          ServerOpenKeepsInv(s);
        } else if s.server.AtRespond? {
          RespondKeepsInv(s);
        } else {
          OtherServerStepKeepsInv(s);
        }
    }
  }

  lemma InvInitially(capacity: nat, serverFifo: bool, lens: seq<int>)
    requires Positive(lens)
    ensures Inv(Initial(capacity, serverFifo, lens))
  {
    var s := Initial(capacity, serverFifo, lens);
    SumConstant(GrantedLen, s.clients, 0);
    forall i | 0 <= i < |s.clients| ensures ClientOk(s, i) {
      assert s.clients[i] == NewClient(lens[i]);
    }
  }

  lemma InvAlways(s: State)
    requires Reachable(s)
    ensures Inv(s)
  {
    var serverFifo: bool, lens: seq<int> :|
      Positive(lens) && Reaches(Program, Initial(s.capacity, serverFifo, lens), s);
    InvInitially(s.capacity, serverFifo, lens);
    forall t, a | Inv(t) && Program.enabled(t, a) ensures Inv(Program.next(t, a)) {
      InvStep(t, a);
    }
    AlwaysReached(Program, Inv, Initial(s.capacity, serverFifo, lens), s);
  }

  lemma ReachableOn(s: State, t: State)
    requires Reachable(s) && Reaches(Program, s, t)
    ensures Reachable(t)
  {
    var serverFifo: bool, lens: seq<int> :|
      Positive(lens) && Reaches(Program, Initial(s.capacity, serverFifo, lens), s);
    AlwaysReached(Program, (u: State) => u.capacity == s.capacity, s, t);
    ReachesTransitive(Program, Initial(s.capacity, serverFifo, lens), s, t);
  }

  // ---------- what the two programs promise ----------

  /** The number x belongs to this grant. */
  predicate Covers(g: Grant, x: int) {
    g.start <= x < g.start + g.request.seqLen
  }

  /** Ranges that tile an interval cover each of its numbers exactly once and
      nothing outside it. */
  lemma {:induction false} TilesPartition(grants: seq<Grant>, from: int, upTo: int, x: int)
    requires Tiles(grants, from, upTo)
    requires forall k :: 0 <= k < |grants| ==> grants[k].request.seqLen > 0
    ensures from <= upTo
    ensures from <= x < upTo <==> exists k :: 0 <= k < |grants| && Covers(grants[k], x)
    ensures forall j, k :: 0 <= j < k < |grants| ==> !(Covers(grants[j], x) && Covers(grants[k], x))
  {
    if grants != [] {
      var rest := from + grants[0].request.seqLen;
      TilesPartition(grants[1..], rest, upTo, x);
      if exists k :: 0 <= k < |grants[1..]| && Covers(grants[1..][k], x) {
        var k :| 0 <= k < |grants[1..]| && Covers(grants[1..][k], x);
        assert Covers(grants[k + 1], x);
      }
      forall k | 0 < k < |grants| ensures Covers(grants[k], x) ==> rest <= x < upTo {
        assert grants[k] == grants[1..][k - 1];
      }
      forall j, k | 0 < j < k < |grants| ensures !(Covers(grants[j], x) && Covers(grants[k], x)) {
        assert grants[j] == grants[1..][j - 1] && grants[k] == grants[1..][k - 1];
      }
      assert Covers(grants[0], x) <==> from <= x < rest;
    }
  }

  /** At the head of the server's loop every number below seqNum has been
      granted to exactly one request, and no other number to any. */
  lemma GrantsPartition(s: State, x: int)
    requires Reachable(s) && s.server.ServerAtRead?
    ensures 0 <= x < s.seqNum <==> exists k :: 0 <= k < |s.grants| && Covers(s.grants[k], x)
    ensures forall j, k :: 0 <= j < k < |s.grants| ==> !(Covers(s.grants[j], x) && Covers(s.grants[k], x))
  {
    InvAlways(s);
    forall k | 0 <= k < |s.grants| ensures s.grants[k].request.seqLen > 0 {
      assert ClientOk(s, s.grants[k].request.pid);
    }
    TilesPartition(s.grants, 0, s.seqNum, x);
  }

  predicate JustGranted(s: State) {
    s.server.AtClose? || s.server.AtAdd? ==>
      |s.grants| > 0 && s.grants[|s.grants| - 1] == Grant(s.server.req, s.seqNum)
  }

  lemma JustGrantedStep(s: State, a: Action)
    requires JustGranted(s) && Enabled(s, a)
    ensures JustGranted(Next(s, a))
  {
    if a.ClientStep? {
      ClientStepChangesNoGrant(s, a.pid);
    }
  }

  /** While the server closes a client's FIFO, that client's is the last grant. */
  lemma LastGrant(s: State)
    requires Reachable(s)
    ensures JustGranted(s)
  {
    var serverFifo: bool, lens: seq<int> :|
      Positive(lens) && Reaches(Program, Initial(s.capacity, serverFifo, lens), s);
    var start := Initial(s.capacity, serverFifo, lens);
    forall t, a | JustGranted(t) && Program.enabled(t, a) ensures JustGranted(Program.next(t, a)) {
      JustGrantedStep(t, a);
    }
    AlwaysReached(Program, JustGranted, start, s);
  }

  lemma {:induction false} TilesPrefix(grants: seq<Grant>, from: int, upTo: int)
    requires Tiles(grants, from, upTo) && |grants| > 0
    requires forall k :: 0 <= k < |grants| ==> grants[k].request.seqLen > 0
    ensures from <= grants[|grants| - 1].start < upTo
  {
    if |grants| == 1 {
      assert grants[1..] == [];
    } else {
      TilesPrefix(grants[1..], from + grants[0].request.seqLen, upTo);
    }
  }

  function Itself(n: int): int { n }

  predicate LengthsAre(s: State, lens: seq<int>) {
    |s.clients| == |lens| && forall i :: 0 <= i < |lens| ==> s.clients[i].seqLen == lens[i]
  }

  lemma LengthsStep(s: State, a: Action, lens: seq<int>)
    requires LengthsAre(s, lens) && |s.buffer| <= s.capacity && Enabled(s, a)
    ensures LengthsAre(Next(s, a), lens) && |Next(s, a).buffer| <= Next(s, a).capacity == s.capacity
  {
    if a.ClientStep? && a.pid < |s.clients| {
      ClientStepChangesNoGrant(s, a.pid);
    }
  }

  /** The server FIFO never holds more than it can, and the lengths in the
      state are those the clients were started with. */
  lemma ClientsAsStarted(capacity: nat, serverFifo: bool, lens: seq<int>, s: State)
    requires Reaches(Program, Initial(capacity, serverFifo, lens), s)
    ensures |s.buffer| <= s.capacity == capacity && LengthsAre(s, lens)
    ensures Sum(Len, s.clients) == Sum(Itself, lens)
  {
    var inv := (t: State) => |t.buffer| <= t.capacity == capacity && LengthsAre(t, lens);
    forall t, a | inv(t) && Program.enabled(t, a) ensures inv(Program.next(t, a)) {
      LengthsStep(t, a, lens);
    }
    AlwaysReached(Program, inv, Initial(capacity, serverFifo, lens), s);
    SumMonotone(Len, s.clients, Itself, lens);
    SumMonotone(Itself, lens, Len, s.clients);
  }

  /** Every grant is to a client, and of the length that client asked for. */
  lemma GrantsAsAsked(capacity: nat, serverFifo: bool, lens: seq<int>, s: State)
    requires Positive(lens) && Reaches(Program, Initial(capacity, serverFifo, lens), s)
    ensures forall k :: 0 <= k < |s.grants| ==>
              var r := s.grants[k].request; r.pid < |lens| && r.seqLen == lens[r.pid]
  {
    ClientsAsStarted(capacity, serverFifo, lens, s);
    InvAlways(s);
  }

  lemma GrantedAtMost(s: State)
    requires Inv(s)
    ensures 0 <= GrantedUpTo(s) <= Sum(Len, s.clients)
  {
    forall i | 0 <= i < |s.clients| ensures 0 <= GrantedLen(s.clients[i]) <= Len(s.clients[i]) {
      assert ClientOk(s, i);
    }
    SumNonNegative(GrantedLen, s.clients);
    SumMonotone(GrantedLen, s.clients, Len, s.clients);
  }

  /** seqNum never exceeds the sum of the lengths the clients were started
      with, so it stays within an int when that sum does. */
  lemma NoOverflow(capacity: nat, serverFifo: bool, lens: seq<int>, s: State)
    requires Positive(lens) && Reaches(Program, Initial(capacity, serverFifo, lens), s)
    ensures 0 <= s.seqNum <= GrantedUpTo(s) <= Sum(Itself, lens)
  {
    ClientsAsStarted(capacity, serverFifo, lens, s);
    InvAlways(s);
    GrantedAtMost(s);
    forall k | 0 <= k < |s.grants| ensures s.grants[k].request.seqLen > 0 {
      assert ClientOk(s, s.grants[k].request.pid);
    }
    if s.server.AtClose? || s.server.AtAdd? {
      LastGrant(s);
      TilesPrefix(s.grants, 0, GrantedUpTo(s));
    }
  }

  /** A client that has its answer was granted exactly that range. */
  lemma RepliesReachRequesters(capacity: nat, serverFifo: bool, lens: seq<int>, s: State, pid: nat)
    requires Positive(lens) && Reaches(Program, Initial(capacity, serverFifo, lens), s)
    requires pid < |s.clients| && s.clients[pid].pc.Done?
    ensures |s.clients| == |lens|
    ensures exists k :: 0 <= k < |s.grants|
              && s.grants[k] == Grant(Request(pid, lens[pid]), s.grants[k].start)
              && s.clients[pid].reply == Some(s.grants[k].start)
              && forall j :: 0 <= j < |s.grants| && s.grants[j].request.pid == pid ==> j == k
  {
    ClientsAsStarted(capacity, serverFifo, lens, s);
    InvAlways(s);
    assert ClientOk(s, pid);
    var k :| 0 <= k < |s.grants| && s.grants[k].request.pid == pid;
  }

  /** The server never sees end of file and always finds the client's FIFO;
      no client reads end of file instead of its response. */
  lemma NoErrors(s: State)
    requires Reachable(s)
    ensures !s.server.ServerAborted? && s.discarded == 0
    ensures s.server.AtOpenClient? ==> s.server.req.pid < |s.clients| && s.clients[s.server.req.pid].fifo
    ensures s.server.AtRespond? ==> s.server.req.pid < |s.clients| && ReadsOwn(s.clients[s.server.req.pid])
    ensures forall pid :: 0 <= pid < |s.clients| && s.clients[pid].pc.AtRead? && Enabled(s, ClientStep(pid)) ==>
              s.clients[pid].data != []
  {
    InvAlways(s);
    if s.server.AtOpenClient? || s.server.AtRespond? {
      assert ClientOk(s, s.server.req.pid);
    }
    forall pid | 0 <= pid < |s.clients| && s.clients[pid].pc.AtRead? && Enabled(s, ClientStep(pid))
      ensures s.clients[pid].data != []
    {
      assert ClientOk(s, pid);
    }
  }

  /** What the errors would lead to: a client FIFO that is missing ends the
      server, a read without a whole request is discarded, and a client that
      reads end of file fails and removes its FIFO. */
  lemma ErrorsWouldBeFatal(s: State, pid: nat)
    requires pid < |s.clients|
    ensures s.server == AtOpenClient(Request(pid, s.clients[pid].seqLen)) && !s.clients[pid].fifo ==>
              ServerNext(s) == s.(server := ServerAborted) && !Enabled(ServerNext(s), Server)
    ensures s.server.ServerAtRead? && s.buffer == [] ==> ServerNext(s) == s.(discarded := s.discarded + 1)
    ensures s.clients[pid].pc.AtRead? && s.clients[pid].data == [] ==>
              var c := ClientNext(s, pid).clients[pid]; c.pc.Failed? && !c.fifo && c.reply == s.clients[pid].reply
  {
  }

  /** A client has come to open the well-known FIFO. */
  predicate Came(c: Client) {
    WritesToServer(c) || c.pc.Done?
  }

  /** Both ends of the well-known FIFO are opened together. */
  predicate Met(s: State) {
    && (s.server.ServerAtMkfifo? || s.server.ServerAtOpen? || s.server.ServerOpening?
        || exists i :: 0 <= i < |s.clients| && Came(s.clients[i]))
    && forall i :: 0 <= i < |s.clients| && Came(s.clients[i]) && !s.clients[i].pc.OpeningServer? ==>
         !s.server.ServerAtMkfifo? && !s.server.ServerAtOpen?
  }

  lemma ClientsMeet(s: State, pid: nat)
    requires Met(s) && Enabled(s, ClientStep(pid)) && ServerOk(s) && ClientOk(s, pid)
    ensures Met(ClientNext(s, pid))
  {
    var n := ClientNext(s, pid);
    ClientStepChangesNoGrant(s, pid);
    assert Came(s.clients[pid]) ==> Came(n.clients[pid]);
    if i: nat :| i < |s.clients| && Came(s.clients[i]) {
      assert Came(n.clients[i]);
    }
  }

  lemma ServerMeets(s: State)
    requires Met(s) && Enabled(s, Server) && ServerOk(s)
    ensures Met(ServerNext(s))
  {
    var n := ServerNext(s);
    assert |n.clients| == |s.clients|;
    forall i | 0 <= i < |s.clients| ensures n.clients[i].pc == s.clients[i].pc {
    }
    if s.server.ServerOpening? {
      var i :| 0 <= i < |s.clients| && WritesToServer(s.clients[i]);
      assert Came(n.clients[i]);
    } else if i: nat :| i < |s.clients| && Came(s.clients[i]) {
      assert Came(n.clients[i]);
    }
  }

  /** The server gets past its first open only when a client has come, and a
      client past its own only when the server has. */
  lemma Rendezvous(s: State)
    requires Reachable(s)
    ensures Met(s)
  {
    var serverFifo: bool, lens: seq<int> :|
      Positive(lens) && Reaches(Program, Initial(s.capacity, serverFifo, lens), s);
    InvInitially(s.capacity, serverFifo, lens);
    forall t, a | Inv(t) && Met(t) && Program.enabled(t, a) ensures Inv(Program.next(t, a)) && Met(Program.next(t, a)) {
      InvStep(t, a);
      match a
      case Server => ServerMeets(t);
      case ClientStep(pid) => ClientsMeet(t, pid);
    }
    AlwaysReached(Program, (t: State) => Inv(t) && Met(t), Initial(s.capacity, serverFifo, lens), s);
  }

  /** Before the server has made the well-known FIFO it may be missing, and
      after that it never is. */
  predicate FifoMade(s: State) {
    s.server.ServerAtMkfifo? || s.serverFifo
  }

  lemma FifoMadeAlways(s: State)
    requires Reachable(s)
    ensures FifoMade(s)
  {
    var serverFifo: bool, lens: seq<int> :|
      Positive(lens) && Reaches(Program, Initial(s.capacity, serverFifo, lens), s);
    var start := Initial(s.capacity, serverFifo, lens);
    AlwaysReached(Program, FifoMade, start, s);
  }

  /** The only step on which a client fails is opening the well-known FIFO
      while there is none, before the server's mkfifo(). */
  lemma FailsOnlyBeforeServer(s: State, a: Action, pid: nat)
    requires Reachable(s) && Enabled(s, a) && pid < |s.clients| == |Next(s, a).clients|
    requires !s.clients[pid].pc.Failed?
    ensures Next(s, a).clients[pid].pc.Failed? <==>
              a == ClientStep(pid) && s.clients[pid].pc.AtOpenServer? && !s.serverFifo
    ensures Next(s, a).clients[pid].pc.Failed? ==> s.server.ServerAtMkfifo?
  {
    InvAlways(s);
    FifoMadeAlways(s);
    assert ClientOk(s, pid);
  }

  lemma NoFailureStep(s: State, a: Action)
    requires Inv(s) && Enabled(s, a) && s.serverFifo
    requires forall i :: 0 <= i < |s.clients| ==> !s.clients[i].pc.Failed?
    ensures Next(s, a).serverFifo
    ensures forall i :: 0 <= i < |Next(s, a).clients| ==> !Next(s, a).clients[i].pc.Failed?
  {
    if a.ClientStep? {
      assert ClientOk(s, a.pid);
    }
  }

  /** With the well-known FIFO left over from an earlier server no client fails. */
  lemma FailsOnlyWithoutServer(capacity: nat, lens: seq<int>, s: State, pid: nat)
    requires Positive(lens) && Reaches(Program, Initial(capacity, true, lens), s) && pid < |s.clients|
    ensures !s.clients[pid].pc.Failed?
  {
    var start := Initial(capacity, true, lens);
    InvInitially(capacity, true, lens);
    var inv := (t: State) => Inv(t) && t.serverFifo && forall i :: 0 <= i < |t.clients| ==> !t.clients[i].pc.Failed?;
    forall t, a | inv(t) && Program.enabled(t, a) ensures inv(Program.next(t, a)) {
      InvStep(t, a);
      NoFailureStep(t, a);
    }
    AlwaysReached(Program, inv, start, s);
  }

  /** With any clients at all, some client can fail exactly when the well-known
      FIFO is missing at the start. */
  lemma FailureExactly(capacity: nat, serverFifo: bool, lens: seq<int>)
    requires Positive(lens) && lens != []
    ensures (exists s, pid: nat ::
               && Reaches(Program, Initial(capacity, serverFifo, lens), s)
               && pid < |s.clients| && s.clients[pid].pc.Failed?)
       <==> !serverFifo
  {
    var start := Initial(capacity, serverFifo, lens);
    if serverFifo {
      forall s, pid: nat | Reaches(Program, start, s) && pid < |s.clients| ensures !s.clients[pid].pc.Failed? {
        FailsOnlyWithoutServer(capacity, lens, s, pid);
      }
    } else {
      ReachesSelf(Program, start);
      ReachesStep(Program, start, start, ClientStep(0));
      var s := ClientNext(start, 0);
      ReachesStep(Program, start, s, ClientStep(0));
      assert ClientNext(s, 0).clients[0].pc.Failed?;
    }
  }

  predicate Finished(c: Client) {
    c.pc.Done? || c.pc.Failed?
  }

  /** An unfinished client that the server is not busy with can go on by itself. */
  lemma ClientCanGoOn(s: State, pid: nat)
    requires Inv(s) && s.capacity >= 1 && pid < |s.clients| && !Finished(s.clients[pid])
    requires s.buffer == [] && s.server.ServerAtRead?
    ensures Enabled(s, ClientStep(pid))
  {
    assert ClientOk(s, pid);
  }

  /** No state with a client still waiting for its answer is stuck. */
  lemma NoDeadlock(s: State, pid: nat)
    requires Reachable(s) && s.capacity >= 1 && pid < |s.clients| && !Finished(s.clients[pid])
    ensures !Stuck(Program, s)
  {
    InvAlways(s);
    if Enabled(s, Server) {
    } else if s.server.ServerOpening? {
      assert !WritesToServer(s.clients[pid]);
      assert Enabled(s, ClientStep(pid));
    } else if s.server.ServerAtRead? {
      ClientCanGoOn(s, pid);
      assert Enabled(s, ClientStep(pid));
    } else {
      assert s.server.OpeningClient?;
      assert ClientOk(s, s.server.req.pid);
      assert Enabled(s, ClientStep(s.server.req.pid));
    }
  }

  // ---------- every run comes to an end ----------

  function StepsLeft(c: Client): int {
    match c.pc
    case AtMkfifo => 15
    case AtOpenServer => 14
    case OpeningServer => 13
    case AtWrite => 12
    case AtOpenOwn => 3
    case OpeningOwn => 2
    case AtRead => 1
    case Done => 0
    case Failed => 0
  }

  function Rank(pc: ServerPc): int {
    match pc
    case ServerAtMkfifo => 4
    case ServerAtOpen => 3
    case ServerOpening => 2
    case ServerAtOpenDummy => 1
    case ServerAtRead => 0
    case AtOpenClient(_) => 6
    case OpeningClient(_) => 5
    case AtRespond(_) => 4
    case AtClose(_) => 3
    case AtAdd(_) => 2
    case ServerAborted => 0
  }

  function Measure(s: State): int {
    Sum(StepsLeft, s.clients) + 8 * |s.buffer| + Rank(s.server)
  }

  lemma ClientWeighsLess(s: State, pid: nat)
    requires Enabled(s, ClientStep(pid))
    ensures var n := ClientNext(s, pid);
            pid < |n.clients| && StepsLeft(n.clients[pid]) + 8 * |n.buffer| < StepsLeft(s.clients[pid]) + 8 * |s.buffer|
  {
    assert s.clients[pid].pc.AtWrite? ==> |ClientNext(s, pid).buffer| == |s.buffer| + 1;
  }

  lemma ClientMeasure(s: State, pid: nat)
    requires Enabled(s, ClientStep(pid))
    ensures Measure(ClientNext(s, pid)) < Measure(s)
  {
    ClientStepChangesNoGrant(s, pid);
    ClientWeighsLess(s, pid);
    SumUpdate(StepsLeft, s.clients, pid, ClientNext(s, pid).clients[pid]);
  }

  /** No step of the server moves a client on. */
  lemma ServerMovesNoClient(s: State)
    requires Inv(s) && Enabled(s, Server)
    ensures Sum(StepsLeft, ServerNext(s).clients) == Sum(StepsLeft, s.clients)
  {
    if s.server.AtOpenClient? || s.server.AtRespond? {
      SumUpdate(StepsLeft, s.clients, s.server.req.pid, ServerNext(s).clients[s.server.req.pid]);
    } else {
      assert ServerNext(s).clients == s.clients;
    }
  }

  lemma ServerMeasure(s: State)
    requires Inv(s) && Enabled(s, Server)
    ensures Measure(ServerNext(s)) < Measure(s)
  {
    ServerMovesNoClient(s);
    assert s.server.ServerAtRead? ==> s.buffer != [];
  }

  lemma MeasureStep(s: State, a: Action)
    requires Inv(s) && Enabled(s, a)
    ensures Measure(Next(s, a)) < Measure(s)
  {
    match a
    case ClientStep(pid) => ClientMeasure(s, pid);
    case Server => ServerMeasure(s);
  }

  lemma InitialMeasure(capacity: nat, serverFifo: bool, lens: seq<int>)
    ensures Measure(Initial(capacity, serverFifo, lens)) == 15 * |lens| + 4
  {
    SumConstant(StepsLeft, Initial(capacity, serverFifo, lens).clients, 15);
  }

  lemma MeasureNonNegative(s: State)
    ensures Measure(s) >= 0
  {
    SumNonNegative(StepsLeft, s.clients);
  }

  /** Every run ends. */
  lemma RunsEnd(capacity: nat, serverFifo: bool, lens: seq<int>, run: seq<Action>)
    requires Positive(lens) && Feasible(Program, Initial(capacity, serverFifo, lens), run)
    ensures |run| <= 15 * |lens| + 4
  {
    var start := Initial(capacity, serverFifo, lens);
    InvInitially(capacity, serverFifo, lens);
    forall t, a | Inv(t) && Program.enabled(t, a)
      ensures Inv(Program.next(t, a)) && Measure(Program.next(t, a)) < Measure(t)
    {
      InvStep(t, a);
      MeasureStep(t, a);
    }
    Terminates(Program, Inv, Measure, start, run);
    MeasureNonNegative(After(Program, start, run));
    InitialMeasure(capacity, serverFifo, lens);
  }

  /** Where the server can be when nothing moves any more. */
  lemma ServerWaits(s: State)
    requires Inv(s) && Stuck(Program, s)
    ensures s.server.ServerAtRead? || s.server.ServerOpening?
  {
    assert !Enabled(s, Server);
    if s.server.OpeningClient? {
      assert ClientOk(s, s.server.req.pid);
      assert !Enabled(s, ClientStep(s.server.req.pid));
    }
  }

  /** With every client answered all that was asked for has been granted. */
  lemma AllGranted(s: State)
    requires Inv(s) && (s.server.ServerAtRead? || s.server.ServerOpening?)
    requires forall i :: 0 <= i < |s.clients| ==> s.clients[i].pc.Done?
    ensures s.seqNum == Sum(Len, s.clients)
  {
    forall i | 0 <= i < |s.clients| ensures GrantedLen(s.clients[i]) == Len(s.clients[i]) {
      assert ClientOk(s, i);
    }
    SumMonotone(GrantedLen, s.clients, Len, s.clients);
    SumMonotone(Len, s.clients, GrantedLen, s.clients);
  }

  /** A run that is not cut short ends with the server at the head of its loop,
      or still waiting for a first client, and with every client answered or,
      if the well-known FIFO was missing at the start, failed.  If none has
      failed, seqNum is the sum of all lengths. */
  lemma CompleteRuns(capacity: nat, serverFifo: bool, lens: seq<int>, s: State)
    requires Positive(lens) && capacity >= 1
    requires Reaches(Program, Initial(capacity, serverFifo, lens), s) && Stuck(Program, s)
    ensures s.server.ServerAtRead? || s.server.ServerOpening?
    ensures |s.clients| == |lens|
    ensures forall pid :: 0 <= pid < |lens| ==>
              if s.clients[pid].pc.Done? then s.clients[pid].reply.Some?
              else s.clients[pid].pc.Failed? && !serverFifo
    ensures (forall pid :: 0 <= pid < |lens| ==> s.clients[pid].pc.Done?) ==> s.seqNum == Sum(Itself, lens)
  {
    ClientsAsStarted(capacity, serverFifo, lens, s);
    InvAlways(s);
    ServerWaits(s);
    forall pid: nat | pid < |lens|
      ensures if s.clients[pid].pc.Done? then s.clients[pid].reply.Some?
              else s.clients[pid].pc.Failed? && !serverFifo
    {
      if !Finished(s.clients[pid]) {
        NoDeadlock(s, pid);
      } else if s.clients[pid].pc.Done? {
        assert ClientOk(s, pid);
      } else if serverFifo {
        FailsOnlyWithoutServer(capacity, lens, s, pid);
      }
    }
    if forall pid :: 0 <= pid < |lens| ==> s.clients[pid].pc.Done? {
      AllGranted(s);
      }
  }

  // ---------- first come, first served ----------

  /** The clients whose requests have been read or are in the server FIFO, in
      the order in which the server gets to them. */
  function InLine(s: State): seq<nat> {
    seq(|s.grants|, k requires 0 <= k < |s.grants| => s.grants[k].request.pid)
    + (if s.server.AtOpenClient? || s.server.OpeningClient? || s.server.AtRespond? then [s.server.req.pid] else [])
    + seq(|s.buffer|, k requires 0 <= k < |s.buffer| => s.buffer[k].pid)
  }

  /** The client that writes its request in this step, if one does. */
  function Writer(s: State, a: Action): seq<nat> {
    if a.ClientStep? && a.pid < |s.clients| && s.clients[a.pid].pc.AtWrite? then [a.pid] else []
  }

  lemma ClientKeepsLine(s: State, pid: nat)
    requires pid < |s.clients|
    ensures InLine(ClientNext(s, pid)) == InLine(s) + Writer(s, ClientStep(pid))
  {
    ClientStepChangesNoGrant(s, pid);
  }

  lemma ServerKeepsLine(s: State)
    requires s.server.ServerAtRead? ==> s.buffer != []
    requires s.server.AtOpenClient? ==> s.server.req.pid < |s.clients| && s.clients[s.server.req.pid].fifo
    ensures InLine(ServerNext(s)) == InLine(s)
  {
  }

  lemma LineStep(s: State, a: Action)
    requires Inv(s) && Enabled(s, a)
    ensures InLine(Next(s, a)) == InLine(s) + Writer(s, a)
  {
    match a
    case Server =>
      if s.server.AtOpenClient? {
        assert ClientOk(s, s.server.req.pid);
      }
      ServerKeepsLine(s);
    case ClientStep(pid) => ClientKeepsLine(s, pid);
  }

  lemma LineFrom(s: State, run: seq<Action>)
    requires Inv(s) && Feasible(Program, s, run)
    ensures InLine(After(Program, s, run)) == InLine(s) + Trace(Program, Writer, s, run)
  {
    forall t, a | Inv(t) && Program.enabled(t, a)
      ensures Inv(Program.next(t, a)) && InLine(Program.next(t, a)) == InLine(t) + Writer(t, a)
    {
      InvStep(t, a);
      LineStep(t, a);
    }
    Accumulates(Program, Inv, InLine, Writer, s, run);
  }

  lemma NobodyInLine(capacity: nat, serverFifo: bool, lens: seq<int>)
    ensures InLine(Initial(capacity, serverFifo, lens)) == []
  {
  }

  /** Requests are answered in the order in which they are written: the clients
      answered, the one at hand and those queued are the writers of the run. */
  lemma FirstComeFirstServed(capacity: nat, serverFifo: bool, lens: seq<int>, run: seq<Action>)
    requires Positive(lens) && Feasible(Program, Initial(capacity, serverFifo, lens), run)
    ensures InLine(After(Program, Initial(capacity, serverFifo, lens), run))
         == Trace(Program, Writer, Initial(capacity, serverFifo, lens), run)
  {
    InvInitially(capacity, serverFifo, lens);
    LineFrom(Initial(capacity, serverFifo, lens), run);
    NobodyInLine(capacity, serverFifo, lens);
  }
}
