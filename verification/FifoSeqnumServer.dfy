/** The loop of 44-ipc-pipe-fifo/fifo_seqnum_server.c, first on whatever its
    reads, opens and writes may return, and then as a run of the machine in
    FifoSeqnum. */
module FifoSeqnumServer {
  import opened FifoSeqnum
  import opened Runs
  import opened Wrappers

  /** One read of the server: a whole request, for which the client's FIFO may
      or may not open and the response may or may not be written, or anything
      else, which is discarded. */
  datatype Incoming = Whole(request: Request, opens: bool, written: bool) | Discarded

  /** A response in a client's FIFO. */
  datatype Response = Response(pid: nat, seqNum: int)

  /** The requests granted before the first client FIFO that does not open. */
  function Accepted(input: seq<Incoming>): seq<Request> {
    if input == [] then []
    else if input[0].Discarded? then Accepted(input[1..])
    else if !input[0].opens then []
    else [input[0].request] + Accepted(input[1..])
  }

  /** The responses that get through, when the next number is from. */
  function Responses(input: seq<Incoming>, from: int): seq<Response> {
    if input == [] then []
    else if input[0].Discarded? then Responses(input[1..], from)
    else if !input[0].opens then []
    else (if input[0].written then [Response(input[0].request.pid, from)] else [])
         + Responses(input[1..], from + input[0].request.seqLen)
  }

  /** Read by read: a discarded one counts for nothing, a whole one is granted
      and, if its write succeeds, answered, and a FIFO that does not open ends
      it all. */
  lemma ReadByRead(req: Request, rest: seq<Incoming>, from: int)
    ensures Accepted([]) == [] && Responses([], from) == []
    ensures Accepted([Discarded] + rest) == Accepted(rest)
    ensures Responses([Discarded] + rest, from) == Responses(rest, from)
    ensures forall written :: Accepted([Whole(req, true, written)] + rest) == [req] + Accepted(rest)
    ensures Responses([Whole(req, true, true)] + rest, from)
         == [Response(req.pid, from)] + Responses(rest, from + req.seqLen)
    ensures Responses([Whole(req, true, false)] + rest, from) == Responses(rest, from + req.seqLen)
    ensures forall written ::
              var input := [Whole(req, false, written)] + rest; Accepted(input) == [] && Responses(input, from) == []
  {
    forall x: Incoming ensures ([x] + rest)[1..] == rest {
    }
  }

  function Requests(grants: seq<Grant>): seq<Request> {
    seq(|grants|, k requires 0 <= k < |grants| => grants[k].request)
  }

  predicate OpensUpTo(input: seq<Incoming>, i: nat)
    requires i < |input|
  {
    forall k :: 0 <= k <= i && input[k].Whole? ==> input[k].opens
  }

  /** Every response is written, of those before a client FIFO that does not open. */
  predicate AllWritten(input: seq<Incoming>) {
    forall i :: 0 <= i < |input| && input[i].Whole? && OpensUpTo(input, i) ==> input[i].written
  }

  lemma AllWrittenTail(input: seq<Incoming>)
    requires input != [] && (input[0].Whole? ==> input[0].opens)
    ensures AllWritten(input) <==> (input[0].Whole? ==> input[0].written) && AllWritten(input[1..])
  {
    forall i | 1 <= i < |input| ensures OpensUpTo(input, i) <==> OpensUpTo(input[1..], i - 1) {
      assert forall k :: 1 <= k <= i ==> input[k] == input[1..][k - 1];
    }
    if AllWritten(input) {
      forall i | 0 <= i < |input[1..]| && input[1..][i].Whole? && OpensUpTo(input[1..], i)
        ensures input[1..][i].written
      {
        assert OpensUpTo(input, i + 1);
      }
    }
  }

  /** As many responses get through as requests are granted exactly when none
      of these writes fails. */
  lemma {:induction false} AllAnsweredExactly(input: seq<Incoming>, from: int)
    ensures |Responses(input, from)| <= |Accepted(input)|
    ensures |Responses(input, from)| == |Accepted(input)| <==> AllWritten(input)
  {
    if input == [] {
    } else if input[0].Whole? && !input[0].opens {
      assert forall i :: 0 <= i < |input| ==> !OpensUpTo(input, i);
    } else {
      AllWrittenTail(input);
      AllAnsweredExactly(input[1..], if input[0].Whole? then from + input[0].request.seqLen else from);
    }
  }

  /** What clients are told is where the ranges granted to them start; and if
      none of these writes fails, all of them are told, in order. */
  lemma {:induction false} ResponsesAreStarts(input: seq<Incoming>, grants: seq<Grant>, from: int, upTo: int)
    requires Requests(grants) == Accepted(input) && Tiles(grants, from, upTo)
    ensures forall r :: r in Responses(input, from) ==>
              exists k :: 0 <= k < |grants| && r == Response(grants[k].request.pid, grants[k].start)
    ensures AllWritten(input) ==>
              Responses(input, from) ==
              seq(|grants|, k requires 0 <= k < |grants| => Response(grants[k].request.pid, grants[k].start))
  {
    if input == [] || (input[0].Whole? && !input[0].opens) {
    } else if input[0].Discarded? {
      AllWrittenTail(input);
      ResponsesAreStarts(input[1..], grants, from, upTo);
    } else {
      var req := input[0].request;
      AllWrittenTail(input);
      assert Requests(grants)[0] == req && Requests(grants[1..]) == Requests(grants)[1..] == Accepted(input[1..]);
      ResponsesAreStarts(input[1..], grants[1..], from + req.seqLen, upTo);
      forall r | r in Responses(input, from)
        ensures exists k :: 0 <= k < |grants| && r == Response(grants[k].request.pid, grants[k].start)
      {
        if r in Responses(input[1..], from + req.seqLen) {
          var k :| 0 <= k < |grants[1..]| && r == Response(grants[1..][k].request.pid, grants[1..][k].start);
          assert grants[k + 1] == grants[1..][k];
        } else {
          assert r == Response(grants[0].request.pid, grants[0].start);
        }
      }
    }
  }

  /** Where the loop has got after i reads. */
  predicate Progress(input: seq<Incoming>, i: nat, grants: seq<Grant>, responses: seq<Response>, from: int, upTo: int)
    requires i <= |input|
  {
    && Accepted(input) == Requests(grants) + Accepted(input[i..])
    && Responses(input, from) == responses + Responses(input[i..], upTo)
    && Tiles(grants, from, upTo)
  }

  lemma ProgressGrant(input: seq<Incoming>, i: nat, grants: seq<Grant>, responses: seq<Response>, from: int, upTo: int)
    requires i < |input| && input[i].Whole? && input[i].opens
    requires Progress(input, i, grants, responses, from, upTo)
    ensures var req := input[i].request;
            Progress(input, i + 1, grants + [Grant(req, upTo)],
                     if input[i].written then responses + [Response(req.pid, upTo)] else responses,
                     from, upTo + req.seqLen)
  {
    var req := input[i].request;
    assert input[i..][1..] == input[i + 1..];
    assert Requests(grants + [Grant(req, upTo)]) == Requests(grants) + [req];
    TilesSnoc(grants, from, upTo, Grant(req, upTo));
  }

  class AllocationServer {
    var seqNum: int

    constructor ()
      ensures seqNum == 0
    {
      seqNum := 0;
    }

    /** Read requests and send responses, as long as there is input.  Whatever
        the input, the grants are consecutive ranges, one for each accepted
        request in its order; a response that could not be written does not
        give its range back. */
    method Serve(input: seq<Incoming>) returns (grants: seq<Grant>, responses: seq<Response>, aborted: bool)
      modifies this
      ensures Requests(grants) == Accepted(input)
      ensures Tiles(grants, old(seqNum), seqNum)
      ensures responses == Responses(input, old(seqNum))
      ensures aborted <==> exists i :: 0 <= i < |input| && input[i].Whole? && !input[i].opens
    {
      grants, responses, aborted := [], [], false;
      for i := 0 to |input|
        invariant forall k :: 0 <= k < i ==> input[k].Whole? ==> input[k].opens
        invariant Progress(input, i, grants, responses, old(seqNum), seqNum)
      {
        if input[i].Discarded? {
          assert input[i..][1..] == input[i + 1..];
          continue;
        }
        if !input[i].opens {
          aborted := true;
          return;
        }
        ProgressGrant(input, i, grants, responses, old(seqNum), seqNum);
        var req := input[i].request;
        if input[i].written {
          responses := responses + [Response(req.pid, seqNum)];
        }
        grants := grants + [Grant(req, seqNum)];
        seqNum := seqNum + req.seqLen;
      }
    }
  }

  // ---------- the loop as a run of the machine ----------

  /** Reads of the given requests by a server whose clients are there. */
  function Undisturbed(reqs: seq<Request>): seq<Incoming> {
    seq(|reqs|, k requires 0 <= k < |reqs| => Whole(reqs[k], true, true))
  }

  /** The server reads its first request and comes to open the client's FIFO. */
  lemma ReadAndOpen(start: State, s: State) returns (t: State)
    requires Reachable(start) && Reaches(Program, start, s) && s.server.ServerAtRead? && s.buffer != []
    ensures Reaches(Program, start, t)
    ensures t == s.(server := OpeningClient(s.buffer[0]), buffer := s.buffer[1..], clients := t.clients)
  {
    ReachesStep(Program, start, s, Server);
    t := ServerNext(s);
    ReachableOn(start, t);
    InvAlways(t);
    assert ClientOk(t, t.server.req.pid);
    ReachesStep(Program, start, t, Server);
    t := ServerNext(t);
  }

  /** The open of a client's FIFO waits at most for that client's next step. */
  lemma AwaitClient(start: State, s: State) returns (t: State)
    requires Reachable(start) && Reaches(Program, start, s) && s.server.OpeningClient?
    ensures Reaches(Program, start, t) && t == s.(clients := t.clients)
    ensures s.server.req.pid < |t.clients| && ReadsOwn(t.clients[s.server.req.pid])
  {
    ReachableOn(start, s);
    InvAlways(s);
    var pid := s.server.req.pid;
    assert ClientOk(s, pid);
    t := s;
    if s.clients[pid].pc.AtOpenOwn? {
      ReachesStep(Program, start, s, ClientStep(pid));
      t := ClientNext(s, pid);
    }
  }

  lemma ThenServer(start: State, s: State) returns (t: State)
    requires Reaches(Program, start, s) && Enabled(s, Server)
    ensures Reaches(Program, start, t) && t == ServerNext(s)
  {
    ReachesStep(Program, start, s, Server);
    t := ServerNext(s);
  }

  /** Respond, close and add: what three steps of the server come to. */
  lemma RespondAndAdd(s: State)
    requires s.server.AtRespond?
    ensures var t := ServerNext(ServerNext(ServerNext(s)));
            t == s.(server := ServerAtRead, grants := s.grants + [Grant(s.server.req, s.seqNum)],
                    seqNum := s.seqNum + s.server.req.seqLen, clients := t.clients)
  {
  }

  /** One turn of the loop: the server reads the first request, waits if it
      must for that client to open its FIFO, responds and moves on. */
  lemma AnswerOne(start: State, s: State) returns (t: State)
    requires Reachable(start) && Reaches(Program, start, s) && s.server.ServerAtRead? && s.buffer != []
    ensures Reaches(Program, start, t)
    ensures t == s.(buffer := s.buffer[1..], grants := s.grants + [Grant(s.buffer[0], s.seqNum)],
                    seqNum := s.seqNum + s.buffer[0].seqLen, clients := t.clients)
  {
    t := ReadAndOpen(start, s);
    t := AwaitClient(start, t);
    RespondAndAdd(ServerNext(t));
    t := ThenServer(start, t);
    t := ThenServer(start, t);
    t := ThenServer(start, t);
    t := ThenServer(start, t);
  }

  lemma {:induction false} AcceptedUndisturbed(reqs: seq<Request>)
    ensures Accepted(Undisturbed(reqs)) == reqs && AllWritten(Undisturbed(reqs))
  {
    if reqs != [] {
      AcceptedUndisturbed(reqs[1..]);
      assert Undisturbed(reqs)[1..] == Undisturbed(reqs[1..]);
    }
  }

  /** From the head of the loop, with any requests in its FIFO, the server gets
      to the head of the loop with none, and it grants consecutive ranges to
      these requests in their order, as the loop's contract says. */
  lemma {:induction false} ServeIsRun(start: State, s: State) returns (t: State, grants: seq<Grant>)
    requires Reachable(start) && Reaches(Program, start, s) && s.server.ServerAtRead?
    ensures Reaches(Program, start, t) && t.server.ServerAtRead? && t.buffer == []
    ensures t.grants == s.grants + grants
    ensures Requests(grants) == s.buffer && Tiles(grants, s.seqNum, t.seqNum)
    decreases |s.buffer|
  {
    if s.buffer == [] {
      t, grants := s, [];
    } else {
      var u := AnswerOne(start, s);
      var rest;
      t, rest := ServeIsRun(start, u);
      grants := [Grant(s.buffer[0], s.seqNum)] + rest;
      assert grants[1..] == rest && Requests(grants) == [s.buffer[0]] + Requests(rest);
    }
  }

  /** And each request is answered with what that client is granted. */
  lemma ServeAnswersClients(start: State, s: State) returns (t: State)
    requires Reachable(start) && Reaches(Program, start, s) && s.server.ServerAtRead?
    ensures Reaches(Program, start, t) && t.server.ServerAtRead? && t.buffer == []
    ensures var responses := Responses(Undisturbed(s.buffer), s.seqNum);
            && |responses| == |s.buffer|
            && forall k :: 0 <= k < |s.buffer| ==>
                 && responses[k].pid == s.buffer[k].pid < |t.clients|
                 && t.clients[responses[k].pid].grant == Some(responses[k].seqNum)
  {
    var grants;
    t, grants := ServeIsRun(start, s);
    ReachableOn(start, t);
    InvAlways(t);
    AcceptedUndisturbed(s.buffer);
    ResponsesAreStarts(Undisturbed(s.buffer), grants, s.seqNum, t.seqNum);
    forall k | 0 <= k < |s.buffer|
      ensures grants[k].request == s.buffer[k] && t.grants[|s.grants| + k] == grants[k]
    {
      assert Requests(grants)[k] == s.buffer[k];
    }
  }

  /** The contract leaves nothing open: requests and start determine the grants. */
  lemma {:induction false} GrantsDetermined(a: seq<Grant>, b: seq<Grant>, from: int, upToA: int, upToB: int)
    requires Requests(a) == Requests(b) && Tiles(a, from, upToA) && Tiles(b, from, upToB)
    ensures a == b && upToA == upToB
  {
    assert |a| == |Requests(a)| == |b|;
    if a != [] {
      assert Requests(a)[0] == Requests(b)[0];
      assert Requests(a[1..]) == Requests(a)[1..] == Requests(b[1..]);
      GrantsDetermined(a[1..], b[1..], from + a[0].request.seqLen, upToA, upToB);
      assert a == [a[0]] + a[1..] && b == [b[0]] + b[1..];
    }
  }
}
