/** A POSIX message queue as mq_send() and mq_receive() see it (POSIX.1-2017,
    System Interfaces): highest priority first, and in order of arrival among
    messages of the same priority. */
module MessageQueue {

  datatype Message = Message(priority: nat, text: string)

  /** Where a newly sent message goes: behind everything of its priority. */
  function Insert(q: seq<Message>, m: Message): seq<Message> {
    if q == [] || q[0].priority < m.priority then [m] + q else [q[0]] + Insert(q[1..], m)
  }

  predicate Sorted(q: seq<Message>) {
    forall i, k :: 0 <= i < k < |q| ==> q[i].priority >= q[k].priority
  }

  /** The messages of one priority, in order. */
  function OfPriority(q: seq<Message>, p: nat): seq<Message> {
    if q == [] then [] else (if q[0].priority == p then [q[0]] else []) + OfPriority(q[1..], p)
  }

  lemma {:induction false} OfPriorityAppend(a: seq<Message>, b: seq<Message>, p: nat)
    ensures OfPriority(a + b, p) == OfPriority(a, p) + OfPriority(b, p)
  {
    if a == [] {
      assert a + b == b;
    } else {
      OfPriorityAppend(a[1..], b, p);
      assert (a + b)[1..] == a[1..] + b && (a + b)[0] == a[0];
      var first := if a[0].priority == p then [a[0]] else [];
      assert first + (OfPriority(a[1..], p) + OfPriority(b, p)) == (first + OfPriority(a[1..], p)) + OfPriority(b, p);
    }
  }

  lemma OfPrioritySnoc(q: seq<Message>, m: Message, p: nat)
    ensures OfPriority(q + [m], p) == OfPriority(q, p) + if m.priority == p then [m] else []
  {
    OfPriorityAppend(q, [m], p);
    assert [m][1..] == [];
  }

  lemma {:induction false} NoneAbove(q: seq<Message>, p: nat)
    requires forall i :: 0 <= i < |q| ==> q[i].priority < p
    ensures OfPriority(q, p) == []
  {
    if q != [] {
      NoneAbove(q[1..], p);
    }
  }

  lemma {:induction false} InsertContents(q: seq<Message>, m: Message)
    ensures multiset(Insert(q, m)) == multiset(q) + multiset{m}
    ensures |Insert(q, m)| == |q| + 1
  {
    if q == [] || q[0].priority < m.priority {
      assert multiset([m] + q) == multiset{m} + multiset(q);
    } else {
      InsertContents(q[1..], m);
      assert q == [q[0]] + q[1..];
    }
  }

  lemma {:induction false} InsertSorted(q: seq<Message>, m: Message)
    requires Sorted(q)
    ensures Sorted(Insert(q, m))
    ensures forall i :: 0 <= i < |Insert(q, m)| ==>
              Insert(q, m)[i].priority <= m.priority || (q != [] && Insert(q, m)[i].priority <= q[0].priority)
  {
    if q == [] || q[0].priority < m.priority {
    } else {
      InsertSorted(q[1..], m);
      var r := Insert(q[1..], m);
      forall i | 0 <= i < |r| ensures r[i].priority <= q[0].priority {
      }
    }
  }

  /** Inserting keeps every other message in its order and puts the new one
      last among its equals. */
  lemma {:induction false} InsertOrder(q: seq<Message>, m: Message, p: nat)
    requires Sorted(q)
    ensures OfPriority(Insert(q, m), p) == OfPriority(q, p) + if m.priority == p then [m] else []
  {
    if q == [] || q[0].priority < m.priority {
      assert ([m] + q)[1..] == q;
      if m.priority == p {
        NoneAbove(q, p);
      }
    } else {
      InsertOrder(q[1..], m, p);
      assert ([q[0]] + Insert(q[1..], m))[1..] == Insert(q[1..], m);
    }
  }

  /** What has been sent is what has been received and what is still queued,
      and within each priority in the order of sending. */
  ghost predicate Accounted(sent: seq<Message>, received: seq<Message>, queue: seq<Message>) {
    && Sorted(queue)
    && multiset(sent) == multiset(received) + multiset(queue)
    && forall p: nat :: OfPriority(sent, p) == OfPriority(received, p) + OfPriority(queue, p)
  }

  lemma AccountedSend(sent: seq<Message>, received: seq<Message>, queue: seq<Message>, m: Message)
    requires Accounted(sent, received, queue)
    ensures Accounted(sent + [m], received, Insert(queue, m))
  {
    InsertContents(queue, m);
    InsertSorted(queue, m);
    forall p: nat ensures OfPriority(sent + [m], p) == OfPriority(received, p) + OfPriority(Insert(queue, m), p) {
      OfPrioritySnoc(sent, m, p);
      InsertOrder(queue, m, p);
    }
  }

  lemma ReceiveKeepsOrder(received: seq<Message>, queue: seq<Message>, p: nat)
    requires queue != []
    ensures OfPriority(received, p) + OfPriority(queue, p)
         == OfPriority(received + [queue[0]], p) + OfPriority(queue[1..], p)
  {
    var first := if queue[0].priority == p then [queue[0]] else [];
    var before, after := OfPriority(received, p), OfPriority(queue[1..], p);
    assert OfPriority(queue, p) == first + after;
    assert OfPriority(received + [queue[0]], p) == before + first by {
      OfPrioritySnoc(received, queue[0], p);
    }
    assert before + (first + after) == (before + first) + after;
  }

  lemma AccountedReceive(sent: seq<Message>, received: seq<Message>, queue: seq<Message>)
    requires Accounted(sent, received, queue) && queue != []
    ensures Accounted(sent, received + [queue[0]], queue[1..])
  {
    assert queue == [queue[0]] + queue[1..];
    forall p: nat ensures OfPriority(sent, p) == OfPriority(received + [queue[0]], p) + OfPriority(queue[1..], p) {
      ReceiveKeepsOrder(received, queue, p);
    }
  }
}
