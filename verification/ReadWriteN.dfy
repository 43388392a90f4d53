/** Transferring exactly n bytes over partial transfers and interruptions
    (lib/rdwrn.c). */
module ReadWriteN {
  import opened Integers

  /** What the system makes of one read() or write(): at most so many bytes, an
      interruption by a signal handler, another error, or (for write() only) a
      return of 0. */
  datatype Event = AtMost(count: nat) | Interrupted | Error | Nothing

  /** The return value of read() or write(): a count, or -1 with errno being
      EINTR or not. */
  datatype Returned = Count(k: nat) | Minus1(eintr: bool)

  function Transferred(r: Returned): nat {
    if r.Count? then r.k else 0
  }

  /** A transfer that succeeds moves at least one byte. */
  function Limit(e: Event): nat {
    match e
    case AtMost(count) => if count > 0 then count else 1
    case _ => 1
  }

  /** A byte stream.  The script says how the next transfers are cut short; when
      it has run out, a transfer takes all it can. */
  class Stream {
    var data: seq<char>
    var script: seq<Event>

    constructor (data: seq<char>, script: seq<Event>)
      ensures this.data == data && this.script == script
    {
      this.data := data;
      this.script := script;
    }

    method NextEvent(m: nat) returns (e: Event)
      modifies this`script
      ensures if old(script) == [] then script == [] && e == AtMost(m)
              else e == old(script)[0] && script == old(script)[1..]
    {
      if script == [] {
        e := AtMost(m);
      } else {
        e, script := script[0], script[1..];
      }
    }

    /** read(fd, buf + at, m): what the next event of the script makes of it.  With
        nothing left in the stream it returns 0, otherwise at least one byte. */
    method Read(buf: array<char>, at: nat, m: nat) returns (r: Returned)
      requires m > 0 && at + m <= buf.Length
      modifies this, buf
      ensures r.Count? ==> r.k <= Min(m, |old(data)|) && (r.k == 0 <==> old(data) == [])
      ensures data == old(data)[Transferred(r)..]
      ensures forall i :: 0 <= i < buf.Length ==>
                buf[i] == if at <= i < at + Transferred(r) then old(data)[i - at] else old(buf[i])
      ensures old(script) == [] ==> script == [] && r.Count?
      ensures old(script) != [] ==> script == old(script)[1..]
      ensures old(script) != [] ==>
                match old(script)[0]
                case Interrupted => r == Minus1(true)
                case Error => r == Minus1(false)
                case _ => r.Count?
    {
      var e := NextEvent(m);
      match e {
        case Interrupted => r := Minus1(true);
        case Error => r := Minus1(false);
        case _ =>
          var k := Min(Min(m, Limit(e)), |data|);
          for i := 0 to k
            invariant forall j :: 0 <= j < buf.Length ==>
                      buf[j] == if at <= j < at + i then data[j - at] else old(buf[j])
            modifies buf
          {
            buf[at + i] := data[i];
          }
          data := data[k..];
          r := Count(k);
      }
    }

    /** write(fd, buf + at, m) */
    method Write(buf: array<char>, at: nat, m: nat) returns (r: Returned)
      requires m > 0 && at + m <= buf.Length
      modifies this
      ensures r.Count? ==> r.k <= m && data == old(data) + buf[at..at + r.k]
      ensures r.Minus1? ==> data == old(data)
      ensures old(script) == [] ==> script == [] && r.Count? && r.k > 0
      ensures old(script) != [] ==> script == old(script)[1..]
      ensures old(script) != [] ==>
                match old(script)[0]
                case Interrupted => r == Minus1(true)
                case Error => r == Minus1(false)
                case Nothing => r == Count(0)
                case AtMost(_) => r.Count? && r.k > 0
    {
      var e := NextEvent(m);
      match e {
        case Interrupted => r := Minus1(true);
        case Error => r := Minus1(false);
        case Nothing => r := Count(0);
        case AtMost(count) =>
          var k := Min(m, Limit(e));
          data := data + buf[at..at + k];
          r := Count(k);
      }
    }
  }

  /** The event the next transfer takes from the script. */
  function Taken(script: seq<Event>): seq<Event> {
    script[..Min(1, |script|)]
  }

  predicate NoErrors(script: seq<Event>) {
    Error !in script && Nothing !in script
  }

  /** readn(): fewer than n bytes only at end of file, and then all there were;
      -1 at the first error, and only then.  moved is how much was taken from
      the stream also in that case, and used the events that were met. */
  method Readn(fd: Stream, buffer: array<char>, n: nat) returns (r: int, ghost moved: nat, ghost used: seq<Event>)
    requires n <= buffer.Length
    modifies fd, buffer
    ensures moved <= n && moved <= |old(fd.data)| && fd.data == old(fd.data)[moved..]
    ensures forall i :: 0 <= i < buffer.Length ==> buffer[i] == if i < moved then old(fd.data)[i] else old(buffer[i])
    ensures r == -1 || (r == moved && moved == Min(n, |old(fd.data)|))
    ensures old(fd.script) == used + fd.script
    ensures if r == -1 then used != [] && used[|used| - 1] == Error && Error !in used[..|used| - 1] && moved < n
            else Error !in used
  {
    var totRead := 0;
    used := [];
    while totRead < n
      invariant totRead <= n && totRead <= |old(fd.data)|
      invariant fd.data == old(fd.data)[totRead..]
      invariant forall i :: 0 <= i < buffer.Length ==>
                  buffer[i] == if i < totRead then old(fd.data)[i] else old(buffer[i])
      invariant old(fd.script) == used + fd.script && Error !in used
      decreases |fd.script|, n - totRead
    {
      ghost var before := fd.script;
      var numRead := fd.Read(buffer, totRead, n - totRead);
      used := used + Taken(before);
      match numRead {
        case Minus1(eintr) =>
          if !eintr {
            return -1, totRead, used;
          }
        case Count(k) =>
          if k == 0 {
            return totRead, totRead, used;
          }
          totRead := totRead + k;
      }
    }
    return totRead, totRead, used;
  }

  /** writen(): all n bytes, or -1 at the first error (or return of 0), and only
      then, with exactly the first moved of them transferred. */
  method Writen(fd: Stream, buffer: array<char>, n: nat) returns (r: int, ghost moved: nat, ghost used: seq<Event>)
    requires n <= buffer.Length
    modifies fd
    ensures moved <= n && fd.data == old(fd.data) + buffer[..moved]
    ensures r == -1 || (r == moved && moved == n)
    ensures old(fd.script) == used + fd.script
    ensures if r == -1 then used != [] && !NoErrors(used) && NoErrors(used[..|used| - 1]) && moved < n
            else NoErrors(used)
  {
    var totWritten := 0;
    used := [];
    while totWritten < n
      invariant totWritten <= n
      invariant fd.data == old(fd.data) + buffer[..totWritten]
      invariant old(fd.script) == used + fd.script && NoErrors(used)
      decreases |fd.script|, n - totWritten
    {
      ghost var before := fd.script;
      var numWritten := fd.Write(buffer, totWritten, n - totWritten);
      used := used + Taken(before);
      match numWritten {
        case Minus1(eintr) =>
          if !eintr {
            return -1, totWritten, used;
          }
        case Count(k) =>
          if k == 0 {
            return -1, totWritten, used;
          }
          assert buffer[..totWritten] + buffer[totWritten..totWritten + k] == buffer[..totWritten + k];
          totWritten := totWritten + k;
      }
    }
    return totWritten, totWritten, used;
  }

  /** However the transfers are cut up and interrupted, what writen() puts into
      an empty stream readn() gets out again. */
  method WriteThenRead(fd: Stream, source: array<char>, target: array<char>, n: nat) returns (written: int, read: int)
    requires n <= source.Length && n <= target.Length && source != target
    requires fd.data == [] && NoErrors(fd.script)
    modifies fd, target
    ensures written == read == n
    ensures target[..n] == source[..n] && target[n..] == old(target[n..])
    ensures fd.data == []
  {
    ghost var moved, used;
    written, moved, used := Writen(fd, source, n);
    assert fd.data == source[..n];
    read, moved, used := Readn(fd, target, n);
  }

  /** The same when the reader asks for another amount than was written: it
      gets the first m bytes, or all of them and so learns of the end. */
  method WriteThenReadOther(fd: Stream, source: array<char>, target: array<char>, n: nat, m: nat) returns (read: int)
    requires n <= source.Length && m <= target.Length && source != target
    requires fd.data == [] && NoErrors(fd.script)
    modifies fd, target
    ensures read == Min(n, m) && target[..read] == source[..read]
    ensures fd.data == source[read..n]
  {
    ghost var moved, used;
    var written;
    written, moved, used := Writen(fd, source, n);
    assert fd.data == source[..n];
    read, moved, used := Readn(fd, target, m);
  }
}
