/** Reading a line byte by byte (lib/read_line.c). */
module ReadLine {
  import opened Integers

  /** What successive one-byte reads of a descriptor return: a byte, EINTR or
      another error.  After the last of them comes end of file. */
  datatype Event = Byte(ch: char) | Interrupted | Error

  datatype Outcome = GotByte(ch: char) | GotEintr | GotError | GotEof

  class Descriptor {
    var input: seq<Event>

    constructor (input: seq<Event>)
      ensures this.input == input
    {
      this.input := input;
    }

    /** read(fd, &ch, 1) */
    method Read() returns (r: Outcome)
      modifies this
      ensures old(input) == [] ==> r.GotEof? && input == []
      ensures old(input) != [] ==> input == old(input)[1..]
      ensures old(input) != [] ==>
                r == match old(input)[0] case Byte(c) => GotByte(c) case Interrupted => GotEintr case Error => GotError
    {
      if input == [] {
        r := GotEof;
      } else {
        r := match input[0] case Byte(c) => GotByte(c) case Interrupted => GotEintr case Error => GotError;
        input := input[1..];
      }
    }
  }

  // ---------- what a line is ----------

  datatype Status = Newline | Eof | Failed

  /** A line with its newline, how it ended, and the input after it. */
  datatype Scan = Scan(line: string, status: Status, rest: seq<Event>)

  function ScanLine(input: seq<Event>): Scan {
    if input == [] then Scan([], Eof, [])
    else
      match input[0]
      case Interrupted => ScanLine(input[1..])
      case Error => Scan([], Failed, input[1..])
      case Byte(c) =>
        if c == '\n' then Scan([c], Newline, input[1..])
        else var s := ScanLine(input[1..]); s.(line := [c] + s.line)
  }

  /** The bytes in a stretch of input. */
  function Bytes(input: seq<Event>): string {
    if input == [] then []
    else if input[0].Byte? then [input[0].ch] + Bytes(input[1..])
    else Bytes(input[1..])
  }

  predicate NoErrors(input: seq<Event>) {
    Error !in input
  }

  lemma {:induction false} LineAndRest(input: seq<Event>)
    requires NoErrors(input)
    ensures var s := ScanLine(input); Bytes(input) == s.line + Bytes(s.rest)
  {
    if input != [] {
      LineAndRest(input[1..]);
      if input[0].Byte? && input[0].ch != '\n' {
        var t := ScanLine(input[1..]);
        assert [input[0].ch] + (t.line + Bytes(t.rest)) == ([input[0].ch] + t.line) + Bytes(t.rest);
      }
    }
  }

  lemma {:induction false} LineEnd(input: seq<Event>)
    requires NoErrors(input)
    ensures var s := ScanLine(input);
            && NoErrors(s.rest) && |s.rest| <= |input|
            && (s.status.Newline? ==> |s.rest| < |input|)
            && (s.status.Eof? ==> s.rest == [])
            && !s.status.Failed?
            && (s.status.Newline? ==> s.line != [] && s.line[|s.line| - 1] == '\n' && '\n' !in s.line[..|s.line| - 1])
            && (s.status.Eof? ==> '\n' !in s.line)
  {
    if input != [] {
      LineEnd(input[1..]);
      var s, t := ScanLine(input), ScanLine(input[1..]);
      if input[0].Byte? && input[0].ch != '\n' && t.status.Newline? {
        assert s.line[..|s.line| - 1] == [input[0].ch] + t.line[..|t.line| - 1];
      }
    }
  }

  /** An error comes before any newline, at this event. */
  predicate FirstErrorAt(input: seq<Event>, k: nat) {
    && k < |input| && input[k] == Error
    && forall j :: 0 <= j < k ==> input[j] != Error && input[j] != Byte('\n')
  }

  /** Reading fails exactly at an error that comes before the line has ended, and
      nothing after the error is consumed. */
  lemma {:induction false} FailsExactly(input: seq<Event>)
    ensures ScanLine(input).status.Failed? <==> exists k :: FirstErrorAt(input, k)
    ensures forall k :: FirstErrorAt(input, k) ==> ScanLine(input).rest == input[k + 1..]
  {
    if input != [] && input[0] != Error && input[0] != Byte('\n') {
      FailsExactly(input[1..]);
      forall k: nat ensures FirstErrorAt(input, k + 1) <==> FirstErrorAt(input[1..], k) {
        if FirstErrorAt(input[1..], k) {
          forall j | 0 <= j < k + 1 ensures input[j] != Error && input[j] != Byte('\n') {
            assert j > 0 ==> input[j] == input[1..][j - 1];
          }
        }
      }
      forall k: nat | FirstErrorAt(input, k)
        ensures k > 0 && FirstErrorAt(input[1..], k - 1) && input[k + 1..] == input[1..][k..]
      {
        assert FirstErrorAt(input, (k - 1) + 1);
      }
    } else if input != [] && input[0] == Error {
      assert FirstErrorAt(input, 0);
    }
  }

  /** Without errors a line is the shortest prefix of the bytes that ends in a
      newline or, if there is none, all of them; and the rest is what follows. */
  lemma {:induction false} LineIsShortestPrefix(input: seq<Event>)
    requires NoErrors(input)
    ensures var s := ScanLine(input);
            && Bytes(input) == s.line + Bytes(s.rest)
            && NoErrors(s.rest) && |s.rest| <= |input|
            && !s.status.Failed?
            && (s.status.Newline? <==> '\n' in Bytes(input))
            && (s.status.Newline? ==>
                  && s.line != [] && s.line[|s.line| - 1] == '\n'
                  && '\n' !in s.line[..|s.line| - 1] && |s.rest| < |input|)
            && (s.status.Eof? ==> s.rest == [] && s.line == Bytes(input))
  {
    LineAndRest(input);
    LineEnd(input);
    var s := ScanLine(input);
    if s.status.Newline? {
      assert Bytes(input)[|s.line| - 1] == '\n';
    }
  }

  // ---------- the function ----------

  /** After reading line of what there was at the start, input is left. */
  predicate Progress(start: seq<Event>, line: string, input: seq<Event>) {
    var s, t := ScanLine(start), ScanLine(input);
    s.line == line + t.line && s.status == t.status && s.rest == t.rest
  }

  lemma ProgressStep(start: seq<Event>, line: string, input: seq<Event>)
    requires Progress(start, line, input)
    ensures input == [] ==> ScanLine(start) == Scan(line, Eof, [])
    ensures input != [] && input[0].Error? ==> ScanLine(start) == Scan(line, Failed, input[1..])
    ensures input != [] && input[0].Interrupted? ==> Progress(start, line, input[1..])
    ensures input != [] && input[0].Byte? && input[0].ch == '\n' ==>
              ScanLine(start) == Scan(line + ['\n'], Newline, input[1..])
    ensures input != [] && input[0].Byte? && input[0].ch != '\n' ==> Progress(start, line + [input[0].ch], input[1..])
  {
    if input != [] && input[0].Byte? && input[0].ch != '\n' {
      var rest := ScanLine(input[1..]).line;
      assert line + ([input[0].ch] + rest) == (line + [input[0].ch]) + rest;
    }
  }

  /** *buf++ = ch, if there is room for it. */
  method Store(buffer: array<char>, totRead: nat, n: nat, ch: char, ghost line: string) returns (tot: nat)
    requires 0 < n <= buffer.Length && totRead == Min(|line|, n - 1)
    requires forall i :: 0 <= i < totRead ==> buffer[i] == line[i]
    modifies buffer
    ensures tot == Min(|line| + 1, n - 1)
    ensures forall i :: 0 <= i < tot ==> buffer[i] == (line + [ch])[i]
    ensures forall i :: tot <= i < buffer.Length ==> buffer[i] == old(buffer[i])
  {
    tot := totRead;
    if totRead < n - 1 {
      buffer[totRead] := ch;
      tot := totRead + 1;
    }
  }

  /** readLine(): -1 stands for an error, of which EINVAL for missing room is
      one.  A line is consumed whole but stored only up to n - 1 bytes, and is
      terminated by a NUL except when 0 is returned at end of file. */
  method ReadLine(fd: Descriptor, buffer: array?<char>, n: nat) returns (r: int)
    requires buffer != null ==> n <= buffer.Length
    modifies fd, buffer
    ensures n == 0 || buffer == null ==> r == -1 && fd.input == old(fd.input)
    ensures n > 0 && buffer != null ==>
              var s := ScanLine(old(fd.input));
              && fd.input == s.rest
              && (r == -1 <==> s.status.Failed?)
              && (r != -1 ==>
                    && r == Min(|s.line|, n - 1)
                    && (forall i :: 0 <= i < r ==> buffer[i] == s.line[i])
                    && (s.status.Newline? || r > 0 ==> buffer[r] == '\0')
                    && (forall i :: r < i < buffer.Length ==> buffer[i] == old(buffer[i]))
                    && (s.status.Eof? && r == 0 ==> buffer[0] == old(buffer[0])))
  {
    if n == 0 || buffer == null {
      return -1;
    }
    ghost var start := fd.input;
    ghost var line: string := [];           // the bytes read so far
    var totRead := 0;
    while true
      invariant totRead == Min(|line|, n - 1)
      invariant forall i :: 0 <= i < totRead ==> buffer[i] == line[i]
      invariant forall i :: totRead <= i < buffer.Length ==> buffer[i] == old(buffer[i])
      invariant Progress(start, line, fd.input)
      decreases |fd.input|
    {
      ProgressStep(start, line, fd.input);
      var numRead := fd.Read();
      match numRead {
        case GotEintr =>
        case GotError =>
          return -1;
        case GotEof =>
          if totRead == 0 {
            return 0;
          }
          break;
        case GotByte(ch) =>
          totRead := Store(buffer, totRead, n, ch, line);
          line := line + [ch];
          if ch == '\n' {
            break;
          }
      }
    }
    buffer[totRead] := '\0';
    return totRead;
  }

  // ---------- line after line ----------

  /** Every line of the input, the last one possibly without a newline. */
  function Lines(input: seq<Event>): seq<string>
    requires NoErrors(input)
    decreases |input|
  {
    LineIsShortestPrefix(input);
    var s := ScanLine(input);
    if s.line == [] then [] else if s.status.Eof? then [s.line] else [s.line] + Lines(s.rest)
  }

  function Concat(lines: seq<string>): string {
    if lines == [] then [] else lines[0] + Concat(lines[1..])
  }

  /** A piece of text with at most one newline, at its end. */
  predicate IsLine(line: string) {
    line != [] && '\n' !in line[..|line| - 1]
  }

  /** The lines partition the bytes of the input, each up to its newline; only
      the last may be without one. */
  lemma {:induction false} LinesPartition(input: seq<Event>)
    requires NoErrors(input)
    ensures Concat(Lines(input)) == Bytes(input)
    ensures forall i :: 0 <= i < |Lines(input)| ==> IsLine(Lines(input)[i])
    ensures forall i :: 0 <= i < |Lines(input)| - 1 ==> '\n' in Lines(input)[i]
    decreases |input|
  {
    LineIsShortestPrefix(input);
    var s := ScanLine(input);
    if s.line != [] {
      if s.status.Newline? {
        LinesPartition(s.rest);
        assert Lines(input)[1..] == Lines(s.rest);
      } else {
        assert Lines(input)[1..] == [];
      }
    }
  }

  /** What a buffer of n bytes keeps of each line. */
  function Truncated(lines: seq<string>, n: nat): seq<string>
    requires n > 0
  {
    seq(|lines|, i requires 0 <= i < |lines| => lines[i][..Min(|lines[i]|, n - 1)])
  }

  predicate AllFit(lines: seq<string>, n: nat) {
    forall i :: 0 <= i < |lines| ==> |lines[i]| < n
  }

  lemma {:induction false} AppendOutput(out: seq<string>, input: seq<Event>, n: nat)
    requires n > 0 && NoErrors(input) && ScanLine(input).line != [] && NoErrors(ScanLine(input).rest)
    requires ScanLine(input).status.Eof? ==> ScanLine(input).rest == []
    ensures var s := ScanLine(input);
            out + Truncated(Lines(input), n) == out + [s.line[..Min(|s.line|, n - 1)]] + Truncated(Lines(s.rest), n)
  {
    var s := ScanLine(input);
    LineIsShortestPrefix(input);
    assert Lines(input) == [s.line] + Lines(s.rest);
    assert Truncated([s.line] + Lines(s.rest), n) == [s.line[..Min(|s.line|, n - 1)]] + Truncated(Lines(s.rest), n);
  }

  lemma FittingOutputIsAll(input: seq<Event>, n: nat)
    requires n > 0 && NoErrors(input)
    ensures AllFit(Lines(input), n) ==> Concat(Truncated(Lines(input), n)) == Bytes(input)
  {
    LinesPartition(input);
    if AllFit(Lines(input), n) {
      var lines := Lines(input);
      forall i | 0 <= i < |lines| ensures lines[i][..Min(|lines[i]|, n - 1)] == lines[i] {
        assert |lines[i]| < n;
        assert lines[i][..|lines[i]|] == lines[i];
      }
      assert Truncated(lines, n) == lines;
    }
  }

  /** Calling readLine() until it returns 0, with room for at least one byte of
      text: the outputs are the lines, each cut to what fits, and when all of
      them fit they add up to all the bytes there were. */
  method ReadAllLines(fd: Descriptor, n: nat) returns (out: seq<string>)
    requires n >= 2 && NoErrors(fd.input)
    modifies fd
    ensures out == Truncated(Lines(old(fd.input)), n)
    ensures AllFit(Lines(old(fd.input)), n) ==> Concat(out) == Bytes(old(fd.input))
    ensures fd.input == []
  {
    ghost var lines := Lines(fd.input);
    FittingOutputIsAll(fd.input, n);
    var buffer := new char[n];
    out := [];
    while true
      invariant NoErrors(fd.input)
      invariant Truncated(lines, n) == out + Truncated(Lines(fd.input), n)
      invariant fresh(buffer) && buffer.Length == n
      decreases |fd.input|
    {
      ghost var input := fd.input;
      LineIsShortestPrefix(input);
      var r := ReadLine(fd, buffer, n);
      if r == 0 {
        assert ScanLine(input).line == [];
        break;
      }
      assert buffer[..r] == ScanLine(input).line[..r];
      AppendOutput(out, input, n);
      out := out + [buffer[..r]];
    }
    assert Truncated([], n) == [];
    assert out == Truncated(lines, n);
  }

  /** When a call of readLine() ends its output with a NUL: at a newline, or at
      the end of the input after a byte that there was room for. */
  predicate Terminated(input: seq<Event>, n: nat) {
    '\n' in Bytes(input) || (n >= 2 && Bytes(input) != [])
  }

  /** Told from the bytes that are left: with room for a byte of text 0 means
      end of file and nothing else does; and where there is no NUL nothing at
      all is written. */
  method ReadLineWithoutErrors(fd: Descriptor, buffer: array<char>, n: nat) returns (r: int)
    requires 0 < n <= buffer.Length && NoErrors(fd.input)
    modifies fd, buffer
    ensures 0 <= r < n
    ensures n >= 2 ==> (r == 0 <==> Bytes(old(fd.input)) == [])
    ensures if Terminated(old(fd.input), n) then buffer[r] == '\0' else r == 0 && buffer[..] == old(buffer[..])
  {
    LineIsShortestPrefix(fd.input);
    r := ReadLine(fd, buffer, n);
  }

  /** The corner the contract of ReadLine spells out: with a buffer of one byte
      every successful call returns 0, so a caller cannot tell a line from the
      end of the input, and at the end not even the NUL is written. */
  method OneByteBuffer(fd: Descriptor, buffer: array<char>) returns (r: int)
    requires buffer.Length == 1 && NoErrors(fd.input)
    modifies fd, buffer
    ensures r == 0
    ensures '\n' in Bytes(old(fd.input)) ==> buffer[0] == '\0'
    ensures '\n' !in Bytes(old(fd.input)) ==> buffer[0] == old(buffer[0]) && fd.input == []
  {
    LineIsShortestPrefix(fd.input);
    r := ReadLine(fd, buffer, 1);
  }
}
