/** Sequence numbers handed out over TCP as lines of text
    (59-socket-internet/is_seqnum_sv.c and is_seqnum_cl.c). */
module TcpSeqnum {
  import opened Integers
  import opened Numerals
  import opened Wrappers
  import opened ReadLine

  const INT_LEN: nat := 30

  /** The number of values of a uint32_t. */
  const TWO_32: nat := 0x1_0000_0000

  /** The reading of a uint32_t by the conversion %d. */
  function ToInt32(u: nat): int {
    if u <= INT_MAX then u else u - TWO_32
  }

  // ---------- one request ----------

  /** What is left of a text in a buffer of INT_LEN bytes. */
  function Stored(text: string): string {
    text[..Min(|text|, INT_LEN - 1)]
  }

  /** The stored line as a C string, which ends at a NUL the client may have sent. */
  function RequestText(line: string): string {
    CString(Stored(line) + ['\0'])
  }

  /** What readLine() leaves for atoi(), unless the request is skipped unread. */
  function TextOf(input: seq<Event>): Option<string> {
    var s := ScanLine(input);
    if s.status.Failed? || s.line == [] then None else Some(RequestText(s.line))
  }

  /** The length a text asks for, if it is one to be granted. */
  function LengthIn(text: string): Option<int> {
    if Atoi(text) <= 0 then None else Some(Atoi(text))
  }

  /** The length a client asks for, if its input is a valid request. */
  function Request(input: seq<Event>): Option<int> {
    match TextOf(input)
    case None => None
    case Some(text) => LengthIn(text)
  }

  /** The value fits in an int, as atoi() needs it to. */
  predicate ValueFits(input: seq<Event>) {
    TextOf(input).Some? ==> INT_MIN <= Atoi(TextOf(input).value) <= INT_MAX
  }

  function Reply(seqNum: nat): string {
    RenderInt(ToInt32(seqNum), 10) + "\n"
  }

  // ---------- many requests ----------

  /** One turn of the server's loop: accept() fails, or a client is connected
      whose input is given and to which the reply can be written or not. */
  datatype Incoming = NoConnection | Connection(input: seq<Event>, writable: bool)

  /** The numbers start, start + 1, ... start + len - 1 modulo 2^32. */
  datatype Range = Range(start: nat, len: int)

  /** All the ranges and replies depend on of one turn: the length asked for,
      if there is a valid request, and whether the reply can be written. */
  datatype Ask = Ask(len: Option<int>, writable: bool)

  function AskOf(c: Incoming): Ask {
    if c.NoConnection? then Ask(None, false) else Ask(Request(c.input), c.writable)
  }

  function Asks(conns: seq<Incoming>): seq<Ask> {
    seq(|conns|, i requires 0 <= i < |conns| => AskOf(conns[i]))
  }

  /** The lengths of the accepted requests, in order. */
  function Accepted(asks: seq<Ask>): seq<int> {
    if asks == [] then []
    else (if asks[0].len.Some? then [asks[0].len.value] else []) + Accepted(asks[1..])
  }

  lemma {:induction false} AcceptedSnoc(asks: seq<Ask>, x: Ask)
    ensures Accepted(asks + [x]) == Accepted(asks) + if x.len.Some? then [x.len.value] else []
  {
    if asks == [] {
      assert (asks + [x])[1..] == [];
    } else {
      AcceptedSnoc(asks[1..], x);
      assert (asks + [x])[1..] == asks[1..] + [x];
    }
  }

  function Lengths(grants: seq<Range>): seq<int> {
    seq(|grants|, k requires 0 <= k < |grants| => grants[k].len)
  }

  function Total(grants: seq<Range>): int {
    if grants == [] then 0 else grants[0].len + Total(grants[1..])
  }

  /** Each range starts where the one before ended, modulo 2^32. */
  predicate Consecutive(grants: seq<Range>, from: nat, upTo: nat) {
    if grants == [] then from == upTo
    else grants[0].start == from && Consecutive(grants[1..], (from + grants[0].len) % TWO_32, upTo)
  }

  lemma {:induction false} ConsecutiveSnoc(grants: seq<Range>, from: nat, upTo: nat, len: int)
    requires Consecutive(grants, from, upTo)
    ensures Consecutive(grants + [Range(upTo, len)], from, (upTo + len) % TWO_32)
  {
    if grants == [] {
      assert (grants + [Range(upTo, len)])[1..] == [];
    } else {
      ConsecutiveSnoc(grants[1..], (from + grants[0].len) % TWO_32, upTo, len);
      assert (grants + [Range(upTo, len)])[1..] == grants[1..] + [Range(upTo, len)];
    }
  }

  predicate ProperLengths(grants: seq<Range>) {
    forall k :: 0 <= k < |grants| ==> 0 < grants[k].len <= INT_MAX
  }

  predicate Served(asks: seq<Ask>, grants: seq<Range>, from: nat, upTo: nat) {
    Lengths(grants) == Accepted(asks) && Consecutive(grants, from, upTo) && ProperLengths(grants)
  }

  // ---------- what the clients are told ----------

  /** The number written to each connection in turn, if one is: none for a
      rejected request or a failed write.  The next number is from. */
  function Told(asks: seq<Ask>, from: nat): (r: seq<Option<nat>>)
    ensures |r| == |asks|
  {
    if asks == [] then []
    else
      match asks[0].len
      case None => [None] + Told(asks[1..], from)
      case Some(len) => [if asks[0].writable then Some(from) else None] + Told(asks[1..], (from + len) % TWO_32)
  }

  /** seqNum after all these turns. */
  function NextNumber(asks: seq<Ask>, from: nat): nat {
    if asks == [] then from
    else NextNumber(asks[1..], if asks[0].len.Some? then (from + asks[0].len.value) % TWO_32 else from)
  }

  lemma ServedTail(asks: seq<Ask>, grants: seq<Range>, from: nat, upTo: nat)
    requires asks != [] && Served(asks, grants, from, upTo)
    ensures match asks[0].len
            case None => Served(asks[1..], grants, from, upTo)
            case Some(len) =>
              && grants != [] && grants[0] == Range(from, len)
              && Served(asks[1..], grants[1..], (from + len) % TWO_32, upTo)
  {
    if asks[0].len.Some? {
      assert |Lengths(grants)| > 0 && Lengths(grants)[0] == grants[0].len;
      assert Lengths(grants[1..]) == Lengths(grants)[1..];
    }
  }

  lemma {:induction false} ServedUpTo(asks: seq<Ask>, grants: seq<Range>, from: nat, upTo: nat)
    requires Served(asks, grants, from, upTo)
    ensures upTo == NextNumber(asks, from)
    decreases |asks|
  {
    if asks != [] {
      ServedTail(asks, grants, from, upTo);
      if asks[0].len.Some? {
        ServedUpTo(asks[1..], grants[1..], (from + grants[0].len) % TWO_32, upTo);
      } else {
        ServedUpTo(asks[1..], grants, from, upTo);
      }
    }
  }

  lemma {:induction false} ToldSnoc(asks: seq<Ask>, ask: Ask, from: nat)
    ensures Told(asks + [ask], from) ==
            Told(asks, from) + [if ask.len.Some? && ask.writable then Some(NextNumber(asks, from)) else None]
    decreases |asks|
  {
    if asks == [] {
      assert (asks + [ask])[1..] == [];
    } else {
      assert (asks + [ask])[1..] == asks[1..] + [ask];
      ToldSnoc(asks[1..], ask, if asks[0].len.Some? then (from + asks[0].len.value) % TWO_32 else from);
    }
  }

  /** Which of the ranges is the one granted to connection i, if one is. */
  function RangeIndex(asks: seq<Ask>, i: nat): nat
    requires i <= |asks|
  {
    |Accepted(asks[..i])|
  }

  lemma IndexAfter(asks: seq<Ask>, i: nat)
    requires 0 < i <= |asks|
    ensures RangeIndex(asks, i) == (if asks[0].len.Some? then 1 else 0) + RangeIndex(asks[1..], i - 1)
  {
    assert asks[..i][1..] == asks[1..][..i - 1];
  }

  lemma {:induction false} IndexGrows(asks: seq<Ask>, i: nat, j: nat)
    requires i < j <= |asks| && asks[i].len.Some?
    ensures RangeIndex(asks, i) < RangeIndex(asks, j)
    decreases j
  {
    assert asks[..j] == asks[..j - 1] + [asks[j - 1]];
    AcceptedSnoc(asks[..j - 1], asks[j - 1]);
    if i < j - 1 {
      IndexGrows(asks, i, j - 1);
    }
  }

  /** Each client whose request is accepted is granted a range of the length it
      asked for, and the number written to it is where that range starts. */
  lemma {:induction false} ReplyNamesRange(asks: seq<Ask>, grants: seq<Range>, from: nat, upTo: nat, i: nat)
    requires Served(asks, grants, from, upTo) && from < TWO_32
    requires i < |asks| && asks[i].len.Some?
    ensures var k := RangeIndex(asks, i);
            && k < |grants| && grants[k].len == asks[i].len.value && grants[k].start < TWO_32
            && Told(asks, from)[i] == if asks[i].writable then Some(grants[k].start) else None
    decreases i
  {
    ServedTail(asks, grants, from, upTo);
    if i == 0 {
      assert asks[..0] == [];
    } else {
      IndexAfter(asks, i);
      if asks[0].len.Some? {
        ReplyNamesRange(asks[1..], grants[1..], (from + grants[0].len) % TWO_32, upTo, i - 1);
      } else {
        ReplyNamesRange(asks[1..], grants, from, upTo, i - 1);
      }
    }
  }

  function ReplyText(told: Option<nat>): string {
    match told
    case None => ""
    case Some(seqNum) => Reply(seqNum)
  }

  /** The text written to each connection. */
  function Replies(asks: seq<Ask>, from: nat): seq<string> {
    var told := Told(asks, from);
    seq(|told|, i requires 0 <= i < |told| => ReplyText(told[i]))
  }

  /** Where the loop has got after i connections. */
  predicate SoFar(asks: seq<Ask>, i: nat, grants: seq<Range>, replies: seq<string>, from: nat, upTo: nat)
    requires i <= |asks|
  {
    Served(asks[..i], grants, from, upTo) && replies == Replies(asks[..i], from)
  }

  /** What one turn adds. */
  predicate TurnDone(ask: Ask, at: nat, grant: Option<Range>, sent: string, upTo: nat) {
    && (ask.len.Some? ==> 0 < ask.len.value <= INT_MAX)
    && sent == ReplyText(if ask.len.Some? && ask.writable then Some(at) else None)
    && match ask.len
       case None => grant == None && upTo == at
       case Some(len) => grant == Some(Range(at, len)) && upTo == (at + len) % TWO_32
  }

  function Granted(grant: Option<Range>): seq<Range> {
    if grant.Some? then [grant.value] else []
  }

  lemma OneMore(asks: seq<Ask>, i: nat, grants: seq<Range>, replies: seq<string>, from: nat, at: nat,
                grant: Option<Range>, sent: string, upTo: nat)
    requires i < |asks| && SoFar(asks, i, grants, replies, from, at) && TurnDone(asks[i], at, grant, sent, upTo)
    ensures SoFar(asks, i + 1, grants + Granted(grant), replies + [sent], from, upTo)
  {
    var ask := asks[i];
    AcceptedSnoc(asks[..i], ask);
    if ask.len.Some? {
      ConsecutiveSnoc(grants, from, at, ask.len.value);
      assert Lengths(grants + Granted(grant)) == Lengths(grants) + [ask.len.value];
    }
    ServedUpTo(asks[..i], grants, from, at);
    ToldSnoc(asks[..i], ask, from);
    assert asks[..i + 1] == asks[..i] + [ask];
    assert Replies(asks[..i] + [ask], from) == Replies(asks[..i], from) + [sent];
    if grant.None? {
      assert grants + [] == grants;
    }
  }

  predicate Covers(g: Range, x: int) {
    (x - g.start) % TWO_32 < g.len
  }

  /** How far x is past the start of the first range, around the circle. */
  function Offset(from: int, x: int): int {
    (x - from) % TWO_32
  }

  lemma OffsetAfter(from: nat, len: int, x: int)
    requires 0 < len <= INT_MAX
    ensures Offset((from + len) % TWO_32, x) ==
            if Offset(from, x) >= len then Offset(from, x) - len else Offset(from, x) - len + TWO_32
  {
    var a, q := (from + len) % TWO_32, (from + len) / TWO_32;
    assert from + len == TWO_32 * q + a;
    var o, p := Offset(from, x), (x - from) / TWO_32;
    assert x - from == TWO_32 * p + o;
    assert x - a == TWO_32 * (p + q) + (o - len);
  }

  /** As long as the accepted lengths total at most 2^32, a number is granted
      exactly when it is less than the total past the start, and once only. */
  lemma {:induction false} GrantedOnce(grants: seq<Range>, from: nat, upTo: nat, x: int)
    requires Consecutive(grants, from, upTo) && ProperLengths(grants) && Total(grants) <= TWO_32
    ensures Total(grants) >= 0
    ensures Offset(from, x) < Total(grants) <==> exists k :: 0 <= k < |grants| && Covers(grants[k], x)
    ensures forall j, k :: 0 <= j < k < |grants| ==> !(Covers(grants[j], x) && Covers(grants[k], x))
  {
    if grants != [] {
      var rest := grants[1..];
      assert forall k :: 0 <= k < |rest| ==> rest[k] == grants[k + 1];
      GrantedOnce(rest, (from + grants[0].len) % TWO_32, upTo, x);
      OffsetAfter(from, grants[0].len, x);
      assert Covers(grants[0], x) <==> Offset(from, x) < grants[0].len;
      if k :| 0 <= k < |rest| && Covers(rest[k], x) {
        assert Covers(grants[k + 1], x);
      }
      forall k | 0 < k < |grants| && Covers(grants[k], x)
        ensures grants[0].len <= Offset(from, x) < Total(grants)
      {
        assert Covers(rest[k - 1], x);
      }
      forall j, k | 0 < j < k < |grants| ensures !(Covers(grants[j], x) && Covers(grants[k], x)) {
        assert grants[j] == rest[j - 1] && grants[k] == rest[k - 1];
      }
    }
  }

  lemma AroundTheCircle(a: int, q: int)
    ensures (a + TWO_32 * q) % TWO_32 == a % TWO_32
  {
  }

  /** Any distance below the total falls into one of the ranges. */
  lemma {:induction false} RangeAt(grants: seq<Range>, from: nat, upTo: nat, d: int) returns (k: nat)
    requires Consecutive(grants, from, upTo) && ProperLengths(grants) && 0 <= d < Total(grants)
    ensures k < |grants| && Covers(grants[k], from + d) && (k == 0 <==> d < grants[0].len)
  {
    var len := grants[0].len;
    if d < len {
      k := 0;
      assert d % TWO_32 == d;
    } else {
      var rest := grants[1..];
      assert forall i :: 0 <= i < |rest| ==> rest[i] == grants[i + 1];
      var next := (from + len) % TWO_32;
      var i := RangeAt(rest, next, upTo, d - len);
      k := i + 1;
      AroundTheCircle(next + (d - len) - rest[i].start, (from + len) / TWO_32);
    }
  }

  /** Beyond 2^32 some number is granted twice: the bound is exact. */
  lemma DisjointExactly(grants: seq<Range>, from: nat, upTo: nat)
    requires Consecutive(grants, from, upTo) && ProperLengths(grants)
    ensures (forall x: int, j: nat, k: nat :: j < k < |grants| ==> !(Covers(grants[j], x) && Covers(grants[k], x)))
       <==> Total(grants) <= TWO_32
  {
    if Total(grants) <= TWO_32 {
      forall x: int, j: nat, k: nat | j < k < |grants| ensures !(Covers(grants[j], x) && Covers(grants[k], x)) {
        GrantedOnce(grants, from, upTo, x);
      }
    } else {
      var k := RangeAt(grants, from, upTo, TWO_32);
      var first := RangeAt(grants, from, upTo, 0);
      assert TWO_32 % TWO_32 == 0;
      assert Covers(grants[0], from + TWO_32) && Covers(grants[k], from + TWO_32) && 0 < k;
    }
  }

  // ---------- the server ----------

  /** A line is empty only at the end of the input or before an error. */
  lemma {:induction false} ScanKeepsBytes(input: seq<Event>)
    ensures ScanLine(input).status.Newline? ==> ScanLine(input).line != []
  {
    if input != [] && input[0].Interrupted? {
      ScanKeepsBytes(input[1..]);
    }
  }

  /** A C string depends only on what is before its NUL. */
  lemma {:induction false} CStringOfPrefix(a: seq<char>, n: nat)
    requires 0 < n <= |a| && a[n - 1] == '\0'
    ensures CString(a) == CString(a[..n])
    decreases n
  {
    if a[0] != '\0' {
      CStringOfPrefix(a[1..], n - 1);
      assert a[..n][1..] == a[1..][..n - 1];
    }
  }

  class Server {
    var seqNum: nat

    /** The command line may give any int to start from. */
    constructor (initial: int)
      requires INT_MIN <= initial <= INT_MAX
      ensures seqNum == initial % TWO_32 && ToInt32(seqNum) == initial
    {
      seqNum := initial % TWO_32;
    }

    /** Read the request line; None when it is to be skipped. */
    method ReadText(cfd: Descriptor) returns (text: Option<string>)
      modifies cfd
      ensures text == TextOf(old(cfd.input))
    {
      var reqLenStr := new char[INT_LEN];
      ghost var s := ScanLine(cfd.input);
      ScanKeepsBytes(cfd.input);
      var numRead := ReadLine.ReadLine(cfd, reqLenStr, INT_LEN);
      if numRead <= 0 {
        return None;
      }
      assert reqLenStr[..numRead + 1] == Stored(s.line) + ['\0'];
      CStringOfPrefix(reqLenStr[..], numRead + 1);
      text := Some(CString(reqLenStr[..]));
    }

    /** The requested length; None watches for misbehaving clients. */
    method ReadLength(cfd: Descriptor) returns (len: Option<int>)
      requires ValueFits(cfd.input)
      modifies cfd
      ensures len == Request(old(cfd.input))
      ensures len.Some? ==> 0 < len.value <= INT_MAX
    {
      var text := ReadText(cfd);
      if text.None? {
        return None;
      }
      var reqLen := Atoi(text.value);
      len := if reqLen <= 0 then None else Some(reqLen);
    }

    /** Answer a request of the given length.  A reply that cannot be written
        does not give its range back. */
    method Grant(reqLen: int, writable: bool) returns (sent: string)
      requires seqNum < TWO_32 && 0 < reqLen <= INT_MAX
      modifies this
      ensures sent == if writable then Reply(old(seqNum)) else []
      ensures seqNum == (old(seqNum) + reqLen) % TWO_32
    {
      sent := if writable then Reply(seqNum) else [];
      seqNum := (seqNum + reqLen) % TWO_32;
    }

    /** Read one client's request and answer it. */
    method Handle(cfd: Descriptor, writable: bool) returns (sent: string, grant: Option<Range>)
      requires seqNum < TWO_32 && ValueFits(cfd.input)
      modifies this, cfd
      ensures seqNum < TWO_32
      ensures TurnDone(Ask(Request(old(cfd.input)), writable), old(seqNum), grant, sent, seqNum)
    {
      var len := ReadLength(cfd);
      if len.None? {
        return [], None;
      }
      grant := Some(Range(seqNum, len.value));
      sent := Grant(len.value, writable);
    }

    /** One turn of the loop: a valid request is granted the next numbers, and
        any other turn, a failed accept() included, changes nothing. */
    method Turn(c: Incoming, ghost ask: Ask) returns (grant: Option<Range>, sent: string)
      requires seqNum < TWO_32 && (c.Connection? ==> ValueFits(c.input)) && ask == AskOf(c)
      modifies this
      ensures seqNum < TWO_32
      ensures TurnDone(ask, old(seqNum), grant, sent, seqNum)
    {
      if c.NoConnection? {
        grant, sent := None, "";
      } else {
        var cfd := new Descriptor(c.input);
        sent, grant := Handle(cfd, c.writable);
      }
    }

    /** Any sequence of connections: well-formed and malformed requests, empty
        lines, early ends, failed replies. */
    method Serve(conns: seq<Incoming>) returns (grants: seq<Range>, replies: seq<string>)
      requires seqNum < TWO_32
      requires forall i :: 0 <= i < |conns| && conns[i].Connection? ==> ValueFits(conns[i].input)
      modifies this
      ensures seqNum < TWO_32
      ensures Served(Asks(conns), grants, old(seqNum), seqNum)
      ensures replies == Replies(Asks(conns), old(seqNum))
    {
      grants, replies := [], [];
      ghost var asks := Asks(conns);
      for i := 0 to |conns|
        invariant seqNum < TWO_32
        invariant SoFar(asks, i, grants, replies, old(seqNum), seqNum)
      {
        ghost var before := seqNum;
        var grant, sent := Turn(conns[i], asks[i]);
        OneMore(asks, i, grants, replies, old(seqNum), before, grant, sent, seqNum);
        grants, replies := grants + Granted(grant), replies + [sent];
      }
      assert asks[..|conns|] == asks;
    }
  }

  // ---------- the client ----------

  /** A signed reading is an int, and the same number modulo 2^32. */
  lemma ToInt32Is(u: nat)
    requires u < TWO_32
    ensures -2147483648 <= ToInt32(u) <= 2147483647
    ensures ToInt32(u) == u || ToInt32(u) == u - 4294967296
  {
  }

  lemma IntLength(v: int)
    requires INT_MIN <= v <= INT_MAX
    ensures |RenderInt(v, 10)| <= 11
  {
    assert Power(10, 10) == 10_000_000_000 by {
      assert Power(10, 2) == 100;
      assert Power(10, 4) == 100 * Power(10, 2);
      assert Power(10, 6) == 100 * Power(10, 4);
      assert Power(10, 8) == 100 * Power(10, 6);
      assert Power(10, 10) == 100 * Power(10, 8);
    }
    RenderLength(if v < 0 then -v else v, 10, 10);
  }

  /** The buffer of INT_LEN bytes holds any int, its sign, newline and NUL. */
  lemma ReplyFits(seqNum: nat)
    requires seqNum < TWO_32
    ensures |Reply(seqNum)| <= 12 < INT_LEN
  {
    ToInt32Is(seqNum);
    IntLength(ToInt32(seqNum));
  }

  lemma FirstNewline(b: string, i: nat, k: nat)
    requires i < |b| && k < |b| && b[i] == '\n' && b[k] == '\n'
    requires '\n' !in b[..i] && '\n' !in b[..k]
    ensures i == k
  {
    assert forall j :: 0 <= j < i ==> b[j] == b[..i][j];
    assert forall j :: 0 <= j < k ==> b[j] == b[..k][j];
  }

  /** If the bytes of the input begin with one line of text, that is the line
      read, wherever the reads were interrupted. */
  lemma LineIs(input: seq<Event>, text: string, more: string)
    requires NoErrors(input) && '\n' !in text && Bytes(input) == text + "\n" + more
    ensures ScanLine(input).line == text + "\n" && ScanLine(input).status.Newline?
    ensures Bytes(ScanLine(input).rest) == more
  {
    LineIsShortestPrefix(input);
    var line := ScanLine(input).line;
    var b := text + "\n" + more;
    assert b[|text|] == '\n';
    assert b[..|line|] == line;
    FirstNewline(b, |text|, |line| - 1);
    assert b[..|text| + 1] == text + "\n";
    assert Bytes(ScanLine(input).rest) == b[|line|..] == more;
  }

  /** Where the sign, the digits and the rest begin that atoi() looks at. */
  predicate AtoiParts(s: string, i: nat, j: nat, e: nat) {
    && i <= j <= e <= |s|
    && SkipSpaces(s, 0) == i
    && j == (if SignAt(s, i) then i + 1 else i)
    && SkipDigits(s, j, 10) == e
  }

  /** The value of the parts. */
  function PartsValue(s: string, i: nat, j: nat, e: nat): int
    requires i <= j <= e <= |s|
  {
    if e == j then 0 else Signed(i < j && s[i] == '-', Value(s[j..e], 10))
  }

  lemma AtoiOfParts(s: string, i: nat, j: nat, e: nat)
    requires AtoiParts(s, i, j, e)
    ensures Atoi(s) == PartsValue(s, i, j, e)
  {
  }

  predicate IsLineOf(line: string, text: string) {
    |line| == |text| + 1 && line[|text|] == '\n' && forall k :: 0 <= k < |text| ==> line[k] == text[k]
  }

  /** A newline changes the parts only of a text that is all spaces. */
  lemma PartsOfLine(text: string, line: string, i: nat, j: nat, e: nat)
    requires AtoiParts(text, i, j, e) && i < |text| && IsLineOf(line, text)
    ensures AtoiParts(line, i, j, e) && PartsValue(line, i, j, e) == PartsValue(text, i, j, e)
  {
    SkipSpacesIs(line, 0, i);
    SkipDigitsIs(line, j, 10, e);
    assert line[j..e] == text[j..e];
  }

  /** It makes no difference to atoi(). */
  lemma AtoiOfLine(text: string)
    ensures Atoi(text + "\n") == Atoi(text)
  {
    var i := SkipSpaces(text, 0);
    var j := if SignAt(text, i) then i + 1 else i;
    var e := SkipDigits(text, j, 10);
    var line, k := text + "\n", |text| + 1;
    AtoiOfParts(text, i, j, e);
    if i == |text| {
      SkipSpacesIs(line, 0, k);
      AtoiOfParts(line, k, k, k);
    } else {
      PartsOfLine(text, line, i, j, e);
      AtoiOfParts(line, i, j, e);
    }
  }

  /** The value of the line a text is sent as, with its newline or without. */
  lemma LineValue(text: string)
    requires '\0' !in text
    ensures Atoi(RequestText(text + "\n")) == Atoi(text[..Min(|text|, 29)])
    ensures RequestText(text) == text[..Min(|text|, 29)]
  {
    var stored := Stored(text + "\n");
    assert (stored + ['\0'])[..|stored|] == stored;
    CStringIs(stored + ['\0'], |stored|);
    assert (Stored(text) + ['\0'])[..|Stored(text)|] == Stored(text);
    CStringIs(Stored(text) + ['\0'], |Stored(text)|);
    if |text| < 29 {
      assert text[..|text|] == text && stored == text + "\n";
      AtoiOfLine(text);
    } else {
      assert stored == Stored(text);
    }
  }

  /** Without read errors the client's input begins with this line, which ends
      with a newline or with the input. */
  predicate FirstLine(input: seq<Event>, text: string) {
    && NoErrors(input) && '\n' !in text && '\0' !in text
    && (text + "\n" <= Bytes(input) || (text != "" && Bytes(input) == text))
  }

  lemma FirstLineIsScanned(input: seq<Event>, text: string)
    requires FirstLine(input, text)
    ensures !ScanLine(input).status.Failed?
    ensures ScanLine(input).line == text + "\n" || (text != "" && ScanLine(input).line == text)
  {
    if text + "\n" <= Bytes(input) {
      LineIs(input, text, Bytes(input)[|text| + 1..]);
    } else {
      LineIsShortestPrefix(input);
    }
  }

  /** Whatever text a client sends first: the request is refused if what atoi()
      makes of its first 29 bytes is not positive, and is for that many numbers
      if it is. */
  lemma RequestIs(input: seq<Event>, text: string)
    requires FirstLine(input, text)
    ensures var v := Atoi(text[..Min(|text|, 29)]);
            Request(input) == (if v <= 0 then None else Some(v)) && (ValueFits(input) <==> INT_MIN <= v <= INT_MAX)
  {
    FirstLineIsScanned(input, text);
    LineValue(text);
  }

  /** An input that ends or fails before its first line is refused too. */
  lemma NoLineRefused(input: seq<Event>)
    requires ScanLine(input).status.Failed? || (NoErrors(input) && Bytes(input) == "")
    ensures Request(input) == None && ValueFits(input)
  {
    if !ScanLine(input).status.Failed? {
      LineIsShortestPrefix(input);
    }
  }

  /** No decimal numeral begins the text. */
  ghost predicate NoNumber(text: string) {
    forall n: Numeral :: WellFormed(n, 10) ==> !(Text(n) <= text)
  }

  lemma NumberBegins(text: string, k: nat)
    requires k <= |text| && Atoi(text[..k]) != 0
    ensures !NoNumber(text)
  {
    var n := StrtolSound(text[..k], 10);
    assert Text(n) <= text[..k] <= text;
  }

  /** Lines that are refused: those without a number, and numbers up to zero. */
  lemma BadLinesRefused(input: seq<Event>, text: string, v: int)
    requires FirstLine(input, text)
    requires NoNumber(text) || (INT_MIN <= v <= 0 && text == RenderInt(v, 10))
    ensures Request(input) == None && ValueFits(input)
  {
    RequestIs(input, text);
    if NoNumber(text) {
      if Atoi(text[..Min(|text|, 29)]) != 0 {
        NumberBegins(text, Min(|text|, 29));
      }
    } else {
      IntLength(v);
      assert text[..|text|] == text == text + "";
      AtoiRoundTrip(v, "");
    }
  }

  lemma NumeralCharacters(n: Numeral)
    requires WellFormed(n, 10) && '\n' !in n.spaces
    ensures '\n' !in Text(n) && '\0' !in Text(n)
  {
    assert n.prefix == "";
    forall c | c in Text(n) ensures c != '\n' && c != '\0' {
      assert c in n.spaces || c in n.sign || c in n.digits;
    }
  }

  /** Numerals that are understood as a length. */
  predicate ProperNumeral(n: Numeral) {
    WellFormed(n, 10) && '\n' !in n.spaces && |Text(n)| < INT_LEN && 0 < NumeralValue(n, 10) <= INT_MAX
  }

  /** A client's argument that is a decimal numeral, however it is written, is
      accepted as its value if that is a positive int. */
  lemma RequestUnderstood(toServer: seq<Event>, n: Numeral, more: string)
    requires ProperNumeral(n)
    requires NoErrors(toServer) && Bytes(toServer) == Text(n) + "\n" + more
    ensures Request(toServer) == Some(NumeralValue(n, 10)) && ValueFits(toServer)
  {
    NumeralCharacters(n);
    assert Text(n) + "\n" <= Bytes(toServer);
    RequestIs(toServer, Text(n));
    assert Text(n)[..|Text(n)|] == Text(n) == Text(n) + "";
    StrtolComplete(n, 10, "");
  }

  /** The client's part: however its reads are interrupted, it recovers the
      whole reply line, whose value is the server's seqNum as a signed int. */
  method ReadReply(cfd: Descriptor, ghost seqNum: nat) returns (numRead: int, seqNumStr: array<char>)
    requires seqNum < TWO_32 && NoErrors(cfd.input) && Bytes(cfd.input) == Reply(seqNum)
    modifies cfd
    ensures seqNumStr.Length == INT_LEN
    ensures CString(seqNumStr[..]) == Reply(seqNum) && numRead == |Reply(seqNum)|
    ensures Atoi(CString(seqNumStr[..])) == ToInt32(seqNum)
    ensures Bytes(cfd.input) == []
  {
    ghost var v := ToInt32(seqNum);
    ReplyFits(seqNum);
    RenderedCharacters(v, 10, '\n');
    RenderedCharacters(v, 10, '\0');
    assert Reply(seqNum) == RenderInt(v, 10) + "\n" + "";
    LineIs(cfd.input, RenderInt(v, 10), "");
    seqNumStr := new char[INT_LEN];
    numRead := ReadLine.ReadLine(cfd, seqNumStr, INT_LEN);
    assert seqNumStr[..numRead] == Reply(seqNum);
    CStringIs(seqNumStr[..], numRead);
    assert seqNumStr[..][..numRead] == seqNumStr[..numRead];
    AtoiRoundTrip(v, "\n");
  }
  // ---------- from request to reply ----------

  lemma ReplyIsRead(seqNum: nat, toClient: seq<Event>)
    requires NoErrors(toClient) && Bytes(toClient) == Reply(seqNum)
    ensures ScanLine(toClient).line == Reply(seqNum) && Atoi(Reply(seqNum)) == ToInt32(seqNum)
  {
    var v := ToInt32(seqNum);
    RenderedCharacters(v, 10, '\n');
    assert RenderInt(v, 10) + "\n" == RenderInt(v, 10) + "\n" + "";
    LineIs(toClient, RenderInt(v, 10), "");
    AtoiRoundTrip(v, "\n");
  }

  /** The client on this connection sends this numeral and can be answered. */
  predicate Sends(c: Incoming, n: Numeral) {
    && c.Connection? && c.writable
    && NoErrors(c.input) && Bytes(c.input) == Text(n) + "\n"
  }

  /** A client that sends a numeral of value v over connection i and gets back
      what the server writes to it reads, wherever its reads are interrupted,
      the start of a range of v numbers that was granted to it. */
  lemma RequestAndReply(conns: seq<Incoming>, grants: seq<Range>, from: nat, upTo: nat, i: nat, n: Numeral)
    requires i < |conns| && Sends(conns[i], n) && ProperNumeral(n)
    requires from < TWO_32 && Served(Asks(conns), grants, from, upTo)
    ensures var k := RangeIndex(Asks(conns), i);
            && k < |grants| && grants[k].len == NumeralValue(n, 10)
            && forall toClient: seq<Event> ::
                 NoErrors(toClient) && Bytes(toClient) == Replies(Asks(conns), from)[i] ==>
                   && ScanLine(toClient).line == Reply(grants[k].start)
                   && Atoi(ScanLine(toClient).line) == ToInt32(grants[k].start)
  {
    assert Text(n) + "\n" == Text(n) + "\n" + "";
    RequestUnderstood(conns[i].input, n, "");
    ReplyNamesRange(Asks(conns), grants, from, upTo, i);
    var start := grants[RangeIndex(Asks(conns), i)].start;
    forall toClient: seq<Event> | NoErrors(toClient) && Bytes(toClient) == Replies(Asks(conns), from)[i]
      ensures ScanLine(toClient).line == Reply(start) && Atoi(ScanLine(toClient).line) == ToInt32(start)
    {
      ReplyIsRead(start, toClient);
    }
  }

  /** What the source skips: a connection that failed, one without a line, and
      one whose line has no positive value. */
  ghost predicate Refusable(c: Incoming) {
    || c.NoConnection?
    || ScanLine(c.input).status.Failed?
    || (NoErrors(c.input) && Bytes(c.input) == "")
    || exists text: string :: FirstLine(c.input, text) && Atoi(text[..Min(|text|, 29)]) <= 0
  }

  lemma {:induction false} ToldNothing(asks: seq<Ask>, i: nat, from: nat)
    requires i < |asks| && asks[i].len == None
    ensures Told(asks, from)[i] == None
    decreases i
  {
    if i > 0 {
      ToldNothing(asks[1..], i - 1, if asks[0].len.Some? then (from + asks[0].len.value) % TWO_32 else from);
    }
  }

  /** Such a connection is sent nothing and adds no range. */
  lemma RefusedGetsNothing(conns: seq<Incoming>, i: nat, from: nat)
    requires i < |conns| && Refusable(conns[i])
    ensures Replies(Asks(conns), from)[i] == ""
    ensures Accepted(Asks(conns)[..i + 1]) == Accepted(Asks(conns)[..i])
  {
    var asks := Asks(conns);
    var c := conns[i];
    if c.Connection? && !ScanLine(c.input).status.Failed? && !(NoErrors(c.input) && Bytes(c.input) == "") {
      var text: string :| FirstLine(c.input, text) && Atoi(text[..Min(|text|, 29)]) <= 0;
      RequestIs(c.input, text);
    } else if c.Connection? {
      NoLineRefused(c.input);
    }
    ToldNothing(asks, i, from);
    assert asks[..i + 1] == asks[..i] + [asks[i]];
    AcceptedSnoc(asks[..i], asks[i]);
  }

  /** Two clients whose requests are accepted are granted different ranges, and
      as long as the lengths total at most 2^32 these have no number in common. */
  lemma {:induction false} ClientsShareNothing(asks: seq<Ask>, grants: seq<Range>, from: nat, upTo: nat,
        i: nat, j: nat, x: int)
    requires Served(asks, grants, from, upTo) && from < TWO_32 && Total(grants) <= TWO_32
    requires i < j < |asks| && asks[i].len.Some? && asks[j].len.Some?
    ensures var k, l := RangeIndex(asks, i), RangeIndex(asks, j);
            k < l < |grants| && !(Covers(grants[k], x) && Covers(grants[l], x))
  {
    IndexGrows(asks, i, j);
    ReplyNamesRange(asks, grants, from, upTo, j);
    GrantedOnce(grants, from, upTo, x);
  }
}
