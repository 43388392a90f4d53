/** Timer settings from a string (lib/itimerspec_from_str.c):
    value.sec[/value.nanosec][:interval.sec[/interval.nanosec]] */
module TimerSpec {
  import opened Numerals
  import opened Wrappers

  datatype Timespec = Timespec(sec: int, nsec: int)

  datatype Itimerspec = Itimerspec(value: Timespec, interval: Timespec)

  // ---------- the grammar, by splitting ----------

  /** The position of the first c, or the length of s. */
  function Find(s: string, c: char): (i: nat)
    ensures i <= |s| && c !in s[..i]
    ensures i < |s| ==> s[i] == c
  {
    if s == [] || s[0] == c then 0
    else
      var k := Find(s[1..], c);
      assert s[..1 + k] == [s[0]] + s[1..][..k];
      1 + k
  }

  /** seconds[/nanoseconds], where number stands for atoi(): nothing about the
      splitting depends on what atoi() makes of a piece, so this covers also
      the numbers beyond int for which C leaves atoi() undefined. */
  function SplitTime(s: string, number: string -> int): Timespec {
    var slash := Find(s, '/');
    Timespec(number(s[..slash]), if slash < |s| then number(s[slash + 1..]) else 0)
  }

  function Parse(s: string, number: string -> int): Itimerspec {
    var colon := Find(s, ':');
    Itimerspec(SplitTime(s[..colon], number), if colon < |s| then SplitTime(s[colon + 1..], number) else Timespec(0, 0))
  }

  // ---------- cutting a buffer ----------

  /** The string that starts at position i of a buffer. */
  function StringAt(b: seq<char>, i: nat): string
    requires i <= |b|
  {
    CString(b[i..])
  }

  lemma {:induction false} FindIs(s: string, c: char, i: nat)
    requires i <= |s| && c !in s[..i] && (i < |s| ==> s[i] == c)
    ensures Find(s, c) == i
  {
    if i > 0 {
      assert s[..i][0] == s[0];
      assert s[1..][..i - 1] == s[..i][1..];
      FindIs(s[1..], c, i - 1);
    }
  }

  lemma {:induction false} CStringTail(a: seq<char>, k: nat)
    requires k <= |CString(a)|
    ensures CString(a[k..]) == CString(a)[k..]
  {
    if k == 0 {
      assert a[0..] == a;
    } else {
      CStringTail(a[1..], k - 1);
      assert a[k..] == a[1..][k - 1..];
    }
  }

  /** Writing a NUL over the character at i cuts the string there and leaves
      the rest to be found behind it. */
  lemma CutString(b: seq<char>, from: nat, i: nat)
    requires from <= i < |b| && i - from < |StringAt(b, from)|
    ensures StringAt(b[i := '\0'], from) == StringAt(b, from)[..i - from]
    ensures StringAt(b[i := '\0'], i + 1) == StringAt(b, from)[i + 1 - from..]
  {
    var s, cut := StringAt(b, from), i - from;
    var after := b[i := '\0'];
    assert after[from..][..cut] == s[..cut];
    assert after[from..][cut] == '\0';
    CStringIs(after[from..], cut);
    CStringTail(b[from..], cut + 1);
    assert after[i + 1..] == b[from..][cut + 1..];
  }

  /** What the string at from says, read off the buffer after its first slash,
      if it has one, has been cut. */
  lemma SplitByCutting(b: seq<char>, from: nat, number: string -> int, sptr: Option<nat>)
    requires from <= |b|
    requires var s := StringAt(b, from); var i := Find(s, '/');
             sptr == if i < |s| then Some(from + i) else None
    ensures SplitTime(StringAt(b, from), number) ==
              match sptr
              case None => Timespec(number(StringAt(b, from)), 0)
              case Some(p) => Timespec(number(StringAt(b[p := '\0'], from)), number(StringAt(b[p := '\0'], p + 1)))
  {
    var s := StringAt(b, from);
    if sptr.Some? {
      CutString(b, from, sptr.value);
    } else {
      assert s[..|s|] == s;
    }
  }

  lemma ParseByCutting(b: seq<char>, number: string -> int)
    ensures var s := StringAt(b, 0); var i := Find(s, ':');
            && (i == |s| ==> Parse(s, number) == Itimerspec(SplitTime(s, number), Timespec(0, 0)))
            && (i < |s| ==> && StringAt(b[i := '\0'], 0) == s[..i]
                            && StringAt(b[i := '\0'], i + 1) == s[i + 1..]
                            && Parse(s, number) == Itimerspec(SplitTime(s[..i], number), SplitTime(s[i + 1..], number)))
  {
    var s := StringAt(b, 0);
    var i := Find(s, ':');
    if i < |s| {
      CutString(b, 0, i);
    } else {
      assert s[..i] == s;
    }
  }

  // ---------- the parser, by overwriting ----------

  /** strchr() on the string that starts at from, NULL as None. */
  method Strchr(a: array<char>, from: nat, c: char) returns (p: Option<nat>)
    requires from <= a.Length && from + |StringAt(a[..], from)| < a.Length && c != '\0'
    ensures var s := StringAt(a[..], from); var i := Find(s, c);
            p == if i < |s| then Some(from + i) else None
  {
    ghost var s := StringAt(a[..], from);
    assert forall j :: 0 <= j < |s| ==> s[j] == a[from + j];
    assert a[from + |s|] == '\0';
    var k := from;
    while a[k] != '\0' && a[k] != c
      invariant from <= k <= from + |s|
      invariant c !in s[..k - from]
      decreases from + |s| - k
    {
      assert s[..k + 1 - from] == s[..k - from] + [a[k]];
      k := k + 1;
    }
    FindIs(s, c, k - from);
    p := if a[k] == c then Some(k) else None;
  }

  /** The conversion of the string at from, up to its NUL. */
  method ReadNumber(a: array<char>, from: nat, number: string -> int) returns (v: int)
    requires from <= a.Length
    ensures v == number(StringAt(a[..], from))
  {
    assert a[from..] == a[..][from..];
    v := number(CString(a[from..]));
  }

  /** Both numbers of a time whose slash, if any, has been overwritten. */
  method ReadTime(a: array<char>, from: nat, sptr: Option<nat>, number: string -> int) returns (t: Timespec)
    requires from <= a.Length && (sptr.Some? ==> sptr.value < a.Length)
    ensures t == match sptr
                 case None => Timespec(number(StringAt(a[..], from)), 0)
                 case Some(p) => Timespec(number(StringAt(a[..], from)), number(StringAt(a[..], p + 1)))
  {
    var sec := ReadNumber(a, from, number);
    var nsec := 0;
    if sptr.Some? {
      nsec := ReadNumber(a, sptr.value + 1, number);
    }
    t := Timespec(sec, nsec);
  }

  /** *p = NUL */
  method Cut(a: array<char>, p: nat)
    requires p < a.Length
    modifies a
    ensures a[..] == old(a[..])[p := '\0']
  {
    a[p] := '\0';
  }

  /** Split the string that starts at from at its first slash, in place;
      nothing outside that string is touched. */
  method ParseTime(a: array<char>, from: nat, number: string -> int) returns (t: Timespec)
    requires from <= a.Length && from + |StringAt(a[..], from)| < a.Length
    modifies a
    ensures t == SplitTime(StringAt(old(a[..]), from), number)
    ensures forall j :: 0 <= j < a.Length && (j < from || from + |StringAt(old(a[..]), from)| <= j) ==>
              a[..][j] == old(a[..])[j]
  {
    var sptr := Strchr(a, from, '/');
    SplitByCutting(a[..], from, number, sptr);
    if sptr.Some? {
      Cut(a, sptr.value);
    }
    t := ReadTime(a, from, sptr, number);
  }

  /** Split both halves of a buffer that has been cut at the given position. */
  method ParseHalves(a: array<char>, colon: nat, number: string -> int) returns (value: Timespec, interval: Timespec)
    requires colon < a.Length && |StringAt(a[..], 0)| == colon
    requires colon + 1 + |StringAt(a[..], colon + 1)| < a.Length
    modifies a
    ensures value == SplitTime(StringAt(old(a[..]), 0), number)
    ensures interval == SplitTime(StringAt(old(a[..]), colon + 1), number)
  {
    ghost var cut := a[..];
    value := ParseTime(a, 0, number);
    assert a[..][colon + 1..] == cut[colon + 1..];
    interval := ParseTime(a, colon + 1, number);
  }

  /** strdup() */
  method Duplicate(str: array<char>) returns (dupstr: array<char>)
    ensures fresh(dupstr) && dupstr[..] == str[..]
    ensures StringAt(dupstr[..], 0) == CString(str[..])
  {
    dupstr := new char[str.Length](i requires 0 <= i < str.Length reads str => str[i]);
    assert dupstr[..][0..] == str[..];
  }

  /** The parser as written: it works on a copy, cuts the copy at the colon
      and at the slashes, and reads the pieces; the caller's string is left as
      it is. */
  method ItimerspecFromStr(str: array<char>, number: string -> int) returns (tsp: Itimerspec)
    requires |CString(str[..])| < str.Length
    ensures tsp == Parse(CString(str[..]), number)
  {
    var dupstr := Duplicate(str);
    ghost var before := dupstr[..];
    ParseByCutting(before, number);
    var cptr := Strchr(dupstr, 0, ':');
    var value, interval := Timespec(0, 0), Timespec(0, 0);
    if cptr.None? {
      value := ParseTime(dupstr, 0, number);
    } else {
      Cut(dupstr, cptr.value);
      value, interval := ParseHalves(dupstr, cptr.value, number);
    }
    tsp := Itimerspec(value, interval);
  }

  // ---------- round trips ----------

  /** Which of the optional parts are written out. */
  datatype Layout = Layout(valueNsec: bool, interval: bool, intervalNsec: bool)

  function PrintTime(t: Timespec, withNsec: bool): string {
    if withNsec then RenderInt(t.sec, 10) + "/" + RenderInt(t.nsec, 10) else RenderInt(t.sec, 10)
  }

  function Print(t: Itimerspec, l: Layout): string {
    if l.interval then PrintTime(t.value, l.valueNsec) + ":" + PrintTime(t.interval, l.intervalNsec)
    else PrintTime(t.value, l.valueNsec)
  }

  /** The parts that are left out are zero. */
  predicate Fits(t: Itimerspec, l: Layout) {
    && (!l.valueNsec ==> t.value.nsec == 0)
    && (!l.interval ==> t.interval == Timespec(0, 0))
    && (!l.intervalNsec ==> t.interval.nsec == 0)
  }

  lemma NoColon(t: Timespec, withNsec: bool)
    ensures ':' !in PrintTime(t, withNsec)
  {
    RenderedCharacters(t.sec, 10, ':');
    RenderedCharacters(t.nsec, 10, ':');
  }

  /** Splitting what was put together around a separator. */
  lemma SplitJoined(a: string, b: string, number: string -> int)
    requires '/' !in a
    ensures SplitTime(a, number) == Timespec(number(a), 0)
    ensures SplitTime(a + "/" + b, number) == Timespec(number(a), number(b))
  {
    FindIs(a, '/', |a|);
    assert a[..|a|] == a;
    var s := a + "/" + b;
    assert s[..|a|] == a && s[|a| + 1..] == b;
    FindIs(s, '/', |a|);
  }

  lemma ParseJoined(a: string, b: string, number: string -> int)
    requires ':' !in a
    ensures Parse(a, number) == Itimerspec(SplitTime(a, number), Timespec(0, 0))
    ensures Parse(a + ":" + b, number) == Itimerspec(SplitTime(a, number), SplitTime(b, number))
  {
    FindIs(a, ':', |a|);
    assert a[..|a|] == a;
    var s := a + ":" + b;
    assert s[..|a|] == a && s[|a| + 1..] == b;
    FindIs(s, ':', |a|);
  }

  /** number reads printed numbers back. */
  ghost predicate ReadsBack(number: string -> int) {
    forall v: int :: number(RenderInt(v, 10)) == v
  }

  lemma AtoiReadsBack()
    ensures ReadsBack(Atoi)
  {
    forall v: int ensures Atoi(RenderInt(v, 10)) == v {
      AtoiRoundTrip(v, "");
      assert RenderInt(v, 10) + "" == RenderInt(v, 10);
    }
  }

  lemma TimeReadBack(t: Timespec, withNsec: bool, number: string -> int)
    requires ReadsBack(number)
    ensures SplitTime(PrintTime(t, withNsec), number) == if withNsec then t else t.(nsec := 0)
  {
    var sec, nsec := RenderInt(t.sec, 10), RenderInt(t.nsec, 10);
    RenderedCharacters(t.sec, 10, '/');
    SplitJoined(sec, nsec, number);
  }

  /** What is written out is read back, and what is left out is read as zero:
      parsing a printed setting returns it exactly when it fits the layout. */
  lemma RoundTripWith(t: Itimerspec, l: Layout, number: string -> int)
    requires ReadsBack(number)
    ensures Parse(Print(t, l), number) == t <==> Fits(t, l)
  {
    var value, interval := PrintTime(t.value, l.valueNsec), PrintTime(t.interval, l.intervalNsec);
    NoColon(t.value, l.valueNsec);
    ParseJoined(value, interval, number);
    TimeReadBack(t.value, l.valueNsec, number);
    TimeReadBack(t.interval, l.intervalNsec, number);
  }

  lemma RoundTrip(t: Itimerspec, l: Layout)
    ensures Parse(Print(t, l), Atoi) == t <==> Fits(t, l)
  {
    AtoiReadsBack();
    RoundTripWith(t, l, Atoi);
  }
}
