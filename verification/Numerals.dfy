/** Numbers as text: what strtol() and atoi() read (sections 7.22.1.4 and
    7.22.1.2 of ISO C11) and what the conversions of printf() write. */
module Numerals {
  // ---------- characters ----------

  /** isspace() in the C locale. */
  predicate IsSpace(c: char) {
    c == ' ' || '\t' <= c <= '\r'
  }

  /** The value of a digit in any base up to 36, or 36 for another character. */
  function DigitValue(c: char): nat {
    if '0' <= c <= '9' then (c - '0') as int
    else if 'a' <= c <= 'z' then (c - 'a') as int + 10
    else if 'A' <= c <= 'Z' then (c - 'A') as int + 10
    else 36
  }

  function DigitChar(d: nat): char
    requires d < 16
  {
    if d < 10 then '0' + d as char else 'a' + (d - 10) as char
  }

  /** The digits, by name, in every base up to 16; and the space characters. */
  lemma CharacterTable(d: nat, c: char)
    requires d < 16
    ensures DigitChar(d) == "0123456789abcdef"[d]
    ensures DigitValue("0123456789abcdef"[d]) == d && DigitValue("0123456789ABCDEF"[d]) == d
    ensures DigitValue(c) < 16 <==> c in "0123456789abcdefABCDEF"
    ensures IsSpace(c) <==> c in " \t\n\U{b}\U{c}\r"
  {
    assert "0123456789abcdefABCDEF" == "0123456789abcdef" + "ABCDEF";
  }

  predicate AllDigits(s: string, base: nat) {
    forall i :: 0 <= i < |s| ==> DigitValue(s[i]) < base
  }

  predicate AllSpaces(s: string) {
    forall i :: 0 <= i < |s| ==> IsSpace(s[i])
  }

  /** The number a string of digits stands for. */
  function Value(s: string, base: nat): nat {
    if s == [] then 0 else Value(s[..|s| - 1], base) * base + DigitValue(s[|s| - 1])
  }

  function Signed(negative: bool, v: nat): int {
    if negative then 0 - v else v
  }

  // ---------- strtol ----------

  function SkipSpaces(s: string, i: nat): (k: nat)
    requires i <= |s|
    ensures i <= k <= |s|
    ensures forall j :: i <= j < k ==> IsSpace(s[j])
    ensures k < |s| ==> !IsSpace(s[k])
    decreases |s| - i
  {
    if i == |s| || !IsSpace(s[i]) then i else SkipSpaces(s, i + 1)
  }

  function SkipDigits(s: string, i: nat, base: nat): (k: nat)
    requires i <= |s|
    ensures i <= k <= |s|
    ensures forall j :: i <= j < k ==> DigitValue(s[j]) < base
    ensures k < |s| ==> DigitValue(s[k]) >= base
    decreases |s| - i
  {
    if i == |s| || DigitValue(s[i]) >= base then i else SkipDigits(s, i + 1, base)
  }

  predicate SignAt(s: string, i: nat) {
    i < |s| && (s[i] == '+' || s[i] == '-')
  }

  /** A hexadecimal prefix counts only if a hexadecimal digit follows it. */
  predicate HexPrefixAt(s: string, i: nat) {
    i + 3 <= |s| && s[i] == '0' && (s[i + 1] == 'x' || s[i + 1] == 'X') && DigitValue(s[i + 2]) < 16
  }

  function RadixAt(s: string, i: nat, base: nat): nat {
    if base != 0 then base
    else if HexPrefixAt(s, i) then 16
    else if i < |s| && s[i] == '0' then 8
    else 10
  }

  function AfterPrefix(s: string, i: nat, base: nat): nat {
    if (base == 0 || base == 16) && HexPrefixAt(s, i) then i + 2 else i
  }

  /** The value read, before it is fitted into a long, and how many characters
      were consumed: none if there is no number. */
  datatype Scan = Scan(value: int, consumed: nat)

  function Strtol(s: string, base: nat): (r: Scan)
    ensures r.consumed <= |s|
    ensures r.consumed == 0 ==> r.value == 0
  {
    var i := SkipSpaces(s, 0);
    var j := if SignAt(s, i) then i + 1 else i;
    var p := AfterPrefix(s, j, base);
    var radix := RadixAt(s, j, base);
    var e := SkipDigits(s, p, radix);
    if e == p then Scan(0, 0)
    else Scan(Signed(i < j && s[i] == '-', Value(s[p..e], radix)), e)
  }

  /** atoi(), on numbers that fit in an int; the result is 0 without a number. */
  function Atoi(s: string): int {
    Strtol(s, 10).value
  }

  /** A byte array as C reads it, up to the first NUL. */
  function CString(a: seq<char>): (s: string)
    ensures |s| <= |a| && s == a[..|s|]
    ensures '\0' !in s
    ensures |s| < |a| ==> a[|s|] == '\0'
  {
    if a == [] || a[0] == '\0' then [] else [a[0]] + CString(a[1..])
  }

  lemma {:induction false} CStringIs(a: seq<char>, n: nat)
    requires n < |a| && a[n] == '\0' && '\0' !in a[..n]
    ensures CString(a) == a[..n]
  {
    if n > 0 {
      assert a[..n][0] == a[0];
      assert a[1..][..n - 1] == a[..n][1..];
      CStringIs(a[1..], n - 1);
    }
  }

  // ---------- the grammar ----------

  /** A numeral taken apart. */
  datatype Numeral = Numeral(spaces: string, sign: string, prefix: string, digits: string)

  function Text(n: Numeral): string {
    n.spaces + n.sign + n.prefix + n.digits
  }

  function NumeralRadix(n: Numeral, base: nat): nat {
    if base != 0 then base
    else if n.prefix != [] then 16
    else if n.digits != [] && n.digits[0] == '0' then 8
    else 10
  }

  predicate WellFormed(n: Numeral, base: nat) {
    && AllSpaces(n.spaces)
    && (n.sign == "" || n.sign == "+" || n.sign == "-")
    && (n.prefix == "" || ((base == 0 || base == 16) && (n.prefix == "0x" || n.prefix == "0X")))
    && n.digits != []
    && AllDigits(n.digits, NumeralRadix(n, base))
  }

  function NumeralValue(n: Numeral, base: nat): int {
    Signed(n.sign != [] && n.sign[0] == '-', Value(n.digits, NumeralRadix(n, base)))
  }

  predicate Base(base: nat) {
    base == 0 || base == 8 || base == 10 || base == 16
  }

  lemma Pieces(s: string, i: nat, j: nat, p: nat, e: nat)
    requires i <= j <= p <= e <= |s|
    ensures Text(Numeral(s[..i], s[i..j], s[j..p], s[p..e])) == s[..e]
  {
    assert s[..i] + s[i..j] == s[..j];
    assert s[..j] + s[j..p] == s[..p];
    assert s[..p] + s[p..e] == s[..e];
  }

  lemma PiecesWellFormed(s: string, base: nat, i: nat, j: nat, p: nat, e: nat)
    requires Base(base) && i <= j <= |s| && p < e <= |s|
    requires forall k :: 0 <= k < i ==> IsSpace(s[k])
    requires j == if SignAt(s, i) then i + 1 else i
    requires p == AfterPrefix(s, j, base)
    requires forall k :: p <= k < e ==> DigitValue(s[k]) < RadixAt(s, j, base)
    ensures var n := Numeral(s[..i], s[i..j], s[j..p], s[p..e]);
            WellFormed(n, base)
            && NumeralValue(n, base) == Signed(i < j && s[i] == '-', Value(s[p..e], RadixAt(s, j, base)))
  {
    var n := Numeral(s[..i], s[i..j], s[j..p], s[p..e]);
    assert n.digits[0] == s[p];
    assert i < j ==> n.sign == [s[i]];
    assert j < p ==> n.prefix == [s[j], s[j + 1]];
  }

  /** The scan of a text whose parts are known. */
  lemma StrtolAt(s: string, base: nat, i: nat, j: nat, p: nat, e: nat, radix: nat, negative: bool, digits: string)
    requires i <= j <= |s| && p < e <= |s| && s[p..e] == digits
    requires SkipSpaces(s, 0) == i && j == (if SignAt(s, i) then i + 1 else i) && p == AfterPrefix(s, j, base)
    requires radix == RadixAt(s, j, base) && SkipDigits(s, p, radix) == e
    requires negative <==> i < j && s[i] == '-'
    ensures Strtol(s, base) == Scan(Signed(negative, Value(digits, radix)), e)
  {
  }

  /** What strtol() consumes, if anything, is a numeral of the grammar. */
  lemma StrtolSound(s: string, base: nat) returns (n: Numeral)
    requires Base(base) && Strtol(s, base).consumed > 0
    ensures WellFormed(n, base)
    ensures Text(n) == s[..Strtol(s, base).consumed]
    ensures NumeralValue(n, base) == Strtol(s, base).value
  {
    var i := SkipSpaces(s, 0);
    var j := if SignAt(s, i) then i + 1 else i;
    var p := AfterPrefix(s, j, base);
    var e := SkipDigits(s, p, RadixAt(s, j, base));
    n := Numeral(s[..i], s[i..j], s[j..p], s[p..e]);
    Pieces(s, i, j, p, e);
    PiecesWellFormed(s, base, i, j, p, e);
    StrtolAt(s, base, i, j, p, e, RadixAt(s, j, base), i < j && s[i] == '-', s[p..e]);
  }

  lemma {:induction false} SkipSpacesIs(s: string, i: nat, k: nat)
    requires i <= k <= |s|
    requires forall j :: i <= j < k ==> IsSpace(s[j])
    requires k < |s| ==> !IsSpace(s[k])
    ensures SkipSpaces(s, i) == k
    decreases k - i
  {
    if i < k {
      SkipSpacesIs(s, i + 1, k);
    }
  }

  lemma {:induction false} SkipDigitsIs(s: string, i: nat, base: nat, k: nat)
    requires i <= k <= |s|
    requires forall j :: i <= j < k ==> DigitValue(s[j]) < base
    requires k < |s| ==> DigitValue(s[k]) >= base
    ensures SkipDigits(s, i, base) == k
    decreases k - i
  {
    if i < k {
      SkipDigitsIs(s, i + 1, base, k);
    }
  }

  /** No numeral is followed by something that would make it longer: neither
      one more digit nor, after a lone zero, what looks like a prefix. */
  predicate EndsNumeral(n: Numeral, base: nat, rest: string) {
    && (rest != [] ==> DigitValue(rest[0]) >= NumeralRadix(n, base))
    && (n.prefix == "" && (base == 0 || base == 16) ==> !HexPrefixAt(n.digits + rest, 0))
  }

  lemma DigitsAre(n: Numeral, rest: string)
    ensures (Text(n) + rest)[|n.spaces| + |n.sign| + |n.prefix|..|Text(n)|] == n.digits
  {
  }

  lemma StrtolFromParts(n: Numeral, base: nat, rest: string)
    requires n.digits != [] && |n.sign| <= 1
    requires var s := Text(n) + rest; var i := |n.spaces|; var j := i + |n.sign|;
             && SkipSpaces(s, 0) == i
             && (SignAt(s, i) <==> n.sign != "")
             && (n.sign != "" ==> s[i] == n.sign[0])
             && AfterPrefix(s, j, base) == j + |n.prefix|
             && RadixAt(s, j, base) == NumeralRadix(n, base)
             && SkipDigits(s, j + |n.prefix|, NumeralRadix(n, base)) == |Text(n)|
    ensures Strtol(Text(n) + rest, base) == Scan(NumeralValue(n, base), |Text(n)|)
  {
    var i := |n.spaces|;
    DigitsAre(n, rest);
    StrtolAt(Text(n) + rest, base, i, i + |n.sign|, i + |n.sign| + |n.prefix|, |Text(n)|,
             NumeralRadix(n, base), n.sign != [] && n.sign[0] == '-', n.digits);
  }

  lemma SpacesSkipped(n: Numeral, base: nat, rest: string)
    requires Base(base) && WellFormed(n, base)
    requires var s := Text(n) + rest; var j := |n.spaces| + |n.sign|;
             j < |s| && s[j] == if n.prefix == "" then n.digits[0] else '0'
    ensures var s := Text(n) + rest; var i := |n.spaces|;
            && SkipSpaces(s, 0) == i
            && (SignAt(s, i) <==> n.sign != "")
            && (n.sign != "" ==> s[i] == n.sign[0])
  {
    var s, i := Text(n) + rest, |n.spaces|;
    assert forall k :: 0 <= k < i ==> s[k] == n.spaces[k];
    assert n.sign != "" ==> s[i] == n.sign[0];
    assert DigitValue(n.digits[0]) < 36;
    SkipSpacesIs(s, 0, i);
  }

  lemma DigitsSkipped(n: Numeral, base: nat, rest: string)
    requires AllDigits(n.digits, NumeralRadix(n, base))
    requires rest != [] ==> DigitValue(rest[0]) >= NumeralRadix(n, base)
    ensures SkipDigits(Text(n) + rest, |n.spaces| + |n.sign| + |n.prefix|, NumeralRadix(n, base)) == |Text(n)|
  {
    var s, p, e := Text(n) + rest, |n.spaces| + |n.sign| + |n.prefix|, |Text(n)|;
    assert forall k :: p <= k < e ==> s[k] == n.digits[k - p];
    assert e < |s| ==> s[e] == rest[0];
    SkipDigitsIs(s, p, NumeralRadix(n, base), e);
  }

  lemma NoPrefixIs(n: Numeral, base: nat, rest: string)
    requires n.prefix == "" && n.digits != []
    ensures var s := Text(n) + rest; var j := |n.spaces| + |n.sign|;
            && j < |s| && s[j] == n.digits[0]
            && HexPrefixAt(s, j) == HexPrefixAt(n.digits + rest, 0)
  {
    var s, j := Text(n) + rest, |n.spaces| + |n.sign|;
    var tail := n.digits + rest;
    assert s == n.spaces + n.sign + tail;
    assert forall k :: 0 <= k < |tail| ==> s[j + k] == tail[k];
    if |tail| >= 3 {
      assert s[j + 0] == tail[0] && s[j + 1] == tail[1] && s[j + 2] == tail[2];
    }
  }

  /** strtol() sees the prefix of a numeral where it is. */
  lemma PrefixIs(n: Numeral, base: nat, rest: string)
    requires Base(base) && WellFormed(n, base) && EndsNumeral(n, base, rest)
    ensures var s := Text(n) + rest; var j := |n.spaces| + |n.sign|;
            && j < |s| && s[j] == (if n.prefix == "" then n.digits[0] else '0')
            && AfterPrefix(s, j, base) == j + |n.prefix|
            && RadixAt(s, j, base) == NumeralRadix(n, base)
  {
    var s, j := Text(n) + rest, |n.spaces| + |n.sign|;
    if n.prefix == "" {
      NoPrefixIs(n, base, rest);
    } else {
      assert s[j] == n.prefix[0] && s[j + 1] == n.prefix[1] && s[j + 2] == n.digits[0];
    }
  }

  lemma SkipsAre(n: Numeral, base: nat, rest: string)
    requires Base(base) && WellFormed(n, base) && EndsNumeral(n, base, rest)
    ensures var s := Text(n) + rest; var i := |n.spaces|; var p := i + |n.sign| + |n.prefix|;
            && SkipSpaces(s, 0) == i
            && (SignAt(s, i) <==> n.sign != "")
            && (n.sign != "" ==> s[i] == n.sign[0])
            && SkipDigits(s, p, NumeralRadix(n, base)) == |Text(n)|
  {
    PrefixIs(n, base, rest);
    SpacesSkipped(n, base, rest);
    DigitsSkipped(n, base, rest);
  }

  /** Everything the grammar allows is what strtol() consumes. */
  lemma StrtolComplete(n: Numeral, base: nat, rest: string)
    requires Base(base) && WellFormed(n, base) && EndsNumeral(n, base, rest)
    ensures Strtol(Text(n) + rest, base) == Scan(NumeralValue(n, base), |Text(n)|)
  {
    PrefixIs(n, base, rest);
    SkipsAre(n, base, rest);
    StrtolFromParts(n, base, rest);
  }

  /** A prefix without a hexadecimal digit after it is not one: only its zero is read. */
  lemma LonePrefix(base: nat, rest: string)
    requires (base == 0 || base == 16) && (rest != "" ==> DigitValue(rest[0]) >= 16)
    ensures Strtol("0x" + rest, base) == Scan(0, 1)
  {
    var n := Numeral("", "", "", "0");
    assert "0x" + rest == Text(n) + ("x" + rest);
    assert "0"[..0] == [];
    StrtolComplete(n, base, "x" + rest);
  }

  /** Digits alone never look like a prefixed numeral. */
  lemma DigitsAreNoPrefix(digits: string, base: nat, rest: string)
    requires AllDigits(digits, base) && base <= 16 && digits != []
    requires rest != [] ==> rest[0] != 'x' && rest[0] != 'X'
    ensures !HexPrefixAt(digits + rest, 0)
  {
    if |digits| >= 2 {
      assert (digits + rest)[1] == digits[1];
      assert DigitValue(digits[1]) < 16;
    } else if rest != [] {
      assert (digits + rest)[1] == rest[0];
    }
  }

  // ---------- printing ----------

  /** The bases of %o, %d and %x. */
  predicate Printable(base: nat) {
    base == 8 || base == 10 || base == 16
  }

  function High(n: nat, base: nat): nat
    requires Printable(base)
  {
    if base == 8 then n / 8 else if base == 10 then n / 10 else n / 16
  }

  function Low(n: nat, base: nat): nat
    requires Printable(base)
  {
    if base == 8 then n % 8 else if base == 10 then n % 10 else n % 16
  }

  function Render(n: nat, base: nat): (s: string)
    requires Printable(base)
    ensures s != []
    decreases n
  {
    if n < base then [DigitChar(n)] else Render(High(n, base), base) + [DigitChar(Low(n, base))]
  }

  lemma DigitCharCorrect(d: nat)
    requires d < 16
    ensures DigitValue(DigitChar(d)) == d && (DigitChar(d) == '0' <==> d == 0)
    ensures forall base :: Value([DigitChar(d)], base) == d
  {
    var c := DigitChar(d);
    forall base: nat ensures Value([c], base) == d {
      assert [c][..0] == [];
      assert Value([c][..0], base) == 0;
    }
  }

  lemma {:induction false} RenderDigits(n: nat, base: nat)
    requires Printable(base)
    ensures AllDigits(Render(n, base), base)
    ensures Render(n, base)[0] == '0' <==> n == 0
    decreases n
  {
    if n < base {
      DigitCharCorrect(n);
    } else {
      DigitCharCorrect(Low(n, base));
      RenderDigits(High(n, base), base);
    }
  }

  lemma ValueSnoc(s: string, c: char, base: nat)
    ensures Value(s + [c], base) == Value(s, base) * base + DigitValue(c)
  {
    assert (s + [c])[..|s|] == s;
  }

  lemma {:induction false} RenderValue(n: nat, base: nat)
    requires Printable(base)
    ensures Value(Render(n, base), base) == n
    decreases n
  {
    if n < base {
      DigitCharCorrect(n);
    } else {
      DigitCharCorrect(Low(n, base));
      RenderValue(High(n, base), base);
      ValueSnoc(Render(High(n, base), base), DigitChar(Low(n, base)), base);
      assert High(n, base) * base + Low(n, base) == n;
    }
  }

  /** What is printed are digits of the base, that stand for the number, with
      no leading zero. */
  lemma RenderCorrect(n: nat, base: nat)
    requires Printable(base)
    ensures AllDigits(Render(n, base), base)
    ensures Value(Render(n, base), base) == n
    ensures Render(n, base)[0] == '0' <==> n == 0
  {
    RenderDigits(n, base);
    RenderValue(n, base);
  }

  /** printf() of a signed number. */
  function RenderInt(v: int, base: nat): string
    requires Printable(base)
  {
    if v < 0 then "-" + Render(-v, base) else Render(v, base)
  }

  function RenderedNumeral(v: int, base: nat, prefix: string): Numeral
    requires Printable(base)
  {
    Numeral("", if v < 0 then "-" else "", prefix, Render(if v < 0 then -v else v, base))
  }

  /** A printed number is a numeral of the grammar, with or without a prefix. */
  lemma RenderedIsNumeral(v: int, radix: nat, prefix: string, base: nat)
    requires Printable(radix)
    requires prefix == "" || ((base == 0 || base == 16) && prefix == "0x" && radix == 16)
    requires NumeralRadix(RenderedNumeral(v, radix, prefix), base) == radix
    ensures WellFormed(RenderedNumeral(v, radix, prefix), base)
    ensures NumeralValue(RenderedNumeral(v, radix, prefix), base) == v
  {
    RenderCorrect(if v < 0 then -v else v, radix);
  }

  lemma RenderIntText(v: int, base: nat)
    requires Printable(base)
    ensures Text(RenderedNumeral(v, base, "")) == RenderInt(v, base)
  {
  }

  /** Printed numbers consist of digits and perhaps a minus sign. */
  lemma RenderedCharacters(v: int, base: nat, c: char)
    requires Printable(base) && c != '-' && DigitValue(c) >= base
    ensures c !in RenderInt(v, base)
  {
    var digits := Render(if v < 0 then -v else v, base);
    RenderCorrect(if v < 0 then -v else v, base);
    assert forall i :: 0 <= i < |digits| ==> digits[i] != c;
    if v < 0 {
      assert RenderInt(v, base) == "-" + digits;
    }
  }

  /** Reading a printed decimal gives the number back, whatever follows it
      that is not one more digit. */
  lemma AtoiRoundTrip(v: int, rest: string)
    requires rest != [] ==> DigitValue(rest[0]) >= 10
    ensures Atoi(RenderInt(v, 10) + rest) == v
  {
    RenderIntText(v, 10);
    RenderedIsNumeral(v, 10, "", 10);
    StrtolComplete(RenderedNumeral(v, 10, ""), 10, rest);
  }

  function Power(base: nat, n: nat): nat {
    if n == 0 then 1 else base * Power(base, n - 1)
  }

  lemma ShiftedSum(a: int, power: int, c: int, base: int, d: int)
    ensures (a * power + c) * base + d == a * (base * power) + (c * base + d)
  {
  }

  /** The digits of a number count by position. */
  lemma {:induction false} ValueConcatenate(a: string, b: string, base: nat)
    ensures Value(a + b, base) == Value(a, base) * Power(base, |b|) + Value(b, base)
    ensures |b| == 1 ==> Value(b, base) == DigitValue(b[0])
  {
    if b == [] {
      assert a + b == a;
    } else {
      var c := b[..|b| - 1];
      ValueConcatenate(a, c, base);
      assert (a + b)[..|a + b| - 1] == a + c;
      ShiftedSum(Value(a, base), Power(base, |c|), Value(c, base), base, DigitValue(b[|b| - 1]));
    }
  }

  /** A number below the n-th power of the base has at most n digits. */
  lemma {:induction false} RenderLength(v: nat, base: nat, n: nat)
    requires Printable(base) && 1 <= n && v < Power(base, n)
    ensures |Render(v, base)| <= n
    decreases n
  {
    assert Power(base, n) == base * Power(base, n - 1);
    if v >= base && n > 1 {
      RenderLength(High(v, base), base, n - 1);
    }
  }
}
