/** Validated numeric arguments (lib/get_num.c, lib/get_num.h). */
module GetNum {
  import opened Integers
  import opened Numerals
  import opened Wrappers

  const GN_NONNEG: bv16 := 1       // 01: value must be >= 0
  const GN_GT_0: bv16 := 2         // 02: value must be > 0
  const GN_ANY_BASE: bv16 := 64    // 0100: any base, as strtol() detects it
  const GN_BASE_8: bv16 := 128     // 0200
  const GN_BASE_16: bv16 := 256    // 0400

  const LONG_MAX := 0x7fff_ffff_ffff_ffff
  const LONG_MIN := -0x8000_0000_0000_0000

  /** Why the program exits instead of returning a number. */
  datatype Complaint = NullOrEmpty | StrtolFailed | Nonnumeric | NegativeNotAllowed | MustBePositive | OutOfRange

  function BaseOf(flags: bv16): nat {
    if flags & GN_ANY_BASE != 0 then 0
    else if flags & GN_BASE_8 != 0 then 8
    else if flags & GN_BASE_16 != 0 then 16
    else 10
  }

  /** strtol() reports ERANGE for a number outside the range of long. */
  predicate FitsLong(v: int) {
    LONG_MIN <= v <= LONG_MAX
  }

  /** The argument may be missing altogether. */
  function GetLong(arg: Option<string>, flags: bv16): Result<int, Complaint> {
    if arg.None? || arg.value == "" then Failure(NullOrEmpty)
    else
      var r := Strtol(arg.value, BaseOf(flags));
      if !FitsLong(r.value) then Failure(StrtolFailed)
      else if r.consumed != |arg.value| then Failure(Nonnumeric)
      else if flags & GN_NONNEG != 0 && r.value < 0 then Failure(NegativeNotAllowed)
      else if flags & GN_GT_0 != 0 && r.value <= 0 then Failure(MustBePositive)
      else Success(r.value)
  }

  function GetInt(arg: Option<string>, flags: bv16): Result<int, Complaint> {
    match GetLong(arg, flags)
    case Failure(e) => Failure(e)
    case Success(res) => if res > INT_MAX || res < INT_MIN then Failure(OutOfRange) else Success(res)
  }

  // ---------- exactly which arguments are accepted ----------

  /** The base asked for by the bits of lib/get_num.h: 0100 comes before 0200,
      that before 0400, and without any of them numbers are decimal. */
  predicate Chooses(flags: bv16, base: nat) {
    || (flags & 64 != 0 && base == 0)
    || (flags & 64 == 0 && flags & 128 != 0 && base == 8)
    || (flags & 64 == 0 && flags & 128 == 0 && flags & 256 != 0 && base == 16)
    || (flags & 64 == 0 && flags & 128 == 0 && flags & 256 == 0 && base == 10)
  }

  /** The bits 01 and 02 allow only some signs. */
  predicate SignAllowed(flags: bv16, v: int) {
    (flags & 1 != 0 ==> v >= 0) && (flags & 2 != 0 ==> v > 0)
  }

  predicate IsInt(v: int) {
    -2147483648 <= v <= 2147483647
  }

  predicate IsLong(v: int) {
    -9223372036854775808 <= v <= 9223372036854775807
  }

  /** The whole argument is a numeral of this value in this base. */
  ghost predicate Denotes(arg: string, base: nat, v: int) {
    exists n: Numeral :: WellFormed(n, base) && Text(n) == arg && NumeralValue(n, base) == v
  }

  /** A text denotes at most one number, the one strtol() finds. */
  lemma DenotesScanned(arg: string, base: nat, v: int)
    requires Base(base)
    ensures Denotes(arg, base, v) <==>
              arg != "" && Strtol(arg, base).consumed == |arg| && Strtol(arg, base).value == v
  {
    if Denotes(arg, base, v) {
      var n: Numeral :| WellFormed(n, base) && Text(n) == arg && NumeralValue(n, base) == v;
      if n.prefix == "" && (base == 0 || base == 16) {
        DigitsAreNoPrefix(n.digits, NumeralRadix(n, base), "");
      }
      StrtolComplete(n, base, "");
      assert Text(n) + "" == arg;
    }
    if arg != "" && Strtol(arg, base).consumed == |arg| && Strtol(arg, base).value == v {
      var n := StrtolSound(arg, base);
      assert arg[..|arg|] == arg;
    }
  }

  lemma GetLongExactly(arg: string, flags: bv16, base: nat, v: int)
    requires Chooses(flags, base)
    ensures GetLong(Some(arg), flags) == Success(v) <==> Denotes(arg, base, v) && IsLong(v) && SignAllowed(flags, v)
  {
    DenotesScanned(arg, base, v);
  }

  /** getInt() returns v exactly for the arguments that are, from end to end, a
      numeral of value v in the base asked for, with v an int of an allowed sign. */
  lemma GetIntExactly(arg: string, flags: bv16, base: nat, v: int)
    requires Chooses(flags, base)
    ensures GetInt(Some(arg), flags) == Success(v) <==> Denotes(arg, base, v) && IsInt(v) && SignAllowed(flags, v)
  {
    GetLongExactly(arg, flags, base, v);
  }

  /** What is said of a numeral that is not accepted: the size of a long comes
      before the sign, and that before the size of an int. */
  lemma Rejections(arg: string, flags: bv16, base: nat, v: int)
    requires Chooses(flags, base) && Denotes(arg, base, v)
    ensures GetInt(Some(arg), flags) ==
            if !IsLong(v) then Failure(StrtolFailed)
            else if flags & 1 != 0 && v < 0 then Failure(NegativeNotAllowed)
            else if flags & 2 != 0 && v <= 0 then Failure(MustBePositive)
            else if !IsInt(v) then Failure(OutOfRange)
            else Success(v)
  {
    DenotesScanned(arg, base, v);
  }

  /** And of an argument that is no numeral: an overflow before the characters
      that do not belong to a number is what is reported, if there is one. */
  lemma NoNumeral(arg: string, flags: bv16, base: nat)
    requires Chooses(flags, base) && forall v :: !Denotes(arg, base, v)
    ensures GetInt(Some(arg), flags) ==
            if arg == "" then Failure(NullOrEmpty)
            else if !IsLong(Strtol(arg, base).value) then Failure(StrtolFailed)
            else Failure(Nonnumeric)
    ensures GetInt(None, flags) == Failure(NullOrEmpty)
  {
    DenotesScanned(arg, base, Strtol(arg, base).value);
  }

  // ---------- round trips ----------

  /** A number printed with the given prefix is read back in the radix that
      prefix and base determine. */
  lemma RenderedAccepted(v: int, radix: nat, prefix: string, flags: bv16, base: nat)
    requires IsInt(v) && SignAllowed(flags, v) && Printable(radix) && Chooses(flags, base)
    requires prefix == "" || ((base == 0 || base == 16) && prefix == "0x" && radix == 16)
    requires NumeralRadix(RenderedNumeral(v, radix, prefix), base) == radix
    ensures GetInt(Some(Text(RenderedNumeral(v, radix, prefix))), flags) == Success(v)
  {
    RenderedIsNumeral(v, radix, prefix, base);
    GetIntExactly(Text(RenderedNumeral(v, radix, prefix)), flags, base, v);
  }

  /** Printing an int in decimal, octal or hexadecimal and reading it back with
      no flag for the base, with 0200, or with 0400. */
  lemma RoundTripFixedBase(v: int, flags: bv16)
    requires IsInt(v) && SignAllowed(flags, v) && flags & 64 == 0
    ensures flags & 128 == 0 && flags & 256 == 0 ==> GetInt(Some(RenderInt(v, 10)), flags) == Success(v)
    ensures flags & 128 != 0 ==> GetInt(Some(RenderInt(v, 8)), flags) == Success(v)
    ensures flags & 128 == 0 && flags & 256 != 0 ==> GetInt(Some(RenderInt(v, 16)), flags) == Success(v)
  {
    var base := if flags & 128 != 0 then 8 else if flags & 256 != 0 then 16 else 10;
    RenderedAccepted(v, base, "", flags, base);
    RenderIntText(v, base);
  }

  /** Hexadecimal may also carry its prefix. */
  lemma RoundTripHexPrefix(v: int, flags: bv16)
    requires IsInt(v) && SignAllowed(flags, v)
    requires flags & 64 != 0 || (flags & 128 == 0 && flags & 256 != 0)
    ensures GetInt(Some(Text(RenderedNumeral(v, 16, "0x"))), flags) == Success(v)
  {
    RenderedAccepted(v, 16, "0x", flags, if flags & 64 != 0 then 0 else 16);
  }

  lemma ZeroIsNumeral(n: Numeral)
    requires n == Numeral("", "", "", "0")
    ensures WellFormed(n, 0) && NumeralValue(n, 0) == 0
  {
    assert "0"[..0] == [];
  }

  /** A lone zero is octal to strtol(), with the same value. */
  lemma ZeroIsOctal(flags: bv16)
    requires SignAllowed(flags, 0) && flags & 64 != 0
    ensures GetInt(Some(RenderInt(0, 10)), flags) == Success(0)
  {
    var n := Numeral("", "", "", "0");
    assert Text(n) == "0" == RenderInt(0, 10);
    ZeroIsNumeral(n);
    GetIntExactly("0", flags, 0, 0);
  }

  /** Under GN_ANY_BASE digits without a leading zero are decimal. */
  lemma RoundTripDetectsDecimal(v: int, flags: bv16)
    requires IsInt(v) && SignAllowed(flags, v) && flags & 64 != 0
    ensures GetInt(Some(RenderInt(v, 10)), flags) == Success(v)
  {
    if v == 0 {
      ZeroIsOctal(flags);
    } else {
      RenderCorrect(if v < 0 then -v else v, 10);
      RenderedAccepted(v, 10, "", flags, 0);
      RenderIntText(v, 10);
    }
  }

  function OctalNumeral(v: int): Numeral {
    var plain := RenderedNumeral(v, 8, "");
    plain.(digits := "0" + plain.digits)
  }

  lemma {:induction false} LeadingZero(digits: string, base: nat)
    requires digits != []
    ensures Value("0" + digits, base) == Value(digits, base)
    decreases |digits|
  {
    var s := "0" + digits;
    assert s[|s| - 1] == digits[|digits| - 1];
    assert s[..|s| - 1] == "0" + digits[..|digits| - 1];
    if |digits| > 1 {
      LeadingZero(digits[..|digits| - 1], base);
    } else {
      assert digits[..0] == [];
      assert "0"[..0] == [];
      assert Value("0", base) == 0;
    }
  }

  /** And a leading zero makes them octal. */
  lemma RoundTripDetectsOctal(v: int, flags: bv16)
    requires IsInt(v) && SignAllowed(flags, v) && flags & 64 != 0
    ensures GetInt(Some(Text(OctalNumeral(v))), flags) == Success(v)
  {
    var n := OctalNumeral(v);
    var plain := Render(if v < 0 then -v else v, 8);
    RenderCorrect(if v < 0 then -v else v, 8);
    LeadingZero(plain, 8);
    assert AllDigits(n.digits, 8) by {
      forall i | 0 <= i < |n.digits| ensures DigitValue(n.digits[i]) < 8 {
        assert i > 0 ==> n.digits[i] == plain[i - 1];
      }
    }
    assert WellFormed(n, 0) && NumeralValue(n, 0) == v;
    GetIntExactly(Text(n), flags, 0, v);
  }
}
