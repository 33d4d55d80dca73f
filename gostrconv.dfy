/**
 * strconv.Atoi for a 64-bit `int`, and the decimal rendering of fmt's `%d`,
 * which Atoi inverts.
 */
module GoStrconv {
  import opened Wrappers

  const MaxInt64: int := 0x7FFF_FFFF_FFFF_FFFF
  const MinInt64: int := -0x8000_0000_0000_0000
  const MaxUint64: int := 0xFFFF_FFFF_FFFF_FFFF

  /** strconv.ErrSyntax and strconv.ErrRange. */
  datatype NumErrorKind = InvalidSyntax | OutOfRange

  /** strconv.NumError: the failing function, the input and the reason. */
  datatype NumError = NumError(fn: string, num: string, err: NumErrorKind)

  predicate IsDigit(c: char)
  {
    '0' <= c <= '9'
  }

  predicate AllDigits(s: string)
  {
    forall i :: 0 <= i < |s| ==> IsDigit(s[i])
  }

  function DigitValue(c: char): (d: nat)
    requires IsDigit(c)
    ensures d < 10
  {
    c as int - '0' as int
  }

  /** The number a string of decimal digits denotes (0 for the empty string). */
  function DigitsValue(s: string): nat
    requires AllDigits(s)
  {
    if |s| == 0 then 0 else DigitsValue(s[..|s| - 1]) * 10 + DigitValue(s[|s| - 1])
  }

  /** s without one leading '+' or '-'. */
  function Unsigned(s: string): string
  {
    if |s| > 0 && (s[0] == '+' || s[0] == '-') then s[1..] else s
  }

  /** The syntax Atoi accepts: an optional sign, then one or more decimal digits. */
  predicate IsDecimal(s: string)
  {
    |Unsigned(s)| > 0 && AllDigits(Unsigned(s))
  }

  /** The integer a decimal string denotes. */
  function DecimalValue(s: string): int
    requires IsDecimal(s)
  {
    var v: int := DigitsValue(Unsigned(s));
    if s[0] == '-' then -v else v
  }

  /**
   * strconv.ParseUint's base-10 scan of s[i..], with acc the value of the
   * digits before i: a non-digit is a syntax error, and the first digit that
   * takes the value past 2^64 - 1 is a range error, whatever follows it.
   */
  function ScanUint(s: string, i: nat, acc: nat): Result<nat, NumErrorKind>
    requires i <= |s|
    decreases |s| - i
  {
    if i == |s| then Success(acc)
    else if !IsDigit(s[i]) then Failure(InvalidSyntax)
    else if acc * 10 + DigitValue(s[i]) > MaxUint64 then Failure(OutOfRange)
    else ScanUint(s, i + 1, acc * 10 + DigitValue(s[i]))
  }

  /** strconv.Atoi on a 64-bit platform. */
  function Atoi(s: string): (r: Result<int, NumError>)
    ensures r.Failure? ==> r.error.fn == "Atoi" && r.error.num == s
  {
    var digits := Unsigned(s);
    if |digits| == 0 then Failure(NumError("Atoi", s, InvalidSyntax))
    else
      match ScanUint(digits, 0, 0)
      case Failure(kind) => Failure(NumError("Atoi", s, kind))
      case Success(u) =>
        var neg := s[0] == '-';
        if !neg && u > MaxInt64 then Failure(NumError("Atoi", s, OutOfRange))
        else if neg && u > -MinInt64 then Failure(NumError("Atoi", s, OutOfRange))
        else
          var v: int := u;
          Success(if neg then -v else v)
  }

  /** A prefix of a digit string denotes no more than the whole string. */
  lemma {:induction false} DigitsValuePrefix(s: string, j: nat)
    requires AllDigits(s) && j <= |s|
    ensures AllDigits(s[..j]) && DigitsValue(s[..j]) <= DigitsValue(s)
  {
    if j < |s| {
      var t := s[..|s| - 1];
      assert t[..j] == s[..j];
      DigitsValuePrefix(t, j);
    } else {
      assert s[..j] == s;
    }
  }

  /** ScanUint succeeds exactly on digit strings that fit in 64 unsigned bits. */
  lemma {:induction false} ScanUintCorrect(s: string, i: nat, acc: nat)
    requires i <= |s| && AllDigits(s[..i]) && acc == DigitsValue(s[..i]) && acc <= MaxUint64
    ensures ScanUint(s, i, acc).Success? <==> AllDigits(s) && DigitsValue(s) <= MaxUint64
    ensures ScanUint(s, i, acc).Success? ==> ScanUint(s, i, acc).value == DigitsValue(s)
    ensures AllDigits(s) && DigitsValue(s) > MaxUint64 ==> ScanUint(s, i, acc) == Failure(OutOfRange)
    decreases |s| - i
  {
    if i == |s| {
      assert s[..i] == s;
    } else if !IsDigit(s[i]) {
    } else {
      var next := s[..i + 1];
      assert next[..i] == s[..i];
      assert AllDigits(next);
      assert DigitsValue(next) == acc * 10 + DigitValue(s[i]);
      if acc * 10 + DigitValue(s[i]) > MaxUint64 {
        if AllDigits(s) {
          DigitsValuePrefix(s, i + 1);
        }
      } else {
        ScanUintCorrect(s, i + 1, acc * 10 + DigitValue(s[i]));
      }
    }
  }

  /**
   * Atoi accepts exactly the decimal strings whose value is a 64-bit int,
   * returns that value, and reports a well-formed number outside the range
   * as a range error.
   */
  lemma AtoiCorrect(s: string)
    ensures Atoi(s).Success? <==> IsDecimal(s) && MinInt64 <= DecimalValue(s) <= MaxInt64
    ensures Atoi(s).Success? ==> Atoi(s).value == DecimalValue(s)
    ensures IsDecimal(s) && !(MinInt64 <= DecimalValue(s) <= MaxInt64) ==> Atoi(s).error.err == OutOfRange
  {
    var digits := Unsigned(s);
    if |digits| > 0 {
      assert digits[..0] == [];
      ScanUintCorrect(digits, 0, 0);
    }
  }

  /** The decimal digit for d. */
  function Digit(d: nat): (c: char)
    requires d < 10
    ensures IsDigit(c) && DigitValue(c) == d
  {
    ('0' as int + d) as char
  }

  /** fmt's %d for a natural number; FormatNatDigits says what it writes. */
  function FormatNat(n: nat): (r: string)
    ensures |r| > 0 && IsDigit(r[0])
  {
    if n < 10 then [Digit(n)] else FormatNat(n / 10) + [Digit(n % 10)]
  }

  /** %d of a natural number is a digit string denoting it, with no leading zero. */
  lemma {:induction false} FormatNatDigits(n: nat)
    ensures var r := FormatNat(n); AllDigits(r) && DigitsValue(r) == n && (r[0] == '0' ==> n == 0)
  {
    var r := FormatNat(n);
    if n < 10 {
      assert r[..0] == [];
    } else {
      var high := FormatNat(n / 10);
      FormatNatDigits(n / 10);
      assert r == high + [Digit(n % 10)];
      assert r[..|r| - 1] == high;
      assert r[0] == high[0];
    }
  }

  /** fmt's %d for an int: a '-' before the digits of a negative number. */
  function FormatInt(n: int): (r: string)
    ensures |r| > 0 && r[0] != '+'
  {
    if n < 0 then "-" + FormatNat(-n) else FormatNat(n)
  }

  /** %d of an int is a signed decimal denoting it. */
  lemma FormatIntDecimal(n: int)
    ensures IsDecimal(FormatInt(n)) && DecimalValue(FormatInt(n)) == n
  {
    if n < 0 {
      FormatNatDigits(-n);
      assert Unsigned(FormatInt(n)) == FormatNat(-n);
    } else {
      FormatNatDigits(n);
    }
  }

  /** Atoi reads back what %d writes, for every 64-bit int. */
  lemma AtoiFormatInt(n: int)
    requires MinInt64 <= n <= MaxInt64
    ensures Atoi(FormatInt(n)) == Success(n)
  {
    FormatIntDecimal(n);
    AtoiCorrect(FormatInt(n));
  }
}
