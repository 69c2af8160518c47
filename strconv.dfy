/**
  The parts of Go's `strconv` package the converter calls: `ParseInt(s, 10, 64)`,
  `ParseUint(s, 10, 64)` and `ParseBool`, with their syntax and range errors, and the
  decimal renderings they invert.
*/
module GoStrconv {
  import opened Options

  /** `strconv.ErrSyntax` and `strconv.ErrRange`. */
  datatype NumError = ErrSyntax | ErrRange

  const MaxUint64: nat := 0xFFFF_FFFF_FFFF_FFFF
  /** `1 << 63`: one past the largest int64, and minus the smallest. */
  const Int64Cutoff: int := 0x8000_0000_0000_0000
  /** The smallest value that overflows when multiplied by 10 in 64 bits. */
  const UintCutoff: nat := MaxUint64 / 10 + 1

  predicate IsDigit(c: char) {
    '0' <= c <= '9'
  }

  function Digit(c: char): (d: nat)
    requires IsDigit(c)
    ensures d < 10
  {
    c as int - '0' as int
  }

  predicate AllDigits(s: string) {
    forall i :: 0 <= i < |s| ==> IsDigit(s[i])
  }

  /** The number the decimal digits `s` denote. */
  function DecimalValue(s: string): nat
    requires AllDigits(s)
  {
    if s == [] then 0 else DecimalValue(s[..|s| - 1]) * 10 + Digit(s[|s| - 1])
  }

  /** The digits of `s` from `i` on, read onto `n` as `ParseUint`'s loop reads them (base 10, 64 bits). */
  function ScanDigits(s: string, i: nat, n: nat): Result<nat, NumError>
    requires i <= |s|
    decreases |s| - i
  {
    if i == |s| then Ok(n)
    else if !IsDigit(s[i]) then Err(ErrSyntax)
    else if n >= UintCutoff then Err(ErrRange)
    else if n * 10 + Digit(s[i]) > MaxUint64 then Err(ErrRange)
    else ScanDigits(s, i + 1, n * 10 + Digit(s[i]))
  }

  /** `strconv.ParseUint(s, 10, 64)`. */
  function ParseUint(s: string): Result<nat, NumError> {
    if s == [] then Err(ErrSyntax) else ScanDigits(s, 0, 0)
  }

  /** `strconv.ParseInt(s, 10, 64)`: an optional sign, then `ParseUint`, then the int64 range. */
  function ParseInt(s: string): Result<int, NumError> {
    if s == [] then Err(ErrSyntax)
    else
      var neg := s[0] == '-';
      var body := if s[0] == '+' || s[0] == '-' then s[1..] else s;
      match ParseUint(body)
      case Err(e) => Err(e)
      case Ok(un) =>
        if !neg && un >= Int64Cutoff then Err(ErrRange)
        else if neg && un > Int64Cutoff then Err(ErrRange)
        else Ok(if neg then -(un as int) else un)
  }

  /** `strconv.ParseBool`. */
  function ParseBool(s: string): Result<bool, NumError> {
    if s in {"1", "t", "T", "TRUE", "true", "True"} then Ok(true)
    else if s in {"0", "f", "F", "FALSE", "false", "False"} then Ok(false)
    else Err(ErrSyntax)
  }

  // ---------------------------------------------------------------------------
  // What the parsers accept
  // ---------------------------------------------------------------------------

  /** Decimal digits, at least one. */
  predicate IsDecimal(s: string) {
    s != [] && AllDigits(s)
  }

  /** The digits after an optional sign. */
  function Unsigned(s: string): string {
    if s != [] && (s[0] == '+' || s[0] == '-') then s[1..] else s
  }

  /** An optional sign and then decimal digits. */
  predicate IsSignedDecimal(s: string) {
    IsDecimal(Unsigned(s))
  }

  function SignedValue(s: string): int
    requires IsSignedDecimal(s)
  {
    if s[0] == '-' then -(DecimalValue(Unsigned(s)) as int) else DecimalValue(Unsigned(s))
  }

  predicate InInt64(x: int) {
    -Int64Cutoff <= x < Int64Cutoff
  }

  lemma DecimalValueGrows(s: string, i: nat)
    requires AllDigits(s) && i <= |s|
    ensures AllDigits(s[..i]) && DecimalValue(s[..i]) <= DecimalValue(s)
    decreases |s| - i
  {
    if i < |s| {
      DecimalValueGrows(s, i + 1);
      assert s[..i + 1][..i] == s[..i];
    } else {
      assert s[..i] == s;
    }
  }

  lemma {:induction false} ScanDigitsValue(s: string, i: nat)
    requires AllDigits(s) && i <= |s| && DecimalValue(s[..i]) <= MaxUint64
    ensures ScanDigits(s, i, DecimalValue(s[..i]))
      == if DecimalValue(s) <= MaxUint64 then Ok(DecimalValue(s)) else Err(ErrRange)
    decreases |s| - i
  {
    if i == |s| {
      assert s[..i] == s;
    } else {
      var n := DecimalValue(s[..i]);
      assert s[..i + 1][..i] == s[..i];
      assert DecimalValue(s[..i + 1]) == n * 10 + Digit(s[i]);
      DecimalValueGrows(s, i + 1);
      if n < UintCutoff && n * 10 + Digit(s[i]) <= MaxUint64 {
        ScanDigitsValue(s, i + 1);
      }
    }
  }

  lemma {:induction false} ScanDigitsOnlyDigits(s: string, i: nat, n: nat)
    requires i <= |s| && ScanDigits(s, i, n).Ok?
    ensures forall k :: i <= k < |s| ==> IsDigit(s[k])
    decreases |s| - i
  {
    if i < |s| {
      ScanDigitsOnlyDigits(s, i + 1, n * 10 + Digit(s[i]));
    }
  }

  /**
    `ParseUint` accepts exactly the decimal strings, with their value, up to 2^64 - 1;
    a longer decimal string is a range error, anything else an error.
  */
  lemma ParseUintSpec(s: string)
    ensures ParseUint(s).Ok? <==> IsDecimal(s) && DecimalValue(s) <= MaxUint64
    ensures ParseUint(s).Ok? ==> ParseUint(s).value == DecimalValue(s)
    ensures IsDecimal(s) && DecimalValue(s) > MaxUint64 ==> ParseUint(s) == Err(ErrRange)
  {
    if s != [] {
      if AllDigits(s) {
        assert s[..0] == [];
        ScanDigitsValue(s, 0);
      } else if ScanDigits(s, 0, 0).Ok? {
        ScanDigitsOnlyDigits(s, 0, 0);
      }
    }
  }

  /**
    `ParseInt` accepts exactly an optional sign followed by decimal digits whose value lies
    in the int64 range, and gives that value; a decimal outside the range is a range error.
  */
  lemma ParseIntSpec(s: string)
    ensures ParseInt(s).Ok? <==> IsSignedDecimal(s) && InInt64(SignedValue(s))
    ensures ParseInt(s).Ok? ==> ParseInt(s).value == SignedValue(s)
    ensures IsSignedDecimal(s) && !InInt64(SignedValue(s)) ==> ParseInt(s) == Err(ErrRange)
  {
    if s != [] {
      ParseUintSpec(Unsigned(s));
    }
  }

  /** `ParseBool` accepts exactly the six spellings of true and the six of false. */
  lemma ParseBoolSpec(s: string)
    ensures ParseBool(s) == Ok(true) <==> s in {"1", "t", "T", "TRUE", "true", "True"}
    ensures ParseBool(s) == Ok(false) <==> s in {"0", "f", "F", "FALSE", "false", "False"}
    ensures ParseBool(s).Err? ==> ParseBool(s).error == ErrSyntax
  {
  }

  // ---------------------------------------------------------------------------
  // Decimal renderings (`strconv.FormatUint`, `strconv.FormatInt`)
  // ---------------------------------------------------------------------------

  function DigitChar(d: nat): (c: char)
    requires d < 10
    ensures IsDigit(c) && Digit(c) == d
  {
    ('0' as int + d) as char
  }

  /** The decimal digits of `n`, without leading zeros. */
  function FormatNat(n: nat): (s: string)
    ensures IsDecimal(s) && DecimalValue(s) == n
    ensures |s| > 1 ==> s[0] != '0'
  {
    if n < 10 then [DigitChar(n)]
    else
      var s := FormatNat(n / 10) + [DigitChar(n % 10)];
      assert s[..|s| - 1] == FormatNat(n / 10);
      s
  }

  function FormatInt(x: int): string {
    if x < 0 then "-" + FormatNat(-x) else FormatNat(x)
  }

  /** Parsing the rendering of an unsigned 64-bit value gives it back. */
  lemma ParseUintFormat(n: nat)
    requires n <= MaxUint64
    ensures ParseUint(FormatNat(n)) == Ok(n)
  {
    ParseUintSpec(FormatNat(n));
  }

  /** Parsing the rendering of a signed 64-bit value gives it back. */
  lemma ParseIntFormat(x: int)
    requires InInt64(x)
    ensures ParseInt(FormatInt(x)) == Ok(x)
  {
    var s := FormatInt(x);
    if x < 0 {
      assert Unsigned(s) == FormatNat(-x);
    } else {
      assert Unsigned(s) == FormatNat(x);
    }
    ParseIntSpec(s);
  }
}
