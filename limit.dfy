/**
 * The `limit` query parameter of `GET /leaderboard` (main.go:179-185):
 * an empty or unparsable value leaves the default of 10, anything that
 * Go's `strconv.Atoi` accepts replaces it.
 */
module Limit {
  import opened Wrappers
  import opened GoInt

  /** The `limit` constant of main.go: the default page size and the size of curTop/newTop. */
  const DefaultLimit: int := 10

  predicate IsDigit(c: char) { '0' <= c <= '9' }

  predicate AllDigits(s: string) { forall i :: 0 <= i < |s| ==> IsDigit(s[i]) }

  /** The value of a string of decimal digits, read left to right as `n = n*10 + d`. */
  function DecimalValue(s: string): (n: nat)
    requires AllDigits(s)
  {
    if s == [] then 0
    else DecimalValue(s[..|s| - 1]) * 10 + (s[|s| - 1] - '0') as int
  }

  /**
   * `strconv.Atoi` on a 64-bit platform: an optional sign, then one or more
   * ASCII digits (leading zeros allowed, no underscores, no spaces), whose
   * value must fit an int64; anything else is an error.
   */
  function Atoi(s: string): (r: Option<int64>)
  {
    if s == [] then None
    else
      var digits := if s[0] == '-' || s[0] == '+' then s[1..] else s;
      if digits == [] || !AllDigits(digits) then None
      else
        var v: int := if s[0] == '-' then -(DecimalValue(digits) as int) else DecimalValue(digits);
        if Min <= v <= Max then Some(v) else None
  }

  /** The limit `getLdr` passes to `getTop`. */
  function ParseLimit(param: string): (lmt: int64)
    ensures param == "" ==> lmt == DefaultLimit
    ensures Atoi(param).None? ==> lmt == DefaultLimit
    ensures Atoi(param).Some? ==> lmt == Atoi(param).value
  {
    if param == "" then DefaultLimit
    else match Atoi(param)
      case Some(v) => v
      case None => DefaultLimit
  }

  /** Decimal digits of a natural number, most significant first, no leading zeros. */
  function Digits(n: nat): (s: string)
    decreases n
  {
    if n < 10 then [('0' as int + n) as char]
    else Digits(n / 10) + [('0' as int + n % 10) as char]
  }

  /** How Go's `strconv.Itoa` prints an integer. */
  function Decimal(n: int): (s: string)
  {
    if n < 0 then "-" + Digits(-n) else Digits(n)
  }

  lemma {:induction false} DigitsValue(n: nat)
    ensures |Digits(n)| > 0 && AllDigits(Digits(n))
    ensures DecimalValue(Digits(n)) == n
    decreases n
  {
    if n >= 10 {
      DigitsValue(n / 10);
      var s := Digits(n);
      assert s[..|s| - 1] == Digits(n / 10);
    }
  }

  /** Every int64 printed in decimal parses back to itself. */
  lemma AtoiDecimal(n: int64)
    ensures Atoi(Decimal(n)) == Some(n)
  {
    var s := Decimal(n);
    if n < 0 {
      var m: int := -(n as int);
      DigitsValue(m);
      assert s[0] == '-' && s[1..] == Digits(m);
      assert Atoi(s) == Some(0 - DecimalValue(Digits(m)));
    } else {
      DigitsValue(n);
      assert s == Digits(n) && IsDigit(s[0]);
      assert Atoi(s) == Some(DecimalValue(Digits(n)));
    }
  }

  /** `?limit=N` for any int64 N written in decimal selects exactly N (negative N included). */
  lemma ParseLimitDecimal(n: int64)
    ensures ParseLimit(Decimal(n)) == n
  {
    AtoiDecimal(n);
  }

  /**
   * A parameter holding a character that is neither a digit nor a leading
   * sign is not numeric, so the limit stays at its default.
   */
  lemma ParseLimitNonNumeric(param: string, i: nat)
    requires i < |param| && !IsDigit(param[i])
    requires i > 0 || (param[0] != '-' && param[0] != '+')
    ensures ParseLimit(param) == DefaultLimit
  {
    var digits := if param[0] == '-' || param[0] == '+' then param[1..] else param;
    var j := if param[0] == '-' || param[0] == '+' then i - 1 else i;
    assert digits[j] == param[i];
  }
}
