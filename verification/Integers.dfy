/** Integers as texts: what is used of Go's strconv package. */
module Integers {
  import opened Bytes
  import opened Wrappers

  /** The value of a digit of either case; 16 for any other character. */
  function DigitValue(c: char): nat {
    if '0' <= c <= '9' then (c - '0') as nat
    else if 'a' <= c <= 'f' then 10 + (c - 'a') as nat
    else if 'A' <= c <= 'F' then 10 + (c - 'A') as nat
    else 16
  }

  function Value(s: string, base: nat): Option<nat>
    requires 1 < base <= 16
  {
    if s == "" then Some(0)
    else
      var n := |s| - 1;
      var v :- Value(s[..n], base);
      if DigitValue(s[n]) < base then Some(v * base + DigitValue(s[n])) else None
  }

  /** strconv.ParseInt for 64 bits: None is an error. */
  function ParseInt(s: string, base: nat): Option<int64>
    requires 1 < base <= 16
  {
    var digits := if s != "" && s[0] in {'+', '-'} then s[1..] else s;
    if digits == "" then None
    else
      var v :- Value(digits, base);
      if s[0] == '-' then (if v <= -MIN_INT64 then Some(0 - v as int) else None)
      else if v <= MAX_INT64 then Some(v) else None
  }

  lemma ValueAppend(s: string, c: char, base: nat)
    requires 1 < base <= 16
    ensures Value(s + [c], base)
         == if Value(s, base).None? || DigitValue(c) >= base then None
            else Some(Value(s, base).value * base + DigitValue(c))
    ensures Value("", base) == Some(0)
  {
    assert (s + [c])[..|s|] == s;
  }

  lemma ZeroDigit()
    ensures DigitValue('0') == 0
  {
  }

  // ---------- decimal texts ----------

  /** The digits of a number, the most significant one first. */
  function Decimal(n: nat): string {
    if n < 10 then [DecimalDigit(n)] else Decimal(n / 10) + [DecimalDigit(n % 10)]
  }

  function DecimalDigit(d: nat): char
    requires d < 10
  {
    "0123456789"[d]
  }

  lemma DecimalDigitIs(d: nat)
    requires d < 10
    ensures DigitValue(DecimalDigit(d)) == d && '0' <= DecimalDigit(d) <= '9'
  {
  }

  lemma {:induction false} DecimalIs(n: nat)
    ensures Value(Decimal(n), 10) == Some(n)
    ensures Decimal(n) != "" && forall c :: c in Decimal(n) ==> '0' <= c <= '9'
  {
    hide DigitValue, DecimalDigit, Value;
    DecimalDigitIs(n % 10);
    if n >= 10 {
      DecimalIs(n / 10);
      ValueAppend(Decimal(n / 10), DecimalDigit(n % 10), 10);
    } else {
      ValueAppend("", DecimalDigit(n), 10);
      assert "" + [DecimalDigit(n)] == Decimal(n);
    }
  }

  /** A number is read from its digits, also behind a sign, exactly when it fits. */
  lemma DecimalIsRead(n: nat)
    ensures ParseInt(Decimal(n), 10) == if n <= MAX_INT64 then Some(n) else None
    ensures ParseInt("+" + Decimal(n), 10) == if n <= MAX_INT64 then Some(n) else None
    ensures ParseInt("-" + Decimal(n), 10) == if n <= -MIN_INT64 then Some(0 - n as int) else None
  {
    hide Value, Decimal;
    DecimalIs(n);
    assert Decimal(n)[0] in Decimal(n);
    assert ("+" + Decimal(n))[1..] == Decimal(n) && ("-" + Decimal(n))[1..] == Decimal(n);
  }

  /** The sixteen digits, of either case. */
  lemma DigitsAre(d: nat)
    requires d < 16
    ensures DigitValue("0123456789abcdef"[d]) == DigitValue("0123456789ABCDEF"[d]) == d
  {
  }
}
