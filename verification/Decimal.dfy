/** Decimal numbers as the standard library prints and reads them. */
module Decimal {
  import opened Bytes

  const ZERO: byte := 48
  const MINUS: byte := 45

  predicate IsDigit(b: byte) {
    48 <= b <= 57
  }

  predicate AllDigits(ds: seq<byte>) {
    forall i :: 0 <= i < |ds| ==> IsDigit(ds[i])
  }

  /** A digit string that is a number. */
  predicate Numeral(ds: seq<byte>) {
    ds != [] && AllDigits(ds)
  }

  function DigitValue(b: byte): nat
    requires IsDigit(b)
  {
    var n: int := b;
    n - 48
  }

  function Value(ds: seq<byte>): nat
    requires AllDigits(ds)
  {
    if ds == [] then 0 else Value(ds[..|ds| - 1]) * 10 + DigitValue(ds[|ds| - 1])
  }

  function Print(n: nat): seq<byte> {
    if n < 10 then [48 + n] else Print(n / 10) + [48 + n % 10]
  }

  function ToString(n: int): seq<byte> {
    if n < 0 then [MINUS] + Print(-n) else Print(n)
  }

  /** No leading zero, except in zero itself. */
  predicate Minimal(ds: seq<byte>)
    requires ds != []
  {
    |ds| == 1 || ds[0] != ZERO
  }

  lemma {:induction false} PrintIsMinimal(n: nat)
    ensures Numeral(Print(n)) && Minimal(Print(n)) && Value(Print(n)) == n
    ensures 0 < n ==> Print(n)[0] != ZERO
  {
    if n >= 10 {
      PrintIsMinimal(n / 10);
      var front := Print(n / 10);
      assert Print(n)[..|front|] == front;
    }
  }

  lemma {:induction false} MinimalIsPositive(ds: seq<byte>)
    requires Numeral(ds) && ds[0] != ZERO
    ensures 0 < Value(ds)
  {
    if |ds| > 1 {
      MinimalIsPositive(ds[..|ds| - 1]);
    }
  }

  /** A numeral is what its value prints as exactly when it has no leading zero. */
  lemma {:induction false} PrintValue(ds: seq<byte>)
    requires Numeral(ds)
    ensures Print(Value(ds)) == ds <==> Minimal(ds)
  {
    PrintIsMinimal(Value(ds));
    if Minimal(ds) && |ds| > 1 {
      var front, last := ds[..|ds| - 1], ds[|ds| - 1];
      MinimalIsPositive(front);
      PrintValue(front);
      PrintAppends(Value(front), last);
      assert ds == front + [last];
    }
  }

  lemma PrintAppends(n: nat, b: byte)
    requires 0 < n && IsDigit(b)
    ensures Print(n * 10 + DigitValue(b)) == Print(n) + [b]
  {
  }

  // ---------- from_chars ----------

  datatype Chars = Number(value: int, used: nat) | NoNumber | OutOfRange

  function DigitRun(s: seq<byte>): (n: nat)
    ensures n <= |s| && AllDigits(s[..n]) && (n < |s| ==> !IsDigit(s[n]))
  {
    if s == [] || !IsDigit(s[0]) then 0
    else
      var n := 1 + DigitRun(s[1..]);
      assert s[..n] == [s[0]] + s[1..][..n - 1];
      n
  }

  /** The longest numeral at the front, after a minus sign if the target type has one. */
  function FromChars(s: seq<byte>, signed: bool, low: int, high: int): Chars {
    var sign := if signed && s != [] && s[0] == MINUS then 1 else 0;
    var run := DigitRun(s[sign..]);
    if run == 0 then NoNumber
    else
      var v: int := Value(s[sign..][..run]);
      var n := if sign == 1 then -v else v;
      if low <= n <= high then Number(n, sign + run) else OutOfRange
  }

  lemma {:induction false} RunOfDigits(s: seq<byte>)
    requires AllDigits(s)
    ensures DigitRun(s) == |s|
  {
    if s != [] {
      RunOfDigits(s[1..]);
    }
  }

  /** A string is read whole exactly when it is one numeral, with at most a sign, in range. */
  lemma ReadsWhole(s: seq<byte>, signed: bool, low: int, high: int, n: int)
    ensures FromChars(s, signed, low, high) == Number(n, |s|) <==>
      var sign := if signed && s != [] && s[0] == MINUS then 1 else 0;
      && Numeral(s[sign..]) && low <= n <= high
      && n == (if sign == 1 then -1 else 1) * Value(s[sign..])
  {
    var sign := if signed && s != [] && s[0] == MINUS then 1 else 0;
    var ds := s[sign..];
    if AllDigits(ds) {
      RunOfDigits(ds);
      assert ds[..|ds|] == ds;
    }
    if DigitRun(ds) == |ds| {
      assert ds[..|ds|] == ds;
    }
  }
}
