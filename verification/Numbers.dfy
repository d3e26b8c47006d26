/** Printing and parsing integers, in base ten (efilib.cpp).  Characters are given by their codes. */
module Numbers {

  const ERROR_CODE: int := 311223344
  const MINUS: nat := 45

  /** The digits of n. */
  function Digits(n: nat): (s: seq<nat>)
    ensures 0 < |s|
  {
    (if n < 10 then [] else Digits(n / 10)) + [48 + n % 10]
  }

  predicate Decimal(s: seq<nat>) {
    forall i | 0 <= i < |s| :: 48 <= s[i] <= 57
  }

  /** The number a row of decimal digits stands for. */
  function Value(s: seq<nat>): nat
    requires Decimal(s)
  {
    if s == [] then 0 else 10 * Value(s[..|s| - 1]) + (s[|s| - 1] - 48)
  }

  /** What atoi() makes of a text. */
  function Parsed(s: seq<nat>): int {
    if s == [] then -ERROR_CODE
    else if s[0] == MINUS then -Parsed(s[1..])
    else if Decimal(s) then Value(s)
    else ERROR_CODE
  }

  /** What itoa10() makes of a number. */
  function Printed(n: int): seq<nat> {
    if n < 0 then [MINUS] + Digits(-n) else Digits(n)
  }

  lemma ValueMore(s: seq<nat>, d: nat)
    requires Decimal(s) && 48 <= d <= 57
    ensures Decimal(s + [d]) && Value(s + [d]) == 10 * Value(s) + (d - 48)
  {
    assert (s + [d])[..|s|] == s;
  }

  lemma {:induction false} DigitsValue(n: nat)
    ensures Decimal(Digits(n)) && Value(Digits(n)) == n
  {
    hide Decimal, Value;
    if n >= 10 {
      DigitsValue(n / 10);
      ValueMore(Digits(n / 10), 48 + n % 10);
    } else {
      NoDigits();
      ValueMore([], 48 + n);
      assert [] + [48 + n] == Digits(n);
    }
  }

  lemma NoDigits()
    ensures Decimal([]) && Value([]) == 0
  {
  }

  lemma NoMinus(s: seq<nat>)
    requires Decimal(s) && s != []
    ensures s[0] != MINUS
  {
  }

  /** Parsing what was printed gives the number back. */
  lemma RoundTrip(n: int)
    ensures Parsed(Printed(n)) == n
  {
    hide Decimal, Value, Digits;
    var m := if n < 0 then -n else n;
    DigitsValue(m);
    NoMinus(Digits(m));
    assert n < 0 ==> Printed(n)[1..] == Digits(m);
  }

  function Power10(k: nat): nat {
    if k == 0 then 1 else 10 * Power10(k - 1)
  }

  lemma {:induction false} FewDigits(n: nat, k: nat)
    requires 1 <= k && n < Power10(k)
    ensures |Digits(n)| <= k
  {
    if n >= 10 {
      FewDigits(n / 10, k - 1);
    }
  }

  /** ltoa_internal(): the digits from position p of the buffer on; e is the position behind them. */
  method Ltoa(out: array<nat>, p: nat, num: nat) returns (e: nat)
    requires num < 0x1_0000_0000 && p + 10 <= out.Length
    modifies out
    ensures p < e <= p + 10 && out[p..e] == Digits(num)
    ensures forall i | 0 <= i < out.Length && !(p <= i < e) :: out[i] == old(out[i])
  {
    assert Power10(10) == 10_000_000_000;
    FewDigits(num, 10);
    ghost var all := Digits(num);
    var buffer, idx := Backwards(num);
    e := p;
    while idx < 10
      invariant |all| <= 10 && buffer.Length == 10 && buffer[10 - |all|..] == all
      invariant 0 <= idx <= 10 && idx - (e - p) == 10 - |all| && p <= e
      invariant out[p..e] == all[..e - p]
      invariant forall i | 0 <= i < out.Length && !(p <= i < e) :: out[i] == old(out[i])
    {
      assert all[e - p] == buffer[10 - |all|..][e - p] == buffer[idx];
      out[e] := buffer[idx];
      e, idx := e + 1, idx + 1;
    }
  }

  lemma Peel(n: nat, rest: seq<nat>)
    ensures n < 10 ==> |Digits(n)| == 1 && Digits(n) + rest == [48 + n % 10] + rest
    ensures n >= 10 ==>
              |Digits(n)| == |Digits(n / 10)| + 1 && Digits(n) + rest == Digits(n / 10) + ([48 + n % 10] + rest)
  {
  }

  /** The digits from right to left. */
  method Backwards(num: nat) returns (buffer: array<nat>, idx: nat)
    requires |Digits(num)| <= 10
    ensures fresh(buffer) && buffer.Length == 10 && idx == 10 - |Digits(num)| && buffer[idx..] == Digits(num)
  {
    hide Digits;
    buffer := new nat[10];
    var i: int, n: nat := 9, num;
    ghost var all := Digits(num);
    while true
      invariant -1 <= i <= 9 && |all| == |Digits(n)| + (9 - i) && Digits(n) + buffer[i + 1..] == all
      decreases i
    {
      ghost var rest := buffer[i + 1..];
      Peel(n, rest);
      buffer[i] := 48 + n % 10;
      assert buffer[i..] == [48 + n % 10] + rest;
      i := i - 1;
      if n / 10 == 0 {
        break;
      }
      n := n / 10;
    }
    idx := i + 1;
  }

  /** itoa10(): the text of the number, then a zero character at position e. */
  method Itoa10(out: array<nat>, num: int) returns (e: nat)
    requires -0x8000_0000 < num < 0x8000_0000 && out.Length >= 12
    modifies out
    ensures e < out.Length && out[..e] == Printed(num) && out[e] == 0
  {
    var p, n := 0, num;
    if num < 0 {
      out[0] := MINUS;
      p, n := 1, -num;
    }
    e := Ltoa(out, p, n);
    assert out[..e] == out[..p] + out[p..e];
    out[e] := 0;
  }

  lemma DecimalPrefix(s: seq<nat>, i: nat)
    requires i < |s| && Decimal(s[..i + 1])
    ensures Decimal(s[..i]) && Value(s[..i + 1]) == 10 * Value(s[..i]) + (s[i] - 48)
  {
    assert s[..i + 1][..i] == s[..i];
  }

  /** atoi() */
  method Atoi(s: seq<nat>) returns (r: int)
    ensures r == Parsed(s)
    decreases |s|
  {
    if |s| == 0 {
      return -ERROR_CODE;
    }
    if s[0] == MINUS {
      r := Atoi(s[1..]);
      return -r;
    }
    r := 0;
    for i := 0 to |s|
      invariant Decimal(s[..i]) && r == Value(s[..i])
    {
      if s[i] < 48 || s[i] > 57 {
        return ERROR_CODE;
      }
      DecimalPrefix(s, i);
      r := r * 10 + (s[i] - 48);
    }
    assert s[..|s|] == s;
  }
}
