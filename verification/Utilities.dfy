/** Numbers in hexadecimal and decimal. */
module Utilities {

  const DIGITS: string := "0123456789abcdef"

  function Quotient(n: nat, base: nat): (q: nat)
    requires 2 <= base
    ensures q * base <= n < q * base + base
    ensures n < base <==> q == 0
    ensures n > 0 ==> q < n
  {
    n / base
  }

  function Remainder(n: nat, base: nat): (r: nat)
    requires 2 <= base
    ensures r < base && Quotient(n, base) * base + r == n
  {
    n % base
  }

  /** The digits of a number, the most significant first; zero has one digit. */
  function Digits(n: nat, base: nat): (s: string)
    requires 2 <= base <= 16
    ensures s != ""
    decreases n
  {
    hide Quotient, Remainder;
    if n < base then [DIGITS[n]] else Digits(Quotient(n, base), base) + [DIGITS[Remainder(n, base)]]
  }

  /** The value of a digit, in either case, or 16. */
  function DigitValue(c: char): (v: nat)
    ensures v <= 16
  {
    if '0' <= c <= '9' then (c - '0') as nat
    else if 'a' <= c <= 'f' then (c - 'a') as nat + 10
    else if 'A' <= c <= 'F' then (c - 'A') as nat + 10
    else 16
  }

  /** The value of a row of digits. */
  function Parse(s: string, base: nat): (n: nat) {
    if s == "" then 0 else Parse(s[..|s| - 1], base) * base + DigitValue(s[|s| - 1])
  }

  predicate AllDigits(s: string, base: nat) {
    forall i :: 0 <= i < |s| ==> DigitValue(s[i]) < base
  }

  lemma DigitHasValue(d: nat)
    requires d < 16
    ensures DigitValue(DIGITS[d]) == d
  {
  }

  /** Parsing undoes printing. */
  lemma {:induction false} ParseDigits(n: nat, base: nat)
    requires 2 <= base <= 16
    ensures AllDigits(Digits(n, base), base) && Parse(Digits(n, base), base) == n
  {
    hide DigitValue, Quotient, Remainder;
    if n < base {
      DigitHasValue(n);
      assert [DIGITS[n]][..0] == "";
    } else {
      var front, d := Digits(Quotient(n, base), base), Remainder(n, base);
      ParseDigits(Quotient(n, base), base);
      DigitHasValue(d);
      assert (front + [DIGITS[d]])[..|front|] == front;
    }
  }

  function Power(base: nat, k: nat): (r: nat) {
    if k == 0 then 1 else base * Power(base, k - 1)
  }

  function Reversed(s: string): (r: string)
    ensures |r| == |s|
  {
    if s == "" then "" else Reversed(s[1..]) + [s[0]]
  }

  lemma {:induction false} ReversedSnoc(s: string, c: char)
    ensures Reversed(s + [c]) == [c] + Reversed(s)
  {
    if s == "" {
      assert "" + [c] == [c] && [c][1..] == "";
    } else {
      assert (s + [c])[1..] == s[1..] + [c];
      ReversedSnoc(s[1..], c);
    }
  }

  lemma {:induction false} ReversedAt(s: string, k: nat)
    requires k < |s|
    ensures Reversed(s)[k] == s[|s| - 1 - k]
  {
    if k < |s| - 1 {
      ReversedAt(s[1..], k);
    }
  }

  /** What of the digits is still to be written, in front of those that are. */
  function Ahead(n: nat, base: nat): string
    requires 2 <= base <= 16
  {
    if n == 0 then "" else Digits(n, base)
  }

  lemma DigitsStep(n: nat, base: nat)
    requires 2 <= base <= 16
    ensures Digits(n, base) == Ahead(Quotient(n, base), base) + [DIGITS[Remainder(n, base)]]
  {
    hide Quotient, Remainder;
    if n < base {
      assert "" + [DIGITS[n]] == [DIGITS[n]];
    }
  }

  /** The digits into `temp`, the least significant first. */
  method PutDigits(value: nat, base: nat, temp: array<char>) returns (p: nat)
    requires 2 <= base <= 16 && value < Power(base, temp.Length) && temp.Length > 0
    modifies temp
    ensures 0 < p <= temp.Length && Reversed(temp[..p]) == Digits(value, base)
  {
    hide Reversed, Digits, Quotient, Remainder, Power;
    var v: nat := value;
    DigitsStep(v, base);
    SmallerPower(v, base, temp.Length);
    temp[0] := DIGITS[Remainder(v, base)];
    v := Quotient(v, base);
    p := 1;
    assert temp[..1] == [temp[0]];
    ReversedOne(temp[0]);
    while v > 0
      invariant 0 < p <= temp.Length && v < Power(base, temp.Length - p)
      invariant Ahead(v, base) + Reversed(temp[..p]) == Digits(value, base)
      decreases v
    {
      DigitsStep(v, base);
      SmallerPower(v, base, temp.Length - p);
      temp[p] := DIGITS[Remainder(v, base)];
      assert temp[..p + 1] == temp[..p] + [temp[p]];
      ReversedSnoc(temp[..p], temp[p]);
      ghost var ahead := Ahead(Quotient(v, base), base);
      assert ahead + [temp[p]] + Reversed(temp[..p]) == ahead + ([temp[p]] + Reversed(temp[..p]));
      p := p + 1;
      v := Quotient(v, base);
    }
    assert "" + Reversed(temp[..p]) == Reversed(temp[..p]);
  }

  lemma ReversedOne(c: char)
    ensures Reversed([c]) == [c]
  {
    assert [c][1..] == "";
  }

  lemma SmallerPower(v: nat, base: nat, k: nat)
    requires 2 <= base && v < Power(base, k)
    ensures v > 0 ==> k > 0
    ensures k > 0 ==> Quotient(v, base) < Power(base, k - 1)
  {
    hide Quotient;
    if k > 0 {
      if Quotient(v, base) >= Power(base, k - 1) {
        Monotone(Power(base, k - 1), Quotient(v, base), base);
      }
    }
  }

  lemma Monotone(r: nat, q: nat, base: nat)
    requires r <= q
    ensures base * r <= q * base
  {
    assert q * base == base * r + (q - r) * base;
  }

  /** Copies `temp` backwards. */
  method CopyBack(temp: array<char>, p: nat, dst: array<char>)
    requires p <= temp.Length && p <= dst.Length && temp != dst
    modifies dst
    ensures dst[..p] == Reversed(temp[..p])
  {
    hide Reversed;
    for k := 0 to p
      invariant forall j :: 0 <= j < k ==> dst[j] == Reversed(temp[..p])[j]
    {
      ReversedAt(temp[..p], k);
      dst[k] := temp[p - 1 - k];
    }
  }

  /** u32toaHex: at most eight digits. */
  method U32ToaHex(value: nat, dst: array<char>) returns (ret: nat)
    requires value < 0x1_0000_0000 && dst.Length >= 10
    modifies dst
    ensures ret <= 10 && dst[..ret] == Digits(value, 16)
  {
    var temp := new char[10](_ => '0');
    TenDigits();
    ret := PutDigits(value, 16, temp);
    CopyBack(temp, ret, dst);
  }

  /** u32toa: at most ten digits. */
  method U32Toa(value: nat, dst: array<char>) returns (ret: nat)
    requires value < 0x1_0000_0000 && dst.Length >= 10
    modifies dst
    ensures ret <= 10 && dst[..ret] == Digits(value, 10)
  {
    var temp := new char[10](_ => '0');
    TenDigits();
    ret := PutDigits(value, 10, temp);
    CopyBack(temp, ret, dst);
  }

  lemma TenDigits()
    ensures Power(16, 10) == 0x100_0000_0000 && Power(10, 10) == 10_000_000_000
  {
    assert Power(16, 5) == 0x10_0000 && Power(10, 5) == 100_000;
    assert Power(16, 10) == 16 * (16 * (16 * (16 * (16 * Power(16, 5)))));
    assert Power(10, 10) == 10 * (10 * (10 * (10 * (10 * Power(10, 5)))));
  }
}
