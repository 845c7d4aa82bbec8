/** Numbers in ustar header fields: atoi, power, convertOctalToDecimal and alignFileUp of sys/tarfs.c. */
module Octal {
  import opened Limits

  predicate IsDigit(c: char) { '0' <= c <= '9' }
  predicate AllDigits(s: string) { forall k :: 0 <= k < |s| ==> IsDigit(s[k]) }
  predicate AllOctal(s: string) { forall k :: 0 <= k < |s| ==> '0' <= s[k] <= '7' }

  /** The value of a digit string in a base. */
  function Value(s: string, base: nat): nat
    requires AllDigits(s)
  {
    if s == [] then 0 else Value(s[..|s| - 1], base) * base + (s[|s| - 1] as int - '0' as int)
  }

  function Pow(x: nat, n: nat): nat { if n == 0 then 1 else x * Pow(x, n - 1) }

  lemma {:induction false} PowAdd(x: nat, a: nat, b: nat)
    ensures Pow(x, a + b) == Pow(x, a) * Pow(x, b)
  {
    if a > 0 {
      PowAdd(x, a - 1, b);
      Associates(x, Pow(x, a - 1), Pow(x, b));
      PowStep(x, a);
      PowStep(x, a + b);
      hide Pow;
    }
  }

  lemma Associates(a: nat, b: nat, c: nat)
    ensures a * (b * c) == (a * b) * c
  {
  }

  lemma PowStep(x: nat, n: nat)
    requires n > 0
    ensures Pow(x, n) == x * Pow(x, n - 1)
  {
  }

  lemma {:induction false} PowPositive(x: nat, n: nat)
    requires x >= 1
    ensures Pow(x, n) >= 1
  {
    if n > 0 {
      PowPositive(x, n - 1);
    }
  }

  /** Unsigned 64-bit multiplication. */
  function Mul(a: nat, b: nat): nat { (a * b) % TWO64 }

  /** power, with its two halves and the wrap-around of each product. */
  function Power(x: nat, n: nat): nat {
    if n == 0 then 1
    else if n % 2 == 0 then Mul(Power(x, n / 2), Power(x, n / 2))
    else Mul(Mul(x, Power(x, n / 2)), Power(x, n / 2))
  }

  lemma MulExact(a: nat, b: nat, p: nat)
    requires a * b == p < TWO64
    ensures Mul(a, b) == p
  {
  }

  lemma Factors(a: nat, b: nat)
    requires a >= 1 && b >= 1
    ensures a <= a * b && b <= a * b
  {
    Bounds(a, b);
    Bounds(b, a);
    assert a * b == b * a;
  }

  /** power is exponentiation as long as the result fits in 64 bits. */
  lemma {:induction false} PowerIsPow(x: nat, n: nat)
    requires x >= 1 && Pow(x, n) < TWO64
    ensures Power(x, n) == Pow(x, n)
  {
    if n > 0 {
      var h := Pow(x, n / 2);
      HalfPower(x, n);
      hide Pow, Mul;
      PowerIsPow(x, n / 2);
      if n % 2 == 0 {
        MulExact(h, h, Pow(x, n));
      } else {
        MulExact(x, h, x * h);
        MulExact(x * h, h, Pow(x, n));
      }
    }
  }

  /** The products that power forms, and that none exceeds the last. */
  lemma HalfPower(x: nat, n: nat)
    requires x >= 1 && n > 0
    ensures var h := Pow(x, n / 2); h <= Pow(x, n)
    ensures var h := Pow(x, n / 2); n % 2 == 0 ==> h * h == Pow(x, n)
    ensures var h := Pow(x, n / 2); n % 2 == 1 ==> (x * h) * h == Pow(x, n) && x * h <= Pow(x, n)
  {
    var h := Pow(x, n / 2);
    PowPositive(x, n / 2);
    PowAdd(x, n / 2, n / 2);
    Factors(h, h);
    Factors(x, h);
    if n % 2 == 0 {
      assert n / 2 + n / 2 == n;
    } else {
      assert n / 2 + n / 2 == n - 1;
      assert x * (h * h) == (x * h) * h;
      Factors(x * h, h);
    }
  }

  lemma Bounds(a: nat, b: nat)
    requires b >= 1
    ensures a <= a * b
  {
  }

  /** What atoi returns. */
  function AtoiValue(str: string): nat {
    var negative := str != [] && str[0] == '-';
    var digits := if str != [] && (str[0] == '-' || str[0] == '+') then str[1..] else str;
    if !AllDigits(digits) then 0
    else if negative then (TWO64 - Value(digits, 10) % TWO64) % TWO64
    else Value(digits, 10) % TWO64
  }

  /** What atoi makes of digits, of a sign before them, and of everything else. */
  lemma AtoiIs(str: string)
    ensures (forall k :: 0 <= k < |str| ==> '0' <= str[k] <= '9') ==> AtoiValue(str) == Value(str, 10) % TWO64
    ensures str != [] && str[0] == '+' && (forall k :: 0 < k < |str| ==> '0' <= str[k] <= '9') ==>
      AllDigits(str[1..]) && AtoiValue(str) == Value(str[1..], 10) % TWO64
    ensures str != [] && str[0] == '-' && (forall k :: 0 < k < |str| ==> '0' <= str[k] <= '9') ==>
      AllDigits(str[1..]) && (AtoiValue(str) + Value(str[1..], 10)) % TWO64 == 0
    ensures (exists k :: 0 < k < |str| && !('0' <= str[k] <= '9')) ==> AtoiValue(str) == 0
    ensures str != [] && !('0' <= str[0] <= '9') && str[0] != '+' && str[0] != '-' ==> AtoiValue(str) == 0
  {
    hide Value;
    if str != [] {
      RestDigits(str);
      if str[0] == '-' && AllDigits(str[1..]) {
        hide AllDigits;
        NegativeIs(str);
      }
      hide AllDigits;
    }
  }

  lemma RestDigits(str: string)
    requires str != []
    ensures AllDigits(str) <==> forall k :: 0 <= k < |str| ==> '0' <= str[k] <= '9'
    ensures AllDigits(str[1..]) <==> forall k :: 0 < k < |str| ==> '0' <= str[k] <= '9'
    ensures AllDigits(str) ==> AllDigits(str[1..]) && '0' <= str[0] <= '9'
  {
    assert forall k :: 0 < k < |str| ==> str[1..][k - 1] == str[k];
  }

  lemma NegativeIs(str: string)
    requires str != [] && str[0] == '-' && AllDigits(str[1..])
    ensures (AtoiValue(str) + Value(str[1..], 10)) % TWO64 == 0
  {
    hide Value, AllDigits;
    Complement(Value(str[1..], 10));
  }

  lemma Complement(n: nat)
    ensures ((TWO64 - n % TWO64) % TWO64 + n) % TWO64 == 0
  {
    var q, r := n / TWO64, n % TWO64;
    if r == 0 {
      DropMultiple(0, q);
    } else {
      assert TWO64 - r + n == 0 + (q + 1) * TWO64;
      DropMultiple(0, q + 1);
    }
  }

  /** atoi. */
  method Atoi(str: string) returns (r: nat)
    ensures r == AtoiValue(str) && r < TWO64
    ensures (forall k :: 0 <= k < |str| ==> '0' <= str[k] <= '9') ==> r == Value(str, 10) % TWO64
    ensures str != [] && str[0] == '+' && (forall k :: 0 < k < |str| ==> '0' <= str[k] <= '9') ==>
      AllDigits(str[1..]) && r == Value(str[1..], 10) % TWO64
    ensures str != [] && str[0] == '-' && (forall k :: 0 < k < |str| ==> '0' <= str[k] <= '9') ==>
      AllDigits(str[1..]) && (r + Value(str[1..], 10)) % TWO64 == 0
    ensures (exists k :: 0 < k < |str| && !('0' <= str[k] <= '9')) ==> r == 0
    ensures str != [] && !('0' <= str[0] <= '9') && str[0] != '+' && str[0] != '-' ==> r == 0
  {
    AtoiIs(str);
    hide Value, AllDigits;
    var res, negative, rest := 0, false, str;
    if str != [] && str[0] == '-' {
      negative, rest := true, str[1..];
    } else if str != [] && str[0] == '+' {
      rest := str[1..];
    }
    var i := 0;
    NoDigits(rest);
    while i < |rest|
      invariant 0 <= i <= |rest| && AllDigits(rest[..i]) && res == Value(rest[..i], 10) % TWO64
    {
      if !IsDigit(rest[i]) {
        NotADigit(rest, i);
        return 0;
      }
      NextDecimal(rest, i);
      res := (res * 10 + (rest[i] as int - '0' as int)) % TWO64;
      i := i + 1;
    }
    assert rest[..i] == rest;
    return if negative then (TWO64 - res) % TWO64 else res;
  }

  lemma NoDigits(s: string)
    ensures AllDigits(s[..0]) && Value(s[..0], 10) == 0
  {
  }

  lemma NotADigit(s: string, i: nat)
    requires i < |s| && !IsDigit(s[i])
    ensures !AllDigits(s)
  {
  }

  /** One digit of atoi: the remainder of the sum is the remainder of the longer prefix's value. */
  lemma NextDecimal(s: string, i: nat)
    requires i < |s| && AllDigits(s[..i]) && IsDigit(s[i])
    ensures AllDigits(s[..i + 1])
    ensures Value(s[..i + 1], 10) % TWO64 == (Value(s[..i], 10) % TWO64 * 10 + (s[i] as int - '0' as int)) % TWO64
  {
    assert s[..i + 1][..i] == s[..i];
    Remainder(Value(s[..i], 10), s[i] as int - '0' as int);
  }

  lemma Remainder(n: nat, d: nat)
    ensures (n % TWO64 * 10 + d) % TWO64 == (n * 10 + d) % TWO64
  {
    var q := n / TWO64;
    assert n * 10 + d == n % TWO64 * 10 + d + q * 10 * TWO64;
    DropMultiple(n % TWO64 * 10 + d, q * 10);
  }

  lemma {:induction false} DropMultiple(x: nat, q: nat)
    ensures (x + q * TWO64) % TWO64 == x % TWO64
  {
    if q > 0 {
      DropMultiple(x, q - 1);
      assert x + q * TWO64 == x + (q - 1) * TWO64 + TWO64;
    }
  }

  /** The decimal digits of `n` read in base eight. */
  function OctalOf(n: nat): nat {
    if n == 0 then 0 else n % 10 + 8 * OctalOf(n / 10)
  }

  lemma {:induction false} OctalBound(n: nat, k: nat)
    requires n < Pow(10, k)
    ensures 7 * OctalOf(n) <= 9 * (Pow(8, k) - 1)
  {
    if k == 0 {
      assert n == 0;
    } else if n > 0 {
      assert n / 10 < Pow(10, k - 1);
      OctalBound(n / 10, k - 1);
    } else {
      PowPositive(8, k);
    }
  }

  lemma TwentyDigits()
    ensures TWO64 <= Pow(10, 20) && Pow(8, 20) == 0x1000_0000_0000_0000
  {
    PowAdd(10, 10, 10);
    assert Pow(10, 5) == 100000;
    PowAdd(10, 5, 5);
    PowAdd(8, 10, 10);
    assert Pow(8, 5) == 0x8000;
    PowAdd(8, 5, 5);
  }

  /** convertOctalToDecimal: no 64-bit argument makes it wrap. */
  method ConvertOctalToDecimal(octalNum: nat) returns (decimalNum: nat)
    requires octalNum < TWO64
    ensures decimalNum == OctalOf(octalNum)
  {
    var i: nat, num: nat := 0, octalNum;
    decimalNum := 0;
    TwentyDigits();
    OctalBound(octalNum, 20);
    hide OctalOf, Power, Mul;
    assert OctalOf(0) == 0 by { ZeroOctal(); }
    while num != 0
      invariant 0 <= i <= 20 && num < Pow(10, 20 - i)
      invariant decimalNum + Pow(8, i) * OctalOf(num) == OctalOf(octalNum)
      decreases num
    {
      DigitFits(i, num, decimalNum, OctalOf(octalNum));
      var r := num % 10;
      decimalNum := (decimalNum + Mul(r, Power(8, i))) % TWO64;
      num := num / 10;
      i := i + 1;
    }
  }

  lemma ZeroOctal()
    ensures OctalOf(0) == 0
  {
  }

  /** One digit of convertOctalToDecimal: the power and the sum stay below 2^64. */
  lemma DigitFits(i: nat, num: nat, sum: nat, total: nat)
    requires i <= 20 && 0 < num < Pow(10, 20 - i) && sum + Pow(8, i) * OctalOf(num) == total
    requires 7 * total <= 9 * Pow(8, 20) && Pow(8, 20) == 0x1000_0000_0000_0000
    ensures i < 20 && num / 10 < Pow(10, 20 - (i + 1))
    ensures var sum' := (sum + Mul(num % 10, Power(8, i))) % TWO64;
      sum' + Pow(8, i + 1) * OctalOf(num / 10) == total
  {
    hide Pow, OctalOf, Mul, Power;
    OneDigitLess(i, num);
    PowAdd(8, i, 20 - i);
    PowPositive(8, 20 - i);
    PowPositive(8, i);
    Factors(Pow(8, i), Pow(8, 20 - i));
    PowerIsPow(8, i);
    NextDigit(i, num);
    var d, rest := (num % 10) * Pow(8, i), Pow(8, i + 1) * OctalOf(num / 10);
    assert total == sum + d + rest;
    MulExact(num % 10, Pow(8, i), d);
  }

  lemma OneDigitLess(i: nat, num: nat)
    requires i <= 20 && 0 < num < Pow(10, 20 - i)
    ensures i < 20 && num / 10 < Pow(10, 20 - (i + 1))
  {
    if i < 20 {
      assert Pow(10, 20 - i) == 10 * Pow(10, 20 - (i + 1));
    }
  }

  lemma NextDigit(i: nat, num: nat)
    requires num > 0
    ensures Pow(8, i) * OctalOf(num) == (num % 10) * Pow(8, i) + Pow(8, i + 1) * OctalOf(num / 10)
  {
    var p, q := Pow(8, i), OctalOf(num / 10);
    assert p * (num % 10 + 8 * q) == (num % 10) * p + (8 * p) * q;
  }

  lemma {:induction false} ReadBack(s: string)
    requires AllOctal(s)
    ensures AllDigits(s) && OctalOf(Value(s, 10)) == Value(s, 8)
  {
    if s != [] {
      var s', d := s[..|s| - 1], s[|s| - 1] as int - '0' as int;
      ReadBack(s');
      var n := Value(s', 10) * 10 + d;
      assert n % 10 == d && n / 10 == Value(s', 10);
    }
  }

  lemma {:induction false} ValueBound(s: string)
    requires AllDigits(s)
    ensures Value(s, 10) < Pow(10, |s|)
  {
    if s != [] {
      ValueBound(s[..|s| - 1]);
    }
  }

  lemma {:induction false} PowMonotonic(a: nat, b: nat)
    requires a <= b
    ensures Pow(10, a) <= Pow(10, b)
    decreases b
  {
    if a < b {
      PowMonotonic(a, b - 1);
      PowPositive(10, b - 1);
    }
  }

  /** An octal field of at most 19 digits, wider than any in a ustar header, is read as its base-8 value. */
  lemma FieldValue(s: string)
    requires AllOctal(s) && |s| <= 19
    ensures OctalOf(AtoiValue(s)) == Value(s, 8)
  {
    hide Pow, Value, OctalOf;
    ReadBack(s);
    ValueBound(s);
    PowMonotonic(|s|, 19);
    NineteenDigits();
    assert s != [] ==> IsDigit(s[0]);
  }

  lemma NineteenDigits()
    ensures Pow(10, 19) < TWO64
  {
    PowAdd(10, 10, 9);
    assert Pow(10, 5) == 100000 && Pow(10, 4) == 10000;
    PowAdd(10, 5, 5);
    PowAdd(10, 5, 4);
  }

  /** alignFileUp. */
  function AlignFileUp(size: nat): nat {
    var diff := 512 - size % 512;
    if diff == 512 then size else size + diff
  }
}
