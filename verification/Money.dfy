/** Fixed-point prices of 30 bits and an exponent (src/m30.c): reading them from decimal strings and
    printing them. */
module Money {
  import opened Basics
  import opened Calendar

  /** A mantissa in units of 10^-8, 10^-4, 1 or 10^4. */
  datatype M30 = M30(expo: nat, mant: int)

  const HALF: int := 0x2000_0000

  /** The value that stands for a market order. */
  const MKT := M30(3, -HALF)

  predicate Sound(m: M30) { m.expo < 4 && -HALF <= m.mant < HALF }

  /** What a signed 30-bit field makes of a number. */
  function Trunc30(v: int): int { (v + HALF) % (2 * HALF) - HALF }

  function Unsigned(v: int): nat { v % 0x1_0000_0000 }

  /** The value in units of 10^-8. */
  function Value(m: M30): int
    requires m.expo < 4
  {
    match m.expo
    case 0 => m.mant
    case 1 => m.mant * 10000
    case 2 => m.mant * 1_0000_0000
    case _ => m.mant * 1_0000_0000_0000
  }

  // ---------------------------------------------------------------- decimal strings

  predicate IsDigit(c: char) { '0' <= c <= '9' }

  predicate AllDigits(s: string) { forall i {:trigger s[i]} :: 0 <= i < |s| ==> IsDigit(s[i]) }

  /** The character at a position of a C string, NUL at its end. */
  function CharAt(s: string, i: nat): char { if i < |s| then s[i] else '\0' }

  /** How many digits there are from a position on. */
  function DigitRun(s: string, i: nat): (n: nat)
    ensures i <= |s| ==> i + n <= |s|
    ensures !IsDigit(CharAt(s, i + n))
    ensures forall j {:trigger s[j]} :: i <= j < i + n && j < |s| ==> IsDigit(s[j])
    decreases |s| - i
  {
    if i < |s| && IsDigit(s[i]) then 1 + DigitRun(s, i + 1) else 0
  }

  /** The value of a digit as the code gets it, and of a digit string. */
  function Digit(c: char): nat { c as int % 16 }

  function Num(s: string): nat { NumUpto(s, |s|) }

  /** The value of the first n digits. */
  function NumUpto(s: string, n: nat): nat
    requires n <= |s|
  {
    if n == 0 then 0 else 10 * NumUpto(s, n - 1) + Digit(s[n - 1])
  }

  function Pow10(n: nat): (p: nat)
    ensures p > 0
  {
    if n == 0 then 1 else 10 * Pow10(n - 1)
  }

  lemma {:induction false} NumFront(a: string, b: string, n: nat)
    requires n <= |a|
    ensures NumUpto(a + b, n) == NumUpto(a, n)
    decreases n
  {
    if n > 0 {
      NumFront(a, b, n - 1);
    }
  }

  lemma NumMore(s: string, c: char)
    ensures Num(s + [c]) == 10 * Num(s) + Digit(c)
  {
    NumFront(s, [c], |s|);
  }

  lemma {:induction false} NumConcat(a: string, b: string)
    ensures Num(a + b) == Num(a) * Pow10(|b|) + Num(b)
    decreases |b|
  {
    if b == [] {
      assert a + b == a;
    } else {
      var l, c := b[..|b| - 1], b[|b| - 1];
      NumConcat(a, l);
      LastApart(a, b);
      NumMore(a + l, c);
      NumMore(l, c);
      Distribute(Num(a), Pow10(|l|));
    }
  }

  lemma LastApart(a: string, b: string)
    requires b != []
    ensures b == b[..|b| - 1] + [b[|b| - 1]] && a + b == (a + b[..|b| - 1]) + [b[|b| - 1]]
  {
  }

  lemma Distribute(a: nat, p: nat)
    ensures 10 * (a * p) == a * (10 * p)
  {
  }

  lemma NumBound(s: string)
    requires AllDigits(s)
    ensures Num(s) < Pow10(|s|)
  {
    NumUptoBound(s, |s|);
  }

  lemma {:induction false} NumUptoBound(s: string, n: nat)
    requires AllDigits(s) && n <= |s|
    ensures NumUpto(s, n) < Pow10(n)
    decreases n
  {
    if n > 0 {
      NumUptoBound(s, n - 1);
      DigitIsDigit(s[n - 1]);
    }
  }

  lemma DigitIsDigit(c: char)
    requires IsDigit(c)
    ensures Digit(c) == c as int - '0' as int <= 9 && (c >= '5' <==> Digit(c) >= 5)
  {
  }

  /** The first digit says how large the number is. */
  lemma NumLeads(s: string)
    requires AllDigits(s) && s != []
    ensures Digit(s[0]) * Pow10(|s| - 1) <= Num(s) < (Digit(s[0]) + 1) * Pow10(|s| - 1)
  {
    var c, t := s[..1], s[1..];
    assert s == c + t && c == [] + [s[0]];
    NumMore([], s[0]);
    NumConcat(c, t);
    assert forall i {:trigger t[i]} :: 0 <= i < |t| ==> t[i] == s[i + 1];
    NumBound(t);
    Successor(Digit(s[0]), Pow10(|t|));
  }

  lemma Successor(d: nat, p: nat)
    ensures (d + 1) * p == d * p + p
  {
  }

  // ---------------------------------------------------------------- reading

  /** res = 10 * res + digit in 32 bits, for each character. */
  function Accumulate(res: nat, s: string): nat { AccumulateUpto(res, s, |s|) }

  function AccumulateUpto(res: nat, s: string, n: nat): nat
    requires n <= |s|
  {
    if n == 0 then res else Unsigned(10 * AccumulateUpto(res, s, n - 1) + Digit(s[n - 1]))
  }

  lemma {:induction false} AccumulateFront(res: nat, a: string, b: string, n: nat)
    requires n <= |a|
    ensures AccumulateUpto(res, a + b, n) == AccumulateUpto(res, a, n)
    decreases n
  {
    if n > 0 {
      AccumulateFront(res, a, b, n - 1);
    }
  }

  lemma AccumulateMore(res: nat, s: string, c: char)
    ensures Accumulate(res, s + [c]) == Unsigned(10 * Accumulate(res, s) + Digit(c))
  {
    AccumulateFront(res, s, [c], |s|);
  }

  /** As long as it fits there is no wrapping around. */
  lemma AccumulateFits(res: nat, s: string)
    requires res * Pow10(|s|) + Num(s) < 0x1_0000_0000
    ensures Accumulate(res, s) == res * Pow10(|s|) + Num(s)
  {
    AccumulateUptoFits(res, s, |s|);
  }

  lemma {:induction false} AccumulateUptoFits(res: nat, s: string, n: nat)
    requires n <= |s| && res * Pow10(n) + NumUpto(s, n) < 0x1_0000_0000
    ensures AccumulateUpto(res, s, n) == res * Pow10(n) + NumUpto(s, n)
    decreases n
  {
    if n > 0 {
      Distribute(res, Pow10(n - 1));
      AccumulateUptoFits(res, s, n - 1);
    }
  }

  /** In any case what wraps around is the number. */
  lemma AccumulateWraps(res: nat, s: string)
    requires res < 0x1_0000_0000
    ensures Accumulate(res, s) == Unsigned(res * Pow10(|s|) + Num(s))
  {
    AccumulateUptoWraps(res, s, |s|);
  }

  lemma {:induction false} AccumulateUptoWraps(res: nat, s: string, n: nat)
    requires n <= |s| && res < 0x1_0000_0000
    ensures AccumulateUpto(res, s, n) == Unsigned(res * Pow10(n) + NumUpto(s, n))
    decreases n
  {
    if n > 0 {
      AccumulateUptoWraps(res, s, n - 1);
      Distribute(res, Pow10(n - 1));
      NextWraps(res * Pow10(n - 1), NumUpto(s, n - 1), AccumulateUpto(res, s, n - 1), Digit(s[n - 1]));
    }
  }

  lemma NextWraps(a: nat, b: nat, u: nat, d: nat)
    requires u == Unsigned(a + b)
    ensures Unsigned(10 * u + d) == Unsigned(10 * a + (10 * b + d))
  {
    WrapTwice(10, a + b, d);
  }

  lemma WrapTwice(a: int, x: int, d: int)
    ensures Unsigned(a * Unsigned(x) + d) == Unsigned(a * x + d)
  {
    var q := x / 0x1_0000_0000;
    assert x == q * 0x1_0000_0000 + Unsigned(x);
    assert a * x == (a * q) * 0x1_0000_0000 + a * Unsigned(x);
    WrapsOff(a * Unsigned(x) + d, a * q);
  }

  lemma WrapsOff(x: int, q: int)
    ensures Unsigned(x + q * 0x1_0000_0000) == Unsigned(x)
  {
  }

  /** The digits one after the other. */
  method ReadDigits(res0: nat, s: string, from: nat, n: nat) returns (res: nat)
    requires from + n <= |s|
    ensures res == Accumulate(res0, s[from..from + n])
  {
    res := res0;
    for i := 0 to n
      invariant res == Accumulate(res0, s[from..from + i])
    {
      assert s[from..from + (i + 1)] == s[from..from + i] + [s[from + i]];
      AccumulateMore(res0, s[from..from + i], s[from + i]);
      res := Unsigned(10 * res + Digit(s[from + i]));
    }
  }

  /** res *= 10 in 32 bits, n times. */
  function Scaled(a: nat, n: nat): nat { if n == 0 then a else Unsigned(10 * Scaled(a, n - 1)) }

  lemma {:induction false} ScaledFits(a: nat, n: nat)
    requires a * Pow10(n) < 0x1_0000_0000
    ensures Scaled(a, n) == a * Pow10(n)
    decreases n
  {
    if n > 0 {
      Distribute(a, Pow10(n - 1));
      ScaledFits(a, n - 1);
    }
  }

  lemma {:induction false} ScaledWraps(a: nat, n: nat)
    requires a < 0x1_0000_0000
    ensures Scaled(a, n) == Unsigned(a * Pow10(n))
    decreases n
  {
    if n > 0 {
      ScaledWraps(a, n - 1);
      Distribute(a, Pow10(n - 1));
      WrapTwice(10, a * Pow10(n - 1), 0);
    }
  }

  /** What comes of a fraction of k digits at f: filled up with zeros to so many places, or
      rounded by the digit behind them. */
  function Rounded(res0: nat, s: string, f: nat, k: nat, places: nat): nat
    requires f + k <= |s|
  {
    var a := Accumulate(res0, s[f..f + Min(k, places)]);
    if k <= places then Scaled(a, places - k)
    else if CharAt(s, f + places) >= '5' then Unsigned(a + 1) else a
  }

  method ReadFraction(res0: nat, s: string, f: nat, k: nat, places: nat) returns (res: nat)
    requires f + k <= |s|
    ensures res == Rounded(res0, s, f, k, places)
  {
    res := ReadDigits(res0, s, f, Min(k, places));
    if k <= places {
      res := ScaleUp(res, places - k);
    } else if CharAt(s, f + places) >= '5' {
      res := Unsigned(res + 1);
    }
  }

  method ScaleUp(a: nat, n: nat) returns (res: nat)
    ensures res == Scaled(a, n)
  {
    res := a;
    for i := 0 to n
      invariant res == Scaled(a, i)
    {
      res := Unsigned(10 * res);
    }
  }

  // ---------------------------------------------------------------- how close the reading is

  /** mant is n / 10^k in units of 10^-places, to half a unit. */
  predicate WithinHalf(mant: nat, n: nat, k: nat, places: nat) {
    var d: int := mant * Pow10(k) - n * Pow10(places);
    0 <= 2 * d + Pow10(k) <= 2 * Pow10(k)
  }

  /** Marks a mantissa whose error a proof looks into. */
  ghost predicate Seen(mant: nat) { true }

  /** WithinHalf, out of sight until the mantissa is seen. */
  ghost predicate Close(mant: nat, n: nat, k: nat, places: nat) {
    forall u: nat {:trigger Seen(u)} :: Seen(u) && u == mant ==> WithinHalf(u, n, k, places)
  }

  /** mant is n / 10^k, rounded down. */
  predicate RoundedDown(mant: nat, n: nat, k: nat) { mant * Pow10(k) <= n < (mant + 1) * Pow10(k) }

  lemma {:induction false} PowSum(a: nat, b: nat)
    ensures Pow10(a + b) == Pow10(a) * Pow10(b)
    decreases a
  {
    if a > 0 {
      PowSum(a - 1, b);
      Associate(10, Pow10(a - 1), Pow10(b));
    }
  }

  lemma Associate(a: int, b: int, c: int)
    ensures (a * b) * c == a * (b * c)
  {
  }

  lemma {:induction false} PowUpto(a: nat, b: nat)
    requires a <= b
    ensures Pow10(a) <= Pow10(b)
    decreases b
  {
    if a < b {
      PowUpto(a, b - 1);
    }
  }

  lemma PowNine()
    ensures Pow10(9) == 10_0000_0000 && Pow10(8) == 1_0000_0000 && Pow10(4) == 1_0000
  {
    assert Pow10(4) == 10000;
    PowSum(4, 4);
  }

  lemma JoinDigits(a: string, b: string)
    requires AllDigits(a) && AllDigits(b)
    ensures AllDigits(a + b)
  {
  }

  /** Up to nine digits fit 32 bits. */
  lemma AccumulateIsNum(g: string, c: string)
    requires AllDigits(g) && AllDigits(c) && |g| + |c| <= 9
    ensures Accumulate(Num(g), c) == Num(g + c)
    ensures Num(g + c) < Pow10(|g| + |c|) <= 10_0000_0000
  {
    NumConcat(g, c);
    JoinDigits(g, c);
    NumBound(g + c);
    PowUpto(|g| + |c|, 9);
    PowNine();
    AccumulateFits(Num(g), c);
  }

  /** A fraction that is short enough is exact. */
  lemma PaddedIsExact(g: string, t: string, places: nat)
    requires AllDigits(g) && AllDigits(t) && |t| <= places && |g| + places <= 9
    ensures Close(Scaled(Accumulate(Num(g), t), places - |t|), Num(g + t), |t|, places)
  {
    AccumulateIsNum(g, t);
    PaddedNumbers(Num(g + t), |g|, |t|, places);
  }

  lemma PaddedNumbers(a: nat, n: nat, k: nat, places: nat)
    requires a < Pow10(n + k) && k <= places && n + places <= 9
    ensures Close(Scaled(a, places - k), a, k, places)
  {
    var z := places - k;
    PowSum(n + k, z);
    Larger(a, Pow10(n + k), Pow10(z));
    PowUpto(n + places, 9);
    PowNine();
    ScaledFits(a, z);
    PowSum(z, k);
    Associate(a, Pow10(z), Pow10(k));
  }

  lemma Larger(a: nat, b: nat, p: nat)
    requires a < b && p > 0
    ensures a * p < b * p
  {
  }

  /** A longer one is rounded by its next digit. */
  lemma CutIsClose(m: nat, g: string, c: string, d: string, places: nat)
    requires AllDigits(g) && AllDigits(c) && AllDigits(d) && |c| == places && d != [] && |g| + places <= 9
    requires m == if d[0] >= '5' then Unsigned(Accumulate(Num(g), c) + 1) else Accumulate(Num(g), c)
    ensures Close(m, Num(g + (c + d)), places + |d|, places)
  {
    AccumulateIsNum(g, c);
    OneMoreFits(Num(g + c));
    CutDigits(g, c, d, places);
    assert m == if Digit(d[0]) >= 5 then Num(g + c) + 1 else Num(g + c);
  }

  lemma OneMoreFits(a: nat)
    requires a <= 10_0000_0000
    ensures Unsigned(a + 1) == a + 1
  {
  }

  lemma CutDigits(g: string, c: string, d: string, places: nat)
    requires AllDigits(d) && d != []
    ensures Close(if Digit(d[0]) >= 5 then Num(g + c) + 1 else Num(g + c), Num(g + (c + d)), places + |d|, places)
    ensures d[0] >= '5' <==> Digit(d[0]) >= 5
  {
    NumIsCut(g, c, d);
    CutNumbers(Num(g + c), Num(g + (c + d)), Num(d), Digit(d[0]), |d|, places);
  }

  lemma NumIsCut(g: string, c: string, d: string)
    requires AllDigits(d) && d != []
    ensures Num(g + (c + d)) == Num(g + c) * Pow10(|d|) + Num(d)
    ensures Digit(d[0]) * Pow10(|d| - 1) <= Num(d) < (Digit(d[0]) + 1) * Pow10(|d| - 1)
    ensures Digit(d[0]) < 10 && (d[0] >= '5' <==> Digit(d[0]) >= 5)
  {
    DigitsApart(g, c, d);
    NumConcat(g + c, d);
    NumLeads(d);
    DigitIsDigit(d[0]);
  }

  lemma DigitsApart(g: string, c: string, d: string)
    ensures (g + c) + d == g + (c + d)
  {
  }

  lemma CutNumbers(a: nat, n: nat, b: nat, d: nat, k: nat, places: nat)
    requires k > 0 && n == a * Pow10(k) + b && d * Pow10(k - 1) <= b < (d + 1) * Pow10(k - 1) && d < 10
    ensures Close(if d >= 5 then a + 1 else a, n, places + k, places)
  {
    HalfOff(a, b, d, Pow10(k - 1));
    PowSum(places, k);
    HalfScaled(if d >= 5 then a + 1 else a, n, Pow10(k), Pow10(places));
  }

  /** The next digit says which way to round. */
  lemma HalfOff(a: nat, b: nat, d: nat, q: nat)
    requires d * q <= b < (d + 1) * q && d < 10
    ensures var m := if d >= 5 then a + 1 else a;
            0 <= 2 * (m * (10 * q) - (a * (10 * q) + b)) + 10 * q <= 2 * (10 * q)
  {
    var x := 10 * q;
    assert d >= 5 ==> 5 * q <= d * q && (a + 1) * x == a * x + x;
    assert d < 5 ==> (d + 1) * q <= 5 * q;
    assert (d + 1) * q <= 10 * q;
  }

  lemma HalfScaled(m: nat, n: nat, x: nat, p: nat)
    requires 0 <= 2 * (m * x - n) + x <= 2 * x
    ensures 0 <= 2 * (m * (p * x) - n * p) + p * x <= 2 * (p * x)
  {
    var e := m * x - n;
    assert m * (p * x) - n * p == e * p by {
      Associate(m, x, p);
    }
    assert (2 * e + x) * p == 2 * (e * p) + p * x;
    assert 0 <= (2 * e + x) * p;
    assert (2 * x - (2 * e + x)) * p >= 0;
  }

  /** Reading integral digits g and then a fraction to so many places: right to half a unit. */
  lemma RoundedIsClose(g: string, s: string, f: nat, k: nat, places: nat)
    requires AllDigits(g) && f + k <= |s| && AllDigits(s[f..f + k]) && |g| + places <= 9
    ensures Close(Rounded(Num(g), s, f, k, places), Num(g + s[f..f + k]), k, places)
  {
    var m, t := Rounded(Num(g), s, f, k, places), s[f..f + k];
    if k <= places {
      RoundedShort(m, g, s, f, k, places, t);
    } else {
      RoundedLong(m, g, s, f, k, places, t);
    }
  }

  lemma RoundedShort(m: nat, g: string, s: string, f: nat, k: nat, places: nat, t: string)
    requires f + k <= |s| && k <= places && t == s[f..f + k] && m == Rounded(Num(g), s, f, k, places)
    requires AllDigits(g) && AllDigits(t) && |g| + places <= 9
    ensures Close(m, Num(g + t), k, places)
  {
    assert m == Scaled(Accumulate(Num(g), t), places - k);
    PaddedIsExact(g, t, places);
  }

  lemma RoundedLong(m: nat, g: string, s: string, f: nat, k: nat, places: nat, t: string)
    requires f + k <= |s| && k > places && t == s[f..f + k] && m == Rounded(Num(g), s, f, k, places)
    requires AllDigits(g) && AllDigits(t) && |g| + places <= 9
    ensures Close(m, Num(g + t), k, places)
  {
    var c, d := CutFraction(s, f, k, places);
    CutIsClose(m, g, c, d, places);
  }

  lemma CutFraction(s: string, f: nat, k: nat, places: nat) returns (c: string, d: string)
    requires f + k <= |s| && AllDigits(s[f..f + k]) && places < k
    ensures AllDigits(c) && AllDigits(d) && |c| == places && |d| == k - places && s[f..f + k] == c + d
    ensures s[f..f + Min(k, places)] == c && d[0] == CharAt(s, f + places)
  {
    var t := s[f..f + k];
    c, d := t[..places], t[places..];
    assert forall i {:trigger c[i]} :: 0 <= i < |c| ==> c[i] == t[i];
    assert forall i {:trigger d[i]} :: 0 <= i < |d| ==> d[i] == t[places + i];
  }

  // ---------------------------------------------------------------- strings to prices

  method ScanDigits(s: string, i: nat) returns (n: nat)
    ensures n == DigitRun(s, i)
  {
    n := 0;
    while IsDigit(CharAt(s, i + n))
      invariant n + DigitRun(s, i + n) == DigitRun(s, i)
      decreases |s| - i - n
    {
      n := n + 1;
    }
  }

  /** Where the digits start, behind a sign. */
  function Start(s: string): (a: nat)
    ensures a <= |s|
  {
    if CharAt(s, 0) == '-' || CharAt(s, 0) == '+' then 1 else 0
  }

  predicate Special(s: string) {
    CharAt(s, Start(s)) == 'm' && CharAt(s, Start(s) + 1) == 'k' && CharAt(s, Start(s) + 2) == 't'
  }

  /** The integral digits and those behind a point. */
  function Integral(s: string): (g: string)
    ensures AllDigits(g)
  {
    s[Start(s)..PointAt(s)]
  }

  function PointAt(s: string): (p: nat)
    ensures Start(s) <= p <= |s|
  {
    Start(s) + DigitRun(s, Start(s))
  }

  function Fraction(s: string): (t: string)
    ensures AllDigits(t)
  {
    if CharAt(s, PointAt(s)) != '.' then [] else s[PointAt(s) + 1..PointAt(s) + 1 + DigitRun(s, PointAt(s) + 1)]
  }

  /** Where the number ends. */
  function End(s: string): nat {
    PointAt(s) + if CharAt(s, PointAt(s)) == '.' then 1 + |Fraction(s)| else 0
  }

  /** The exponent for so many digits. */
  function ExpoFor(n: nat, k: nat, first: char): nat {
    if k >= 4 && n <= 1 && first < '5' then 0
    else if n < 5 || (n == 5 && first < '5') then 1
    else if n >= 8 then 3
    else 2
  }

  /** What a reading of digits g and t is to be. */
  ghost predicate Reads(expo: nat, mant: nat, g: string, t: string) {
    match expo
    case 0 => Close(mant, Num(g + t), |t|, 8)
    case 1 => Close(mant, Num(g + t), |t|, 4)
    case 2 => mant == Num(g)
    case _ => |g| >= 4 && mant == Num(g[..|g| - 4])
  }

  /** A reading that is close is no larger than the next integer. */
  lemma CloseBound(mant: nat, g: string, t: string, places: nat)
    requires AllDigits(t) && Close(mant, Num(g + t), |t|, places)
    ensures mant <= (Num(g) + 1) * Pow10(places)
  {
    NumConcat(g, t);
    NumBound(t);
    assert Seen(mant);
    BoundByNumbers(mant, Num(g), Num(t), Pow10(|t|), Pow10(places));
  }

  lemma BoundByNumbers(m: nat, g: nat, t: nat, x: nat, p: nat)
    requires t < x && 2 * (m * x - (g * x + t) * p) <= x
    ensures m <= (g + 1) * p
  {
    var b := (g + 1) * p;
    Above(g, t, x, p);
    OneMoreTimes(b, m, x);
  }

  lemma OneMoreTimes(b: nat, m: nat, x: nat)
    ensures m > b ==> m * x >= b * x + x
  {
    if m > b {
      AtMost(b + 1, m, x);
      Successor(b, x);
    }
  }

  lemma Above(g: nat, t: nat, x: nat, p: nat)
    requires t < x
    ensures (g * x + t) * p <= ((g + 1) * p) * x
  {
    assert g * x + t <= (g + 1) * x;
    assert (g * x + t) * p <= ((g + 1) * x) * p;
    assert ((g + 1) * x) * p == ((g + 1) * p) * x;
  }

  /** __30_0_get_s: one integral digit below 5, and eight places. */
  method ReadSmall(s: string, a: nat, n: nat, f: nat, k: nat) returns (mant: nat)
    requires n <= 1 && a + n <= |s| && f + k <= |s| && AllDigits(s[a..a + n]) && AllDigits(s[f..f + k])
    ensures n == 1 && s[a] < '5' ==> mant < HALF && Close(mant, Num(s[a..a + n] + s[f..f + k]), k, 8)
    ensures CharAt(s, a) == '.' ==> TwoLow(mant, s[f..f + k])
  {
    var res := Unsigned(CharAt(s, a) as int - '0' as int);
    mant := ReadFraction(res, s, f, k, 8);
    if n == 1 && s[a] < '5' {
      SmallIsClose(s, a, f, k);
    }
    if CharAt(s, a) == '.' {
      PointAsDigit(s, f, k);
    }
  }

  /** In 32 bits, mant is the fraction with digits t in units of 10^-8, to half a unit, less two. */
  ghost predicate TwoLow(mant: nat, t: string) {
    exists r: nat {:trigger Seen(r)} ::
      Seen(r) && mant == r + 0xFFFF_FFFF + 1 - 2_0000_0000 && r <= 1_0000_0000 && Close(r, Num(t), |t|, 8)
  }

  /** The point, taken for a digit, stands for -2. */
  lemma PointAsDigit(s: string, f: nat, k: nat)
    requires f + k <= |s| && AllDigits(s[f..f + k])
    ensures TwoLow(Rounded(Unsigned('.' as int - '0' as int), s, f, k, 8), s[f..f + k])
  {
    var t, r := s[f..f + k], Rounded(0, s, f, k, 8);
    JustFraction(s, f, k, r, t);
    if k <= 8 {
      ShiftedShort(s, f, k, t);
    } else {
      ShiftedLong(s, f, k, t);
    }
    assert Seen(r);
  }

  lemma JustFraction(s: string, f: nat, k: nat, r: nat, t: string)
    requires f + k <= |s| && t == s[f..f + k] && AllDigits(t) && r == Rounded(0, s, f, k, 8)
    ensures r <= 1_0000_0000 && Close(r, Num(t), k, 8)
  {
    assert [] + t == t;
    RoundedIsClose([], s, f, k, 8);
    CloseBound(r, [], t, 8);
    PowNine();
  }

  lemma ShiftedShort(s: string, f: nat, k: nat, t: string)
    requires f + k <= |s| && t == s[f..f + k] && k <= 8
    ensures Rounded(0xFFFF_FFFE, s, f, k, 8) == Unsigned(Rounded(0, s, f, k, 8) - 2_0000_0000)
  {
    assert s[f..f + Min(k, 8)] == t;
    AnyScaled(0xFFFF_FFFE, t, 8 - k);
    AnyScaled(0, t, 8 - k);
    PowSum(k, 8 - k);
    PowNine();
    ShiftedNumbers(Num(t), Pow10(k), Pow10(8 - k));
  }

  lemma AnyScaled(res: nat, t: string, n: nat)
    requires res < 0x1_0000_0000
    ensures Scaled(Accumulate(res, t), n) == Unsigned(Unsigned(res * Pow10(|t|) + Num(t)) * Pow10(n))
  {
    AccumulateWraps(res, t);
    ScaledWraps(Accumulate(res, t), n);
  }

  lemma ShiftedNumbers(n: nat, p: nat, z: nat)
    requires p * z == 1_0000_0000
    ensures Unsigned(Unsigned(0xFFFF_FFFE * p + n) * z) == Unsigned(Unsigned(Unsigned(n) * z) - 2_0000_0000)
  {
    var y, a, b := z * n, Unsigned(0xFFFF_FFFE * p + n) * z, Unsigned(n) * z;
    assert Unsigned(a) == Unsigned(0xFFFF_FFFE * 1_0000_0000 + y) by { ShiftedOnce(n, p, z); }
    assert Unsigned(b) == Unsigned(y) by { WrapOnce(n, z); }
    LessTwo(y);
  }

  lemma ShiftedOnce(n: nat, p: nat, z: nat)
    requires p * z == 1_0000_0000
    ensures Unsigned(Unsigned(0xFFFF_FFFE * p + n) * z) == Unsigned(0xFFFF_FFFE * 1_0000_0000 + z * n)
  {
    WrapOnce(0xFFFF_FFFE * p + n, z);
    TwoParts(n, p, z);
  }

  lemma LessTwo(x: nat)
    ensures Unsigned(0xFFFF_FFFE * 1_0000_0000 + x) == Unsigned(Unsigned(x) - 2_0000_0000)
  {
    WrapTwice(1, x, -2_0000_0000);
    WrapsOff(x - 2_0000_0000, 1_0000_0000);
  }

  lemma WrapOnce(x: nat, z: nat)
    ensures Unsigned(Unsigned(x) * z) == Unsigned(z * x)
  {
    WrapTwice(z, x, 0);
    Swapped(Unsigned(x), z);
  }

  lemma Swapped(a: nat, b: nat)
    ensures a * b == b * a
  {
  }

  lemma TwoParts(n: nat, p: nat, z: nat)
    requires p * z == 1_0000_0000
    ensures z * (0xFFFF_FFFE * p + n) == 0xFFFF_FFFE * 1_0000_0000 + z * n
  {
    assert z * (0xFFFF_FFFE * p) == 0xFFFF_FFFE * (p * z) by { Associate(0xFFFF_FFFE, p, z); }
  }

  lemma ShiftedLong(s: string, f: nat, k: nat, t: string)
    requires f + k <= |s| && t == s[f..f + k] && k > 8
    ensures Rounded(0xFFFF_FFFE, s, f, k, 8) == Unsigned(Rounded(0, s, f, k, 8) - 2_0000_0000)
  {
    var c := s[f..f + 8];
    var d := if CharAt(s, f + 8) >= '5' then 1 else 0;
    AccumulateWraps(0xFFFF_FFFE, c);
    AccumulateWraps(0, c);
    PowNine();
    WrapTwice(1, 0xFFFF_FFFE * 1_0000_0000 + Num(c), d);
    WrapTwice(1, Num(c), d);
    WrapTwice(1, Num(c) + d, -2_0000_0000);
    WrapsOff(Num(c) + d - 2_0000_0000, 1_0000_0000);
  }

  lemma SmallIsClose(s: string, a: nat, f: nat, k: nat)
    requires a < |s| && f + k <= |s| && IsDigit(s[a]) && AllDigits(s[f..f + k]) && s[a] < '5'
    ensures var mant := Rounded(Unsigned(s[a] as int - '0' as int), s, f, k, 8);
            mant < HALF && Close(mant, Num(s[a..a + 1] + s[f..f + k]), k, 8)
  {
    var g := s[a..a + 1];
    OneDigit(g);
    RoundedIsClose(g, s, f, k, 8);
    CloseBound(Rounded(Num(g), s, f, k, 8), g, s[f..f + k], 8);
    PowNine();
    FourAtMost(Num(g));
  }

  lemma FourAtMost(n: nat)
    requires n <= 4
    ensures (n + 1) * 1_0000_0000 < HALF
  {
  }

  lemma OneDigit(g: string)
    requires |g| == 1 && IsDigit(g[0])
    ensures Num(g) == Digit(g[0]) == g[0] as int - '0' as int && Unsigned(g[0] as int - '0' as int) == Num(g)
    ensures AllDigits(g)
  {
    assert g == [] + [g[0]];
    NumMore([], g[0]);
  }

  /** __30_1_get_s: up to five integral digits and four places. */
  method ReadMedium(s: string, a: nat, n: nat, f: nat, k: nat) returns (mant: nat)
    requires n <= 5 && a + n <= |s| && f + k <= |s| && AllDigits(s[a..a + n]) && AllDigits(s[f..f + k])
    requires n < 5 || s[a] < '5'
    ensures mant < HALF && Close(mant, Num(s[a..a + n] + s[f..f + k]), k, 4)
    ensures n == 0 && k == 0 ==> mant == 0
  {
    ghost var g := s[a..a + n];
    var res := ReadDigits(0, s, a, n);
    PlainDigits(g);
    mant := ReadFraction(res, s, f, k, 4);
    RoundedIsClose(g, s, f, k, 4);
    CloseBound(mant, g, s[f..f + k], 4);
    MediumFits(g);
    if n == 0 && k == 0 {
      NoDigits(s, f);
    }
  }

  lemma NoDigits(s: string, f: nat)
    requires f <= |s|
    ensures Rounded(0, s, f, 0, 4) == 0
  {
    assert s[f..f + Min(0, 4)] == [];
    assert Scaled(0, 1) == 0 && Scaled(0, 2) == 0 && Scaled(0, 3) == 0 && Scaled(0, 4) == 0;
  }

  lemma MediumFits(g: string)
    requires AllDigits(g) && (|g| < 5 || (|g| == 5 && g[0] < '5'))
    ensures (Num(g) + 1) * Pow10(4) < HALF
  {
    PowNine();
    NumBound(g);
    if |g| == 5 {
      NumLeads(g);
      assert IsDigit(g[0]);
      AtMost(Digit(g[0]) + 1, 5, Pow10(4));
    } else {
      PowUpto(|g|, 4);
    }
  }

  lemma AtMost(a: nat, b: nat, p: nat)
    requires a <= b
    ensures a * p <= b * p
  {
  }

  /** Up to nine digits read into nothing are their number. */
  lemma PlainDigits(g: string)
    requires AllDigits(g) && |g| <= 9
    ensures Accumulate(0, g) == Num(g)
  {
    AccumulateIsNum([], g);
    assert [] + g == g;
  }

  /** __30_23_get_s. */
  method ReadLarge(s: string, a: nat, n: nat) returns (mant: nat)
    requires a + n <= |s| && AllDigits(s[a..a + n])
    ensures n <= 9 ==> mant == Num(s[a..a + n])
    ensures mant == Unsigned(Num(s[a..a + n]))
  {
    mant := ReadDigits(0, s, a, n);
    AccumulateWraps(0, s[a..a + n]);
    if n <= 9 {
      PlainDigits(s[a..a + n]);
    }
  }

  lemma EightFit(g: string)
    requires AllDigits(g) && |g| <= 8
    ensures Num(g) < HALF
  {
    NumBound(g);
    PowUpto(|g|, 8);
    PowNine();
  }

  /** Digits for a number below 5368709120000, the first that is too large, and no more than three
      behind a point that comes first. */
  ghost predicate Fits(g: string, t: string) {
    1 <= |g| <= 12 || (|g| == 13 && Num(g[..9]) < HALF) || (g == [] && |t| < 4)
  }

  /** What becomes of a number in any case: two too low behind a point that comes first, and
      wrapped around when it is large. */
  ghost predicate ReadAnyhow(expo: nat, mant: nat, g: string, t: string) {
    && (Fits(g, t) ==> mant < HALF && Reads(expo, mant, g, t))
    && (g == [] && |t| >= 4 ==> TwoLow(mant, t))
    && (|g| >= 8 ==> mant == Unsigned(Num(g[..|g| - 4])))
    && (g == [] && t == [] ==> mant == 0)
  }

  /** Picks the exponent and reads the digits. */
  method ReadParts(s: string, a: nat, n: nat, f: nat, k: nat) returns (expo: nat, mant: nat)
    requires a + n <= |s| && f + k <= |s| && AllDigits(s[a..a + n]) && AllDigits(s[f..f + k])
    requires n == 0 && k > 0 ==> CharAt(s, a) == '.'
    ensures expo == ExpoFor(n, k, CharAt(s, a)) < 4
    ensures ReadAnyhow(expo, mant, s[a..a + n], s[f..f + k])
  {
    if k >= 4 && n <= 1 && CharAt(s, a) < '5' {
      expo := 0;
      mant := ReadSmall(s, a, n, f, k);
    } else if n < 5 || (n == 5 && CharAt(s, a) < '5') {
      expo := 1;
      mant := ReadMedium(s, a, n, f, k);
    } else if n >= 8 {
      expo := 3;
      FrontDigits(s, a, n, n - 4);
      mant := ReadLarge(s, a, n - 4);
      if n <= 12 {
        EightFit(s[a..a + (n - 4)]);
      }
    } else {
      expo := 2;
      mant := ReadLarge(s, a, n);
      EightFit(s[a..a + n]);
    }
  }

  lemma FrontDigits(s: string, a: nat, n: nat, m: nat)
    requires a + n <= |s| && AllDigits(s[a..a + n]) && m <= n
    ensures s[a..a + n][..m] == s[a..a + m] && AllDigits(s[a..a + m])
  {
    var g := s[a..a + n];
    assert forall i {:trigger s[a..a + m][i]} :: 0 <= i < m ==> s[a..a + m][i] == g[i];
  }

  /** ffff_m30_get_s. */
  method GetS(s: string) returns (r: M30, used: nat)
    ensures Sound(r)
    ensures Special(s) ==> r == MKT && used == 3
    ensures !Special(s) ==> used == End(s) && ReadAs(r, s)
  {
    var neg := CharAt(s, 0) == '-';
    var a := Start(s);
    if CharAt(s, a) == 'm' && CharAt(s, a + 1) == 'k' && CharAt(s, a + 2) == 't' {
      return MKT, 3;
    }
    var expo, mant;
    expo, mant, used := GetNumber(s);
    r := M30(expo, Trunc30(mant));
    if neg {
      r := M30(expo, Trunc30(-r.mant));
    }
    SignedReading(r, expo, mant, neg, s, Integral(s), Fraction(s));
  }

  /** The number behind the sign. */
  method GetNumber(s: string) returns (expo: nat, mant: nat, used: nat)
    ensures expo == ExpoFor(|Integral(s)|, |Fraction(s)|, CharAt(s, Start(s))) < 4 && used == End(s)
    ensures ReadAnyhow(expo, mant, Integral(s), Fraction(s))
  {
    var n, f, k;
    n, f, k, used := FindPoint(s);
    expo, mant := ReadParts(s, Start(s), n, f, k);
  }

  /** Where the digits are. */
  method FindPoint(s: string) returns (n: nat, f: nat, k: nat, p: nat)
    ensures Start(s) + n <= |s| && s[Start(s)..Start(s) + n] == Integral(s)
    ensures f + k <= |s| && s[f..f + k] == Fraction(s) && p == End(s)
    ensures n == 0 && k > 0 ==> CharAt(s, Start(s)) == '.'
  {
    n := ScanDigits(s, Start(s));
    p, f, k := Start(s) + n, Start(s) + n, 0;
    if CharAt(s, p) == '.' {
      f := p + 1;
      k := ScanDigits(s, f);
      p := f + k;
    }
  }

  lemma SignedReading(r: M30, expo: nat, mant: nat, neg: bool, s: string, g: string, t: string)
    requires expo == ExpoFor(|g|, |t|, CharAt(s, Start(s))) && g == Integral(s) && t == Fraction(s)
    requires ReadAnyhow(expo, mant, g, t)
    requires neg <==> CharAt(s, 0) == '-'
    requires r == M30(expo, if neg then Trunc30(-Trunc30(mant)) else Trunc30(mant))
    ensures ReadAs(r, s)
  {
    if mant < HALF {
      TruncFits(mant);
    }
    if g == [] && |t| >= 4 {
      SignedTwoLow(mant, t);
    }
    if |g| >= 8 {
      SignedWraps(Num(g[..|g| - 4]));
    }
  }

  lemma SignedTwoLow(mant: nat, t: string)
    requires TwoLow(mant, t)
    ensures var m := Trunc30(mant);
            -2_0000_0000 <= m <= -1_0000_0000 && Close(m + 2_0000_0000, Num(t), |t|, 8) && Trunc30(-m) == -m
  {
  }

  lemma SignedWraps(n: nat)
    ensures Trunc30(Unsigned(n)) == Trunc30(n) && Trunc30(-Trunc30(Unsigned(n))) == Trunc30(0 - n)
  {
    assert n == n / 0x1_0000_0000 * 0x1_0000_0000 + Unsigned(n);
    var q := (n + HALF) / (2 * HALF);
    assert n + HALF == q * (2 * HALF) + (n + HALF) % (2 * HALF);
    assert Trunc30(n) == n - q * (2 * HALF);
    Trunc30Off(Unsigned(n), 4 * (n / 0x1_0000_0000));
    Trunc30Off(0 - n, q);
  }

  lemma Trunc30Off(x: int, q: int)
    ensures Trunc30(x + q * (2 * HALF)) == Trunc30(x)
  {
    assert (x + HALF + q * 0x4000_0000) % 0x4000_0000 == (x + HALF) % 0x4000_0000;
  }

  lemma TruncFits(m: int)
    requires 0 <= m < HALF
    ensures Trunc30(m) == m && Trunc30(-m) == -m
  {
  }

  /** Marks a price that a proof looks into. */
  ghost predicate Looked(r: M30) { true }

  /** What r is when it has been read from s, out of sight until it is looked into. */
  ghost predicate ReadAs(r: M30, s: string) {
    forall u {:trigger Looked(u)} :: Looked(u) && u == r ==> ReadFrom(u, s)
  }

  function Signed(neg: bool, n: nat): int { if neg then 0 - n else n }

  ghost predicate ReadFrom(r: M30, s: string) {
    var g, t, m := Integral(s), Fraction(s), if CharAt(s, 0) == '-' then -r.mant else r.mant;
    && r.expo == ExpoFor(|g|, |t|, CharAt(s, Start(s)))
    && (Fits(g, t) ==> ReadsSigned(r.expo, m, g, t))
    && (g == [] && |t| >= 4 ==> -2_0000_0000 <= m < 0 && Close(m + 2_0000_0000, Num(t), |t|, 8))
    && (|g| >= 8 ==> r.mant == Trunc30(Signed(CharAt(s, 0) == '-', Num(g[..|g| - 4]))))
    && (g == [] && t == [] ==> m == 0)
  }

  ghost predicate ReadsSigned(expo: nat, m: int, g: string, t: string) { m >= 0 && Reads(expo, m, g, t) }

  /** A quarter with two digits behind the point. */
  method Quarter() returns (r: M30)
    ensures r == M30(1, 2500)
  {
    ghost var used;
    r, used := GetS(".25");
    QuarterParts(".25", "25");
    TwoPlaces(r);
  }

  /** With four digits, the reading is two too low. */
  method LongQuarter() returns (r: M30)
    ensures r == M30(0, -1_7500_0000)
  {
    ghost var used;
    r, used := GetS(".2500");
    QuarterParts(".2500", "2500");
    FourPlaces(r);
  }

  lemma QuarterParts(s: string, t: string)
    requires s == ['.'] + t && AllDigits(t)
    ensures Start(s) == 0 && CharAt(s, 0) == '.' && Integral(s) == [] && Fraction(s) == t && !Special(s)
  {
    assert DigitRun(s, 0) == 0;
    assert s[1..1 + |t|] == t;
    RunIs(s, 1, |t|);
  }

  lemma TwoPlaces(r: M30)
    requires ReadAs(r, ".25") && Start(".25") == 0 && CharAt(".25", 0) == '.'
    requires Integral(".25") == [] && Fraction(".25") == "25"
    ensures r == M30(1, 2500)
  {
    assert Looked(r) && Seen(r.mant);
    QuarterNumbers();
  }

  lemma FourPlaces(r: M30)
    requires ReadAs(r, ".2500") && Start(".2500") == 0 && CharAt(".2500", 0) == '.'
    requires Integral(".2500") == [] && Fraction(".2500") == "2500"
    ensures r == M30(0, -1_7500_0000)
  {
    assert Looked(r) && Seen(r.mant + 2_0000_0000);
    QuarterNumbers();
  }

  lemma QuarterNumbers()
    ensures [] + "25" == "25" && Num("25") == 25 && Num("2500") == 2500 && Pow10(2) == 100
    ensures Pow10(4) == 1_0000 && Pow10(8) == 1_0000_0000
  {
    PowNine();
    assert NumUpto("25", 1) == 2;
    assert NumUpto("2500", 1) == 2 && NumUpto("2500", 2) == 25 && NumUpto("2500", 3) == 250;
  }

  /** Larger prices lose what is below their unit. */
  lemma LargeRoundsDown(expo: nat, m: nat, g: string, t: string)
    requires AllDigits(g) && AllDigits(t) && expo >= 2 && Reads(expo, m, g, t)
    ensures RoundedDown(m, Num(g + t), |t| + if expo == 2 then 0 else 4)
  {
    if expo == 2 {
      FrontRoundsDown(g, t);
    } else {
      var d := LastFour(g, t);
      FrontRoundsDown(g[..|g| - 4], d);
    }
  }

  lemma LastFour(g: string, t: string) returns (d: string)
    requires AllDigits(g) && AllDigits(t) && |g| >= 4
    ensures AllDigits(d) && |d| == |t| + 4 && g + t == g[..|g| - 4] + d
  {
    var c := g[|g| - 4..];
    assert forall i {:trigger c[i]} :: 0 <= i < |c| ==> c[i] == g[|g| - 4 + i];
    d := c + t;
    JoinDigits(c, t);
    assert g == g[..|g| - 4] + c;
  }

  lemma FrontRoundsDown(g: string, t: string)
    requires AllDigits(t)
    ensures RoundedDown(Num(g), Num(g + t), |t|)
  {
    NumConcat(g, t);
    NumBound(t);
    Successor(Num(g), Pow10(|t|));
  }

  // ---------------------------------------------------------------- prices to strings

  lemma ReversedFront(c: char, s: string)
    ensures Reversed([c] + s) == Reversed(s) + [c]
  {
  }

  lemma ReversedTwice(s: string)
    ensures Reversed(Reversed(s)) == s
  {
  }

  /** strrev. */
  method StrRev(s: string) returns (r: string)
    ensures r == Reversed(s)
  {
    r := s;
    var tgt, src := 0, |s| - 1;
    while src > tgt
      invariant tgt + src == |s| - 1 && 0 <= tgt <= src + 1 && |r| == |s|
      invariant forall i {:trigger r[i]} :: 0 <= i < |s| ==> r[i] == if i < tgt || i > src then s[|s| - 1 - i] else s[i]
    {
      r := r[tgt := r[src]][src := r[tgt]];
      tgt, src := tgt + 1, src - 1;
    }
  }

  function DigitChar(v: int): char
    requires -10 < v < 10
  {
    ('0' as int + v) as char
  }

  /** One more digit in front. */
  lemma DigitFront(d: nat, s: string)
    requires d < 10 && AllDigits(s)
    ensures Num([DigitChar(d)] + s) == d * Pow10(|s|) + Num(s) && AllDigits([DigitChar(d)] + s)
  {
    var c := [DigitChar(d)];
    DigitAlone(d);
    DigitsFront(DigitChar(d), s);
    NumConcat(c, s);
  }

  lemma DigitAlone(d: nat)
    requires d < 10
    ensures IsDigit(DigitChar(d)) && AllDigits([DigitChar(d)]) && Num([DigitChar(d)]) == d
  {
    assert [DigitChar(d)] == [] + [DigitChar(d)];
    NumMore([], DigitChar(d));
  }

  lemma DigitsFront(c: char, s: string)
    requires IsDigit(c) && AllDigits(s)
    ensures AllDigits([c] + s)
  {
  }

  /** The lowest n digits of v, the last one first, and what is left. */
  method LowDigits(v0: nat, n: nat) returns (tmp: string, v: nat, ghost t: string)
    ensures tmp == Reversed(t) && |t| == n && AllDigits(t) && v0 == v * Pow10(n) + Num(t)
  {
    tmp, v, t := [], v0, [];
    for i := 0 to n
      invariant tmp == Reversed(t) && |t| == i && AllDigits(t) && v0 == v * Pow10(i) + Num(t)
    {
      var d := v % 10;
      DigitFront(d, t);
      ReversedFront(DigitChar(d), t);
      DigitTaken(v, Pow10(i), Num(t));
      tmp := tmp + [DigitChar(d)];
      t := [DigitChar(d)] + t;
      v := v / 10;
    }
  }

  lemma DigitTaken(v: nat, p: nat, t: nat)
    ensures v * p + t == (v / 10) * (10 * p) + ((v % 10) * p + t)
  {
    var q, d := v / 10, v % 10;
    assert v == 10 * q + d;
    assert (10 * q + d) * p == q * (10 * p) + d * p;
  }

  /** All digits of v, at least one, behind what is there; the first is 0 only if it is the only one. */
  method AllLeft(tmp0: string, v0: nat, ghost tail: string) returns (tmp: string, ghost g: string)
    requires tmp0 == Reversed(tail)
    ensures tmp == Reversed(g + tail) && g != [] && AllDigits(g) && Num(g) == v0 && (|g| > 1 ==> g[0] != '0')
  {
    var v := v0;
    tmp, g := tmp0, [];
    assert [] + tail == tail;
    while true
      invariant tmp == Reversed(g + tail) && AllDigits(g) && v0 == v * Pow10(|g|) + Num(g) && (g != [] ==> v > 0)
      decreases v
    {
      var d := v % 10;
      DigitFront(d, g);
      ReversedFront(DigitChar(d), g + tail);
      DigitTaken(v, Pow10(|g|), Num(g));
      tmp := tmp + [DigitChar(d)];
      assert [DigitChar(d)] + (g + tail) == ([DigitChar(d)] + g) + tail;
      g := [DigitChar(d)] + g;
      v := v / 10;
      if v == 0 {
        return;
      }
    }
  }

  function Abs(v: int): nat { if v < 0 then -v else v }

  function Places(expo: nat): nat { if expo == 0 then 8 else if expo == 1 then 4 else 0 }

  /** The number a price is printed as, without its point. */
  function Scale(m: M30): nat { if m.expo == 3 then Abs(m.mant) * 1_0000 else Abs(m.mant) }

  function Sign(m: M30): string { if m.mant < 0 then ['-'] else [] }

  /** The point and the fraction behind it. */
  function Behind(t: string): string { if t == [] then [] else ['.'] + t }

  /** buf is sign, integral digits and fraction of m. */
  ghost predicate PrintedAs(m: M30, buf: string, g: string, t: string) {
    && buf == Sign(m) + (g + Behind(t))
    && AllDigits(g) && AllDigits(t) && g != [] && (|g| > 1 ==> g[0] != '0')
    && |t| == (if m.mant == 0 then 0 else Places(m.expo)) && Num(g + t) == Scale(m)
  }

  /** The characters for a mantissa without its sign, the last one first. */
  method Magnitude(expo: nat, mant: nat) returns (tmp: string, ghost g: string, ghost t: string)
    requires expo < 4
    ensures tmp == Reversed(g + Behind(t)) && AllDigits(g) && AllDigits(t) && g != [] && |t| == Places(expo)
    ensures Num(g + t) == (if expo == 3 then mant * 1_0000 else mant)
    ensures mant > 0 && |g| > 1 ==> g[0] != '0'
  {
    if Places(expo) > 0 {
      tmp, g, t := WithFraction(mant, Places(expo));
    } else if expo == 3 {
      t := [];
      tmp, g := WithZeros(mant);
      assert g + t == g && g + Behind(t) == g;
    } else {
      t := [];
      assert Reversed("") == "";
      tmp, g := AllLeft([], mant, []);
      assert g + [] == g && g + Behind(t) == g && g + t == g;
    }
  }

  method WithFraction(mant: nat, places: nat) returns (tmp: string, ghost g: string, ghost t: string)
    requires places > 0
    ensures tmp == Reversed(g + Behind(t)) && AllDigits(g) && AllDigits(t) && g != [] && |t| == places
    ensures Num(g + t) == mant && (|g| > 1 ==> g[0] != '0')
  {
    var v;
    tmp, v, t := LowDigits(mant, places);
    ReversedFront('.', t);
    tmp := tmp + ['.'];
    tmp, g := AllLeft(tmp, v, ['.'] + t);
    NumConcat(g, t);
  }

  method WithZeros(mant: nat) returns (tmp: string, ghost g: string)
    ensures tmp == Reversed(g) && AllDigits(g) && g != []
    ensures Num(g) == mant * 1_0000 && (mant > 0 && |g| > 1 ==> g[0] != '0')
  {
    tmp := [];
    for i := 0 to 4
      invariant tmp == Zeros(i)
    {
      tmp := tmp + ['0'];
    }
    ZerosAreZero(4);
    ghost var h;
    tmp, h := AllLeft(tmp, mant, Zeros(4));
    g := h + Zeros(4);
    NumConcat(h, Zeros(4));
    PowNine();
    JoinDigits(h, Zeros(4));
    LeadingDigit(h, mant);
  }

  function Zeros(n: nat): string { if n == 0 then [] else Zeros(n - 1) + ['0'] }

  lemma {:induction false} ZerosAreZero(n: nat)
    ensures |Zeros(n)| == n && Num(Zeros(n)) == 0 && AllDigits(Zeros(n)) && Reversed(Zeros(n)) == Zeros(n)
    decreases n
  {
    if n > 0 {
      ZerosAreZero(n - 1);
      NumMore(Zeros(n - 1), '0');
      OnlyZeros(n);
    }
  }

  lemma {:induction false} OnlyZeros(n: nat)
    ensures |Zeros(n)| == n && forall i {:trigger Zeros(n)[i]} :: 0 <= i < n ==> Zeros(n)[i] == '0'
    decreases n
  {
    if n > 0 {
      OnlyZeros(n - 1);
    }
  }

  lemma LeadingDigit(h: string, v: nat)
    requires AllDigits(h) && h != [] && Num(h) == v && (|h| > 1 ==> h[0] != '0')
    ensures v > 0 ==> h[0] != '0'
  {
    if |h| == 1 {
      OneDigit(h);
    }
  }

  /** ffff_m30_s. */
  method Print(m: M30) returns (buf: string, ghost g: string, ghost t: string)
    requires Sound(m)
    ensures m == MKT ==> buf == ['m', 'k', 't']
    ensures m != MKT && m.mant == -HALF ==> buf == LeastPrinted(m.expo)
    ensures m.mant != -HALF ==> PrintedAs(m, buf, g, t)
  {
    g, t := [], [];
    if m == MKT {
      buf := ['m', 'k', 't'];
      return;
    }
    var sign := m.mant < 0;
    var mant := if sign then Trunc30(-m.mant) else m.mant;
    if mant == 0 {
      buf, g, t := ['0'], ['0'], [];
      ZeroPrinted(m);
      return;
    }
    if mant < 0 {
      buf := PrintLeast(m.expo);
      return;
    }
    var tmp;
    tmp, g, t := Magnitude(m.expo, mant);
    buf := SignAndReverse(tmp, sign, m, g + Behind(t));
    PrintedNow(m, mant, buf, g + Behind(t), g, t);
  }

  /** What is left of the least mantissa after i divisions by ten. */
  function LeastLeft(i: nat): int {
    if i == 0 then -536870912 else if i == 1 then -53687091 else if i == 2 then -5368709 else if i == 3 then -536870
    else if i == 4 then -53687 else if i == 5 then -5368 else if i == 6 then -536 else if i == 7 then -53
    else if i == 8 then -5 else 0
  }

  lemma LeastDivided(i: nat)
    ensures CDiv(LeastLeft(i), 10) == LeastLeft(i + 1)
    ensures -10 < CMod(LeastLeft(i), 10) <= 0 && (i == 8 ==> CMod(LeastLeft(i), 10) == -5)
  {
  }

  /** The characters that stand for its digits 536870912. */
  function LeastChars(): (s: string)
    ensures |s| == 9
  {
    ['+', '-', '*', '(', ')', '0', '\'', '/', '.']
  }

  /** What is printed from the point on. */
  function LeastBehind(p: nat): string
    requires p <= 8
  {
    if p == 0 then [] else ['.'] + LeastChars()[9 - p..]
  }

  /** What is printed for the least mantissa. */
  function LeastPrinted(expo: nat): string
    requires expo < 3
  {
    ['-'] + (LeastChars()[..9 - Places(expo)] + LeastBehind(Places(expo)))
  }

  lemma LeastChar(i: nat)
    requires i < 9
    ensures -10 < CMod(LeastLeft(i), 10) < 10 && DigitChar(CMod(LeastLeft(i), 10)) == LeastChars()[8 - i]
    ensures CDiv(LeastLeft(i), 10) == LeastLeft(i + 1) && (LeastLeft(i + 1) == 0 <==> i == 8)
  {
    LeastDivided(i);
  }

  /** One more character in front. */
  lemma LeastFront(i: nat, n: nat, b: string)
    requires i < 9 && 9 - i <= n <= 9
    ensures Reversed(LeastChars()[8 - i..n] + b) == Reversed(LeastChars()[9 - i..n] + b) + [LeastChars()[8 - i]]
  {
    var c := LeastChars();
    assert c[8 - i..n] + b == [c[8 - i]] + (c[9 - i..n] + b);
    ReversedFront(c[8 - i], c[9 - i..n] + b);
  }

  /** The same for the mantissa whose negative does not fit: its remainders are negative, and the
      characters are not digits. */
  method PrintLeast(expo: nat) returns (buf: string)
    requires expo < 3
    ensures buf == LeastPrinted(expo)
  {
    var tmp, mant := LeastFraction(Places(expo));
    tmp := LeastIntegral(tmp, mant, Places(expo));
    tmp := tmp + ['-'];
    LeastReversed(Places(expo), LeastChars()[..9 - Places(expo)] + LeastBehind(Places(expo)), tmp);
    buf := StrRev(tmp);
  }

  lemma LeastReversed(p: nat, body: string, tmp: string)
    requires tmp == Reversed(body) + ['-']
    ensures Reversed(tmp) == ['-'] + body
  {
    ReversedFront('-', body);
    ReversedTwice(['-'] + body);
  }

  method LeastFraction(p: nat) returns (tmp: string, mant: int)
    requires p <= 8
    ensures tmp == Reversed(LeastBehind(p)) && mant == LeastLeft(p)
  {
    tmp, mant := [], -HALF;
    assert LeastChars()[9..9] + [] == [];
    for i := 0 to p
      invariant mant == LeastLeft(i) && tmp == Reversed(LeastChars()[9 - i..9] + [])
    {
      LeastChar(i);
      LeastFront(i, 9, []);
      tmp := tmp + [DigitChar(CMod(mant, 10))];
      mant := CDiv(mant, 10);
    }
    assert LeastChars()[9 - p..9] + [] == LeastChars()[9 - p..];
    if p > 0 {
      tmp := tmp + ['.'];
      ReversedFront('.', LeastChars()[9 - p..]);
    }
  }

  method LeastIntegral(tmp0: string, mant0: int, ghost p: nat) returns (tmp: string)
    requires p <= 8 && mant0 == LeastLeft(p) && tmp0 == Reversed(LeastBehind(p))
    ensures tmp == Reversed(LeastChars()[..9 - p] + LeastBehind(p))
  {
    var mant := mant0;
    tmp := tmp0;
    ghost var j := p;
    assert LeastChars()[9 - p..9 - p] + LeastBehind(p) == LeastBehind(p);
    while true
      invariant p <= j <= 8 && mant == LeastLeft(j) && tmp == Reversed(LeastChars()[9 - j..9 - p] + LeastBehind(p))
      decreases 9 - j
    {
      LeastChar(j);
      LeastFront(j, 9 - p, LeastBehind(p));
      tmp := tmp + [DigitChar(CMod(mant, 10))];
      mant := CDiv(mant, 10);
      if mant == 0 {
        break;
      }
      j := j + 1;
    }
    assert LeastChars()[0..9 - p] == LeastChars()[..9 - p];
  }

  /** The sign, and everything the other way around. */
  method SignAndReverse(tmp0: string, sign: bool, ghost m: M30, ghost body: string) returns (buf: string)
    requires tmp0 == Reversed(body) && (sign <==> m.mant < 0)
    ensures buf == Sign(m) + body
  {
    var tmp := tmp0;
    SignBehind(m, body);
    if sign {
      tmp := tmp + ['-'];
    }
    buf := StrRev(tmp);
    ReversedTwice(Sign(m) + body);
  }

  lemma PrintedNow(m: M30, mant: nat, buf: string, body: string, g: string, t: string)
    requires m.expo < 4 && mant > 0 && mant == Abs(m.mant) && buf == Sign(m) + body && body == g + Behind(t)
    requires AllDigits(g) && AllDigits(t) && g != [] && (|g| > 1 ==> g[0] != '0') && |t| == Places(m.expo)
    requires Num(g + t) == (if m.expo == 3 then mant * 1_0000 else mant)
    ensures PrintedAs(m, buf, g, t)
  {
  }

  lemma SignBehind(m: M30, body: string)
    ensures Reversed(Sign(m) + body) == if m.mant < 0 then Reversed(body) + ['-'] else Reversed(body)
  {
    if m.mant < 0 {
      ReversedFront('-', body);
    } else {
      assert [] + body == body;
    }
  }

  lemma ZeroPrinted(m: M30)
    requires m.mant == 0 && m.expo < 4
    ensures PrintedAs(m, ['0'], ['0'], [])
  {
    NumMore([], '0');
    assert [] + ['0'] == ['0'] && ['0'] + [] == ['0'] && [] + (['0'] + Behind([])) == ['0'];
  }

  // ---------------------------------------------------------------- there and back

  /** Prices that printing and reading keep. */
  predicate Kept(m: M30) {
    match m.expo
    case 0 => Abs(m.mant) < 5_0000_0000 || m.mant % 1_0000 == 0
    case 1 => Abs(m.mant) < 5_0000_0000 || m.mant % 1_0000 == 0
    case 2 => Abs(m.mant) < 1000_0000 || m.mant % 1_0000 == 0
    case _ => true
  }

  lemma {:induction false} RunIs(s: string, a: nat, n: nat)
    requires a + n <= |s| && AllDigits(s[a..a + n]) && !IsDigit(CharAt(s, a + n))
    ensures DigitRun(s, a) == n
    decreases n
  {
    if n > 0 {
      assert s[a] == s[a..a + n][0];
      assert s[a + 1..a + n] == s[a..a + n][1..];
      RunIs(s, a + 1, n - 1);
    }
  }

  /** Where the parts of a printed number are. */
  ghost predicate LaidOut(s: string, a: nat, g: string, t: string) {
    && g != [] && AllDigits(g) && AllDigits(t) && a + |g| <= |s| && s[a..a + |g|] == g
    && (if t == [] then |s| == a + |g|
        else |s| == a + |g| + 1 + |t| && s[a + |g|] == '.' && s[a + |g| + 1..] == t)
  }

  lemma PrintedLaidOut(m: M30, s: string, g: string, t: string)
    requires PrintedAs(m, s, g, t) && m.expo < 4
    ensures LaidOut(s, |Sign(m)|, g, t) && s[|Sign(m)|] == g[0] && (m.mant < 0 ==> s[0] == '-')
  {
    Pieces(Sign(m), g, Behind(t));
    if t != [] {
      Pieces(Sign(m) + g, ['.'], t);
      assert (Sign(m) + g) + (['.'] + t) == s;
    }
  }

  lemma Pieces(p: string, g: string, b: string)
    requires g != []
    ensures var s := p + (g + b);
            s[|p|..|p| + |g|] == g && s[|p| + |g|..] == b && s[|p|] == g[0] && (p != [] ==> s[0] == p[0])
  {
  }

  lemma LaidOutRuns(s: string, a: nat, g: string, t: string)
    requires LaidOut(s, a, g, t)
    ensures DigitRun(s, a) == |g| && (t != [] ==> DigitRun(s, a + |g| + 1) == |t|)
    ensures CharAt(s, a + |g|) == if t == [] then '\0' else '.'
  {
    RunIs(s, a, |g|);
    if t != [] {
      assert s[a + |g| + 1..a + |g| + 1 + |t|] == t;
      RunIs(s, a + |g| + 1, |t|);
    }
  }

  /** A printed number is taken apart again. */
  lemma PrintedParts(m: M30, s: string, g: string, t: string)
    requires PrintedAs(m, s, g, t) && m.expo < 4
    ensures Start(s) == |Sign(m)| && (CharAt(s, 0) == '-' <==> m.mant < 0) && !Special(s)
    ensures Integral(s) == g && Fraction(s) == t && End(s) == |s| && CharAt(s, Start(s)) == g[0]
  {
    PrintedLaidOut(m, s, g, t);
    assert IsDigit(g[0]);
    LaidOutRuns(s, |Sign(m)|, g, t);
    PartsOf(s, |Sign(m)|, g, t);
  }

  lemma PartsOf(s: string, a: nat, g: string, t: string)
    requires LaidOut(s, a, g, t) && a == Start(s) && DigitRun(s, a) == |g|
    requires (t != [] ==> DigitRun(s, a + |g| + 1) == |t|)
    requires CharAt(s, a + |g|) == if t == [] then '\0' else '.'
    ensures Integral(s) == g && Fraction(s) == t && End(s) == |s|
  {
    if t != [] {
      assert s[a + |g| + 1..a + |g| + 1 + |t|] == t;
    }
  }

  lemma PowTable()
    ensures Pow10(0) == 1 && Pow10(1) == 10 && Pow10(2) == 100 && Pow10(3) == 1000 && Pow10(4) == 1_0000
    ensures Pow10(5) == 10_0000 && Pow10(6) == 100_0000 && Pow10(7) == 1000_0000 && Pow10(8) == 1_0000_0000
    ensures Pow10(9) == 10_0000_0000 && Pow10(12) == 1_0000_0000_0000 && Pow10(13) == 10_0000_0000_0000
  {
    assert Pow10(1) == 10;
    assert Pow10(2) == 100;
    assert Pow10(3) == 1000;
    assert Pow10(4) == 1_0000;
    PowSum(4, 4);
    PowSum(4, 1);
    PowSum(4, 2);
    PowSum(4, 3);
    PowSum(8, 1);
    PowSum(8, 4);
    PowSum(12, 1);
  }

  /** How many digits a number without leading zeros has, and whether its first one is below 5. */
  ghost predicate Sized(n: nat, v: nat, low: bool) {
    n > 0 && v < Pow10(n) && (n > 1 ==> Pow10(n - 1) <= v) && (low <==> v < 5 * Pow10(n - 1))
  }

  lemma GSized(g: string)
    requires AllDigits(g) && g != [] && (|g| > 1 ==> g[0] != '0')
    ensures Sized(|g|, Num(g), g[0] < '5')
  {
    NumBound(g);
    NumLeads(g);
    DigitIsDigit(g[0]);
    var d, p := Digit(g[0]), Pow10(|g| - 1);
    if g[0] != '0' {
      AtMost(1, d, p);
    }
    if d < 5 {
      AtMost(d + 1, 5, p);
    } else {
      AtMost(5, d, p);
    }
  }

  /** With so many digits before the point. */
  lemma SizeUpto(n: nat, v: nat, low: bool, most: nat)
    requires Sized(n, v, low) && v < Pow10(most) && most > 0
    ensures n <= most
  {
    if n > most {
      PowUpto(most, n - 1);
    }
  }

  /** The magnitude read back, in the unit that goes with its exponent. */
  function ValueOf(expo: nat, rm: nat): nat
    requires expo < 4
  {
    Value(M30(expo, rm))
  }

  lemma BackFromSmall(m: M30, expo: nat, rm: nat, n: nat, g: nat, low: bool)
    requires m.expo == 0 && m.mant != 0 && Sound(m) && Sized(n, g, low) && g == Abs(m.mant) / 1_0000_0000
    requires expo == (if n <= 1 && low then 0 else if n < 5 || (n == 5 && low) then 1 else if n >= 8 then 3 else 2)
    requires expo == 0 ==> WithinHalf(rm, Abs(m.mant), 8, 8)
    requires expo == 1 ==> WithinHalf(rm, Abs(m.mant), 8, 4)
    ensures expo < 2 && (ValueOf(expo, rm) == Abs(m.mant) <==> Kept(m))
  {
    PowTable();
    SizeUpto(n, g, low, 1);
    SmallBack(Abs(m.mant), expo, rm, low);
    SameRemainder(m.mant);
  }

  lemma SmallBack(a: nat, expo: nat, rm: nat, low: bool)
    requires low <==> a / 1_0000_0000 < 5
    requires expo == if low then 0 else 1
    requires expo == 0 ==> 0 <= 2 * (rm * 1_0000_0000 - a * 1_0000_0000) + 1_0000_0000 <= 2 * 1_0000_0000
    requires expo == 1 ==> 0 <= 2 * (rm * 1_0000_0000 - a * 1_0000) + 1_0000_0000 <= 2 * 1_0000_0000
    ensures ValueOf(expo, rm) == a <==> a < 5_0000_0000 || a % 1_0000 == 0
  {
  }

  lemma SameRemainder(v: int)
    ensures v % 1_0000 == 0 <==> Abs(v) % 1_0000 == 0
  {
  }

  lemma BackFromMedium(m: M30, expo: nat, rm: nat, n: nat, g: nat, low: bool)
    requires m.expo == 1 && m.mant != 0 && Sound(m) && Sized(n, g, low) && g == Abs(m.mant) / 1_0000
    requires expo == (if n <= 1 && low then 0 else if n < 5 || (n == 5 && low) then 1 else if n >= 8 then 3 else 2)
    requires expo == 0 ==> WithinHalf(rm, Abs(m.mant), 4, 8)
    requires expo == 1 ==> WithinHalf(rm, Abs(m.mant), 4, 4)
    requires expo == 2 ==> rm == g
    ensures expo < 3 && (ValueOf(expo, rm) == Abs(m.mant) * 1_0000 <==> Kept(m))
  {
    PowTable();
    SizeUpto(n, g, low, 5);
    SameRemainder(m.mant);
    if n < 5 {
      PowUpto(n, 4);
    }
  }

  lemma BackFromLarge(m: M30, expo: nat, rm: nat, n: nat, g: nat, low: bool)
    requires m.expo == 2 && m.mant != 0 && Sound(m) && Sized(n, g, low) && g == Abs(m.mant)
    requires expo == (if n < 5 || (n == 5 && low) then 1 else if n >= 8 then 3 else 2)
    requires expo == 1 ==> WithinHalf(rm, g, 0, 4)
    requires expo == 2 ==> rm == g
    requires expo == 3 ==> rm == g / 1_0000
    ensures ValueOf(expo, rm) == g * 1_0000_0000 <==> Kept(m)
  {
    PowTable();
    SameRemainder(m.mant);
    if n < 8 {
      PowUpto(n, 7);
    } else {
      PowUpto(7, n - 1);
    }
  }

  lemma BackFromHuge(m: M30, expo: nat, rm: nat, n: nat, g: nat, low: bool)
    requires m.expo == 3 && m.mant != 0 && Sound(m) && Sized(n, g, low) && g == Abs(m.mant) * 1_0000
    requires expo == (if n < 5 || (n == 5 && low) then 1 else if n >= 8 then 3 else 2)
    requires expo == 1 ==> WithinHalf(rm, g, 0, 4)
    requires expo == 2 ==> rm == g
    requires expo == 3 ==> rm == g / 1_0000
    ensures ValueOf(expo, rm) == g * 1_0000_0000
  {
    PowTable();
  }

  /** The integral digits of a printed price, as numbers. */
  lemma PrintedNumbers(m: M30, g: string, t: string)
    requires AllDigits(g) && AllDigits(t) && g != [] && |t| == Places(m.expo) && Num(g + t) == Scale(m) && m.expo < 4
    ensures Num(g) == if m.expo == 0 then Abs(m.mant) / 1_0000_0000 else if m.expo == 1 then Abs(m.mant) / 1_0000
          else Scale(m)
  {
    NumConcat(g, t);
    NumBound(t);
    PowTable();
    if m.expo >= 2 {
      assert g + t == g;
    }
  }

  /** The front digits of a number are that number divided. */
  lemma FrontDivides(g: string)
    requires AllDigits(g) && |g| >= 4
    ensures Num(g[..|g| - 4]) == Num(g) / 1_0000
  {
    var c, d := g[..|g| - 4], g[|g| - 4..];
    assert g == c + d;
    assert forall i {:trigger d[i]} :: 0 <= i < |d| ==> d[i] == g[|c| + i];
    NumConcat(c, d);
    NumBound(d);
    PowTable();
  }

  /** What is printed is within reach of reading. */
  lemma PrintedFits(m: M30, g: string)
    requires Sound(m) && AllDigits(g) && g != [] && (|g| > 1 ==> g[0] != '0')
    requires Num(g) <= Abs(m.mant) * 1_0000 && m.mant != -HALF
    ensures forall t :: Fits(g, t)
  {
    GSized(g);
    PowTable();
    SizeUpto(|g|, Num(g), g[0] < '5', 13);
    if |g| == 13 {
      FrontDivides(g);
    }
  }

  /** The exponent read for digits g and t, and the magnitude. */
  ghost predicate ReadBack(m: M30, expo: nat, rm: nat, g: string, t: string) {
    && Sound(m) && m.mant != 0 && AllDigits(g) && AllDigits(t) && g != [] && Sized(|g|, Num(g), g[0] < '5')
    && |t| == Places(m.expo) && Num(g + t) == Scale(m)
    && expo == ExpoFor(|g|, |t|, g[0]) && Reads(expo, rm, g, t)
  }

  lemma SmallReadBack(m: M30, expo: nat, rm: nat, g: string, t: string)
    requires ReadBack(m, expo, rm, g, t) && m.expo == 0
    ensures ValueOf(expo, rm) == Abs(m.mant) <==> Kept(m)
  {
    PrintedNumbers(m, g, t);
    assert Seen(rm);
    BackFromSmall(m, expo, rm, |g|, Num(g), g[0] < '5');
  }

  lemma MediumReadBack(m: M30, expo: nat, rm: nat, g: string, t: string)
    requires ReadBack(m, expo, rm, g, t) && m.expo == 1
    ensures expo < 4 && (ValueOf(expo, rm) == Abs(m.mant) * 1_0000 <==> Kept(m))
  {
    PrintedNumbers(m, g, t);
    assert Seen(rm);
    BackFromMedium(m, expo, rm, |g|, Num(g), g[0] < '5');
  }

  lemma LargeReadBack(m: M30, expo: nat, rm: nat, g: string, t: string)
    requires ReadBack(m, expo, rm, g, t) && m.expo == 2
    ensures expo < 4 && (ValueOf(expo, rm) == Abs(m.mant) * 1_0000_0000 <==> Kept(m))
  {
    PrintedNumbers(m, g, t);
    assert g + t == g;
    assert Seen(rm);
    if |g| >= 4 {
      FrontDivides(g);
    }
    BackFromLarge(m, expo, rm, |g|, Num(g), g[0] < '5');
  }

  lemma HugeReadBack(m: M30, expo: nat, rm: nat, g: string, t: string)
    requires ReadBack(m, expo, rm, g, t) && m.expo == 3
    ensures expo < 4 && ValueOf(expo, rm) == Abs(m.mant) * 1_0000_0000_0000
  {
    PrintedNumbers(m, g, t);
    assert g + t == g;
    assert Seen(rm);
    if |g| >= 4 {
      FrontDivides(g);
    }
    BackFromHuge(m, expo, rm, |g|, Num(g), g[0] < '5');
  }

  lemma MagnitudeBack(m: M30, expo: nat, rm: nat, g: string, t: string)
    requires ReadBack(m, expo, rm, g, t)
    ensures expo < 4 && (ValueOf(expo, rm) == Abs(Value(m)) <==> Kept(m))
  {
    if m.expo == 0 {
      SmallReadBack(m, expo, rm, g, t);
    } else if m.expo == 1 {
      MediumReadBack(m, expo, rm, g, t);
    } else if m.expo == 2 {
      LargeReadBack(m, expo, rm, g, t);
    } else {
      HugeReadBack(m, expo, rm, g, t);
    }
  }

  lemma SignedValue(m: M30, r: M30, rm: int)
    requires rm >= 0 && m.expo < 4 && r.expo < 4 && m.mant != 0 && r.mant == if m.mant < 0 then -rm else rm
    ensures Value(r) == Value(m) <==> ValueOf(r.expo, rm) == Abs(Value(m))
  {
  }

  lemma PrintedBack(m: M30, r: M30, s: string, g: string, t: string)
    requires Sound(m) && m.mant != -HALF && PrintedAs(m, s, g, t) && ReadAs(r, s) && Sound(r)
    ensures Value(r) == Value(m) <==> Kept(m)
  {
    PrintedParts(m, s, g, t);
    assert Looked(r);
    GSized(g);
    if m.mant == 0 {
      ZeroBack(r, g, t);
    } else {
      PrintedNumbers(m, g, t);
      PrintedFits(m, g);
      var rm := if m.mant < 0 then -r.mant else r.mant;
      MagnitudeBack(m, r.expo, rm, g, t);
      SignedValue(m, r, rm);
    }
  }

  lemma ZeroBack(r: M30, g: string, t: string)
    requires AllDigits(g) && g != [] && (|g| > 1 ==> g[0] != '0') && t == [] && Num(g + t) == 0
    requires r.expo == ExpoFor(|g|, |t|, g[0]) && (Fits(g, t) ==> r.mant >= 0 && Reads(r.expo, r.mant, g, t))
    ensures r.expo < 4 && Value(r) == 0
  {
    assert g + t == g;
    GSized(g);
    PowTable();
    if r.mant >= 0 {
      assert Seen(r.mant);
    }
  }

  /** Printing a price and reading it again: all of the string is read, and the value is kept if
      and only if its digits fit the exponent that so many digits get. */
  method PrintAndRead(m: M30) returns (buf: string, r: M30, used: nat)
    requires Sound(m)
    ensures Sound(r) && (Value(r) == Value(m) <==> Kept(m))
    ensures m.mant != -HALF || m == MKT ==> used == |buf|
  {
    ghost var g, t;
    buf, g, t := Print(m);
    r, used := GetS(buf);
    if m == MKT {
    } else if m.mant == -HALF {
      LeastBack(m, buf, r);
    } else {
      PrintedBack(m, r, buf, g, t);
      PrintedParts(m, buf, g, t);
    }
  }

  /** The characters printed for the least mantissa are read as 0. */
  lemma LeastBack(m: M30, s: string, r: M30)
    requires m.expo < 3 && m.mant == -HALF && s == LeastPrinted(m.expo) && ReadAs(r, s) && r.expo < 4
    ensures Value(r) == 0 != Value(m) && !Kept(m)
  {
    assert s[0] == '-' && s[1] == '+';
    assert Looked(r);
    assert DigitRun(s, 1) == 0;
    assert Integral(s) == [] && Fraction(s) == [];
  }
}
