/** Substring search with a rolling sum (src/nifty.c): windows of the haystack whose XOR is that of
    the needle are compared but for their last char. */
module Search {
  import opened Basics

  /** A signed char. */
  type Char = c: int | -0x80 <= c < 0x80

  const BITS: nat := 32

  /** An unsigned int with a char's value, the sign spread. */
  function Extend(c: Char): nat { if c < 0 then c + 0x1_0000_0000 else c }

  /** Exclusive or of the lowest n bits. */
  function Xor(a: nat, b: nat, n: nat): nat {
    if n == 0 then 0 else 2 * Xor(a / 2, b / 2, n - 1) + if a % 2 == b % 2 then 0 else 1
  }

  function X(a: nat, b: nat): nat { Xor(a, b, BITS) }

  function Low(a: nat, n: nat): nat { if n == 0 then 0 else 2 * Low(a / 2, n - 1) + a % 2 }

  lemma {:induction false} XorAssociates(a: nat, b: nat, c: nat, n: nat)
    ensures Xor(Xor(a, b, n), c, n) == Xor(a, Xor(b, c, n), n)
    decreases n
  {
    if n > 0 {
      XorAssociates(a / 2, b / 2, c / 2, n - 1);
    }
  }

  lemma {:induction false} XorCancels(a: nat, b: nat, n: nat)
    ensures Xor(Xor(a, b, n), a, n) == Low(b, n)
    decreases n
  {
    if n > 0 {
      XorCancels(a / 2, b / 2, n - 1);
    }
  }

  lemma {:induction false} XorIsLow(a: nat, b: nat, n: nat)
    ensures Low(Xor(a, b, n), n) == Xor(a, b, n)
    decreases n
  {
    if n > 0 {
      XorIsLow(a / 2, b / 2, n - 1);
    }
  }

  lemma {:induction false} LowIsSame(a: nat, n: nat)
    requires a < Pow2(n)
    ensures Low(a, n) == a
    decreases n
  {
    if n > 0 {
      LowIsSame(a / 2, n - 1);
    }
  }

  lemma ExtendFits(c: Char)
    ensures Low(Extend(c), BITS) == Extend(c)
  {
    assert Pow2(10) == 1024;
    assert Pow2(20) == 1024 * 1024;
    assert Pow2(30) == 1024 * 1024 * 1024;
    assert Pow2(BITS) == 0x1_0000_0000;
    LowIsSame(Extend(c), BITS);
  }

  /** The XOR of the chars of s. */
  function Sum(s: seq<Char>): nat { if s == [] then 0 else X(Sum(s[..|s| - 1]), Extend(s[|s| - 1])) }

  predicate At(hay: seq<Char>, ndl: seq<Char>, k: nat) { k + |ndl| <= |hay| && hay[k..k + |ndl|] == ndl }

  /** No occurrence starts before k. */
  ghost predicate NoneBefore(hay: seq<Char>, ndl: seq<Char>, k: nat) {
    forall i: nat {:trigger At(hay, ndl, i)} :: i < k ==> !At(hay, ndl, i)
  }

  lemma SumMore(s: seq<Char>, c: Char)
    ensures Sum(s + [c]) == X(Sum(s), Extend(c))
  {
    assert (s + [c])[..|s|] == s;
  }

  lemma SumIsLow(s: seq<Char>)
    ensures Low(Sum(s), BITS) == Sum(s)
  {
    if s == [] {
      LowIsSame(0, BITS);
    } else {
      XorIsLow(Sum(s[..|s| - 1]), Extend(s[|s| - 1]), BITS);
    }
  }

  lemma {:induction false} XorLow(x: nat, n: nat)
    ensures Xor(x, 0, n) == Low(x, n) == Xor(0, x, n)
    decreases n
  {
    if n > 0 {
      XorLow(x / 2, n - 1);
    }
  }

  lemma {:induction false} SumOfFirst(c: Char, s: seq<Char>)
    ensures Sum([c] + s) == X(Extend(c), Sum(s))
    decreases |s|
  {
    if s == [] {
      assert [] + [c] == [c] + s;
      SumMore([], c);
      ExtendFits(c);
      XorLow(Extend(c), BITS);
    } else {
      var l, d := s[..|s| - 1], s[|s| - 1];
      SumOfFirst(c, l);
      assert [c] + s == ([c] + l) + [d];
      SumMore([c] + l, d);
      XorAssociates(Extend(c), Sum(l), Extend(d), BITS);
    }
  }

  /** Taking the first char of a window out of its sum and the one behind it in moves it on by one. */
  lemma SumSlides(hay: seq<Char>, i: nat, j: nat)
    requires i < j < |hay|
    ensures Sum(hay[i + 1..j + 1]) == X(X(Sum(hay[i..j]), Extend(hay[i])), Extend(hay[j]))
  {
    var w := hay[i + 1..j];
    assert hay[i..j] == [hay[i]] + w && hay[i + 1..j + 1] == w + [hay[j]];
    SumOfFirst(hay[i], w);
    SumMore(w, hay[j]);
    XorCancels(Extend(hay[i]), Sum(w), BITS);
    SumIsLow(w);
  }

  /** With equal sums the last chars are equal if all the others are. */
  lemma AllButLast(w: seq<Char>, ndl: seq<Char>)
    requires |w| == |ndl| > 0
    ensures w == ndl <==> Sum(w) == Sum(ndl) && w[..|w| - 1] == ndl[..|ndl| - 1]
  {
    var n := |w| - 1;
    assert w == w[..n] + [w[n]] && ndl == ndl[..n] + [ndl[n]];
    if Sum(w) == Sum(ndl) && w[..n] == ndl[..n] {
      SameLast(Sum(w[..n]), w[n], ndl[n]);
    }
  }

  lemma SameLast(a: nat, c: Char, d: Char)
    requires X(a, Extend(c)) == X(a, Extend(d))
    ensures c == d
  {
    XorCancels(a, Extend(c), BITS);
    XorCancels(a, Extend(d), BITS);
    ExtendFits(c);
    ExtendFits(d);
  }

  /** memchr. */
  method FirstOf(hay: seq<Char>, c: Char) returns (r: int)
    ensures -1 <= r < |hay| && (r == -1 ==> c !in hay) && (r >= 0 ==> hay[r] == c && c !in hay[..r])
  {
    for i := 0 to |hay|
      invariant c !in hay[..i]
    {
      if hay[i] == c {
        return i;
      }
    }
    return -1;
  }

  /** memcmp with 0. */
  predicate Same(a: seq<Char>, b: seq<Char>) { a == b }

  lemma StartsAlike(hay: seq<Char>, ndl: seq<Char>, i: nat)
    requires At(hay, ndl, i) && ndl != []
    ensures hay[i] == ndl[0]
  {
    assert hay[i..i + |ndl|][0] == hay[i];
  }

  lemma NoneWithout(hay: seq<Char>, ndl: seq<Char>, k: nat)
    requires ndl != [] && k <= |hay| && ndl[0] !in hay[..k]
    ensures NoneBefore(hay, ndl, k)
  {
    forall i: nat {:trigger At(hay, ndl, i)} | i < k ensures !At(hay, ndl, i) {
      assert hay[..k][i] == hay[i];
      if At(hay, ndl, i) {
        StartsAlike(hay, ndl, i);
        assert false;
      }
    }
  }

  /** xmemmem: the leftmost occurrence of the needle, or -1 if and only if there is none. */
  method Xmemmem(hay: seq<Char>, ndl: seq<Char>) returns (r: int)
    ensures r == -1 <==> forall k: nat :: !At(hay, ndl, k)
    ensures r != -1 ==> r >= 0 && At(hay, ndl, r) && NoneBefore(hay, ndl, r)
  {
    if |ndl| == 0 {
      assert At(hay, ndl, 0);
      return 0;
    }
    var h := FirstOf(hay, ndl[0]);
    if h == -1 {
      NoneWithout(hay, ndl, |hay|);
      return -1;
    }
    NoneWithout(hay, ndl, h);
    var whole, nsum, hsum, eqp := FirstWindow(hay, ndl, h);
    if !whole {
      TooShort(hay, ndl, h);
      return -1;
    }
    assert ndl[..|ndl|] == ndl;
    assert eqp <==> At(hay, ndl, h);
    if eqp {
      return h;
    }
    NoneOneMore(hay, ndl, h);
    r := Roll(hay, ndl, h, hsum, nsum);
  }

  /** The sums of the first n chars of the needle and of the haystack from h on, and whether those
      are equal char by char. */
  ghost predicate Summed(hay: seq<Char>, ndl: seq<Char>, h: nat, n: nat, nsum: nat, hsum: nat, eqp: bool) {
    && n <= |ndl| && h + n <= |hay|
    && nsum == Sum(ndl[..n]) && hsum == Sum(hay[h..h + n]) && (eqp <==> hay[h..h + n] == ndl[..n])
  }

  lemma SummedOne(hay: seq<Char>, ndl: seq<Char>, h: nat)
    requires h < |hay| && ndl != [] && hay[h] == ndl[0]
    ensures Summed(hay, ndl, h, 1, Extend(hay[h]), Extend(hay[h]), true)
  {
    assert hay[h..h + 1] == [] + [hay[h]] && ndl[..1] == [] + [ndl[0]];
    SumMore([], hay[h]);
    ExtendFits(hay[h]);
    XorLow(Extend(hay[h]), BITS);
  }

  lemma SummedMore(hay: seq<Char>, ndl: seq<Char>, h: nat, n: nat, nsum: nat, hsum: nat, eqp: bool)
    requires Summed(hay, ndl, h, n, nsum, hsum, eqp) && n < |ndl| && h + n < |hay|
    ensures Summed(hay, ndl, h, n + 1, X(nsum, Extend(ndl[n])), X(hsum, Extend(hay[h + n])), eqp
          && hay[h + n] == ndl[n])
  {
    var a, b := hay[h..h + n], ndl[..n];
    assert hay[h..h + n + 1] == a + [hay[h + n]] && ndl[..n + 1] == b + [ndl[n]];
    SumMore(a, hay[h + n]);
    SumMore(b, ndl[n]);
  }

  /** The first window, if the haystack is long enough. */
  method FirstWindow(hay: seq<Char>, ndl: seq<Char>, h: nat) returns (whole: bool, nsum: nat, hsum: nat, eqp: bool)
    requires h < |hay| && ndl != [] && hay[h] == ndl[0]
    ensures whole <==> h + |ndl| <= |hay|
    ensures whole ==> Summed(hay, ndl, h, |ndl|, nsum, hsum, eqp)
  {
    var hp, np := h + 1, 1;
    hsum, nsum, eqp := Extend(hay[h]), Extend(hay[h]), true;
    SummedOne(hay, ndl, h);
    while hp < |hay| && np < |ndl|
      invariant hp == h + np <= |hay| && np <= |ndl| && Summed(hay, ndl, h, np, nsum, hsum, eqp)
    {
      SummedMore(hay, ndl, h, np, nsum, hsum, eqp);
      hsum, nsum, eqp := X(hsum, Extend(hay[hp])), X(nsum, Extend(ndl[np])), eqp && hay[hp] == ndl[np];
      hp, np := hp + 1, np + 1;
    }
    whole := np == |ndl|;
  }

  /** The next window is the needle if and only if the sums and all but the last chars are equal. */
  lemma NextWindow(hay: seq<Char>, ndl: seq<Char>, cand: nat, hp: nat)
    requires ndl != [] && hp == cand + |ndl| < |hay|
    ensures Sum(hay[cand + 1..hp + 1]) == X(X(Sum(hay[cand..hp]), Extend(hay[cand])), Extend(hay[hp]))
    ensures At(hay, ndl, cand + 1) <==>
              Sum(hay[cand + 1..hp + 1]) == Sum(ndl) && Same(hay[cand + 1..cand + |ndl|], ndl[..|ndl| - 1])
  {
    SumSlides(hay, cand, hp);
    var w := hay[cand + 1..hp + 1];
    AllButLast(w, ndl);
    assert w[..|ndl| - 1] == hay[cand + 1..cand + |ndl|];
  }

  lemma NoneOneMore(hay: seq<Char>, ndl: seq<Char>, k: nat)
    requires NoneBefore(hay, ndl, k) && !At(hay, ndl, k)
    ensures NoneBefore(hay, ndl, k + 1)
  {
  }

  /** No occurrence begins so late that the needle does not fit. */
  lemma TooShort(hay: seq<Char>, ndl: seq<Char>, h: nat)
    requires NoneBefore(hay, ndl, h) && h + |ndl| > |hay|
    ensures forall k: nat :: !At(hay, ndl, k)
  {
  }

  /** The rest of the haystack, window by window. */
  method Roll(hay: seq<Char>, ndl: seq<Char>, h: nat, hsum0: nat, nsum: nat) returns (r: int)
    requires ndl != [] && h + |ndl| <= |hay| && hsum0 == Sum(hay[h..h + |ndl|]) && nsum == Sum(ndl)
    requires NoneBefore(hay, ndl, h + 1)
    ensures r == -1 <==> forall k: nat :: !At(hay, ndl, k)
    ensures r != -1 ==> r >= 0 && At(hay, ndl, r) && NoneBefore(hay, ndl, r)
  {
    var cand, hp, hsum := h, h + |ndl|, hsum0;
    while hp < |hay|
      invariant hp == cand + |ndl| <= |hay| && hsum == Sum(hay[cand..hp]) && NoneBefore(hay, ndl, cand + 1)
    {
      NextWindow(hay, ndl, cand, hp);
      hsum := X(hsum, Extend(hay[cand]));
      cand := cand + 1;
      hsum := X(hsum, Extend(hay[hp]));
      if hsum == nsum && Same(hay[cand..cand + |ndl| - 1], ndl[..|ndl| - 1]) {
        assert At(hay, ndl, cand);
        return cand;
      }
      NoneOneMore(hay, ndl, cand);
      hp := hp + 1;
    }
    TooShort(hay, ndl, cand + 1);
    return -1;
  }
}
