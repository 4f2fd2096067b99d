/** Ticks of one, two or four sandwiches in a row (src/scommon.h). */
module Ticks {
  import opened Merging

  /** 16 bytes: a key (or the front half of a continuation) and a satellite. */
  datatype Sndwch = Sndwch(key: nat, sat: nat)

  type Tick = seq<Sndwch>

  /** scom_tick_size: the tick type is in the 6 low bits of the key; flag 16 stands for double
      size, else flag 32 for quadruple size. */
  function TickSize(key: nat): (n: nat)
    ensures 1 <= n <= 4
  {
    if key / 16 % 4 == 0 then 1 else if key / 16 % 2 == 1 then 2 else 4
  }

  /** The size by what is in the 6 low bits. */
  lemma SizeByType(key: nat)
    ensures TickSize(key) == if key % 64 < 16 then 1 else if 32 <= key % 64 < 48 then 4 else 2
  {
    Flags(key / 64, key % 64);
  }

  lemma Flags(q: nat, r: nat)
    requires r < 64
    ensures (64 * q + r) / 16 % 4 == r / 16 && (64 * q + r) / 16 % 2 == r / 16 % 2
  {
    var a := r / 16;
    Quotient(64 * q + r, 16, 4 * q + a, r % 16);
    Quotient(4 * q + a, 4, q, a);
    Quotient(4 * q + a, 2, 2 * q + a / 2, a % 2);
  }

  lemma Quotient(x: nat, d: nat, c: nat, b: nat)
    requires b < d && x == d * c + b
    ensures x / d == c && x % d == b
  {
    if x / d < c {
      Below(d, x / d, c);
    } else if c < x / d {
      Below(d, c, x / d);
    }
  }

  lemma {:induction false} Below(d: nat, m: nat, n: nat)
    requires m < n
    ensures d * m + d <= d * n
    decreases n
  {
    if m < n - 1 {
      Below(d, m, n - 1);
    }
  }

  predicate GoodTick(t: Tick) { t != [] && t[0].key != 0 && |t| == TickSize(t[0].key) }

  ghost predicate GoodTicks(ts: seq<Tick>) { forall i {:trigger ts[i]} :: 0 <= i < |ts| ==> GoodTick(ts[i]) }

  function TickKey(): Tick -> int { (t: Tick) => if t == [] then 0 else t[0].key }

  /** A page taken apart into its ticks. */
  function TicksOf(s: seq<Sndwch>): seq<Tick> {
    if s == [] then [] else
    var n := TickSize(s[0].key);
    if n >= |s| then [s] else [s[..n]] + TicksOf(s[n..])
  }

  /** A page of whole ticks, none with key 0. */
  predicate WholeTicks(s: seq<Sndwch>) {
    s != [] ==> s[0].key != 0 && TickSize(s[0].key) <= |s| && WholeTicks(s[TickSize(s[0].key)..])
  }

  lemma {:induction false} WholeIsGood(s: seq<Sndwch>)
    requires WholeTicks(s)
    ensures GoodTicks(TicksOf(s)) && Flat(TicksOf(s)) == s
    decreases |s|
  {
    if s != [] {
      var n := TickSize(s[0].key);
      WholeIsGood(s[n..]);
      if n < |s| {
        var ts := TicksOf(s);
        assert ts[1..] == TicksOf(s[n..]);
        assert s == s[..n] + s[n..];
        assert forall i {:trigger ts[i]} :: 0 < i < |ts| ==> ts[i] == ts[1..][i - 1];
      } else {
        FlatOne(s);
      }
    }
  }

  lemma {:induction false} GoodIsWhole(ts: seq<Tick>)
    requires GoodTicks(ts)
    ensures WholeTicks(Flat(ts)) && TicksOf(Flat(ts)) == ts
    decreases |ts|
  {
    if ts != [] {
      GoodIsWhole(ts[1..]);
      var s, n := Flat(ts), |ts[0]|;
      assert s[..n] == ts[0] && s[n..] == Flat(ts[1..]) && s[0] == ts[0][0];
      FlatLonger(ts[1..]);
      assert ts == [ts[0]] + ts[1..];
      if n == |s| {
        assert ts[1..] == [] && s == ts[0];
      }
    }
  }

  lemma FlatLonger(ts: seq<Tick>)
    requires GoodTicks(ts)
    ensures |Flat(ts)| >= |ts|
    decreases |ts|
  {
    if ts != [] {
      FlatLonger(ts[1..]);
    }
  }

  /** The first tick on a page. */
  lemma FirstTick(s: seq<Sndwch>, a: nat, b: nat, ts: seq<Tick>)
    requires IsSlice(s, a, b, Flat(ts)) && GoodTicks(ts)
    ensures ts == [] <==> a == b
    ensures ts != [] ==> a + |ts[0]| <= b && s[a] == ts[0][0] && TickSize(s[a].key) == |ts[0]|
    ensures ts != [] ==>
              IsSlice(s, a, a + |ts[0]|, ts[0]) && IsSlice(s, a + |ts[0]|, b, Flat(ts[1..])) && GoodTicks(ts[1..])
  {
    SliceOf(s, a, b, Flat(ts));
    if ts != [] {
      SplitSlice(s, a, b, ts[0], Flat(ts[1..]));
      assert s[a] == s[a..a + |ts[0]|][0];
    }
  }

  lemma SplitSlice<T(!new)>(s: seq<T>, a: nat, b: nat, x: seq<T>, y: seq<T>)
    requires IsSlice(s, a, b, x + y)
    ensures IsSlice(s, a, a + |x|, x) && IsSlice(s, a + |x|, b, y) && s[a..a + |x|] == x && s[a + |x|..b] == y
  {
    SliceOf(s, a, b, x + y);
    var t := s[a..b];
    forall k | 0 <= k < |x| ensures s[a..a + |x|][k] == t[k] {}
    var u := s[a + |x|..b];
    forall k {:trigger u[k]} | 0 <= k < |y| ensures u[k] == t[|x| + k] {}
    SliceOf(s, a, a + |x|, x);
    SliceOf(s, a + |x|, b, y);
  }
}
