/** Candles from ticks (src/ute-chndl.c): open, high, low, close and count of each symbol's bids,
    asks and trades, interval by interval. */
module Candles {
  import opened Calendar

  datatype Side = Bids | Asks | Trades

  datatype Quote = Bid(p: nat) | Ask(p: nat) | Trade(p: nat) | BidAsk(bp: nat, ap: nat) | Other

  /** Prices are compared as the raw integers that hold them. */
  datatype Tick = Tick(sym: nat, sec: nat, q: Quote)

  datatype Ohlc = Ohlc(o: nat, h: nat, l: nat, c: nat)

  /** A candle with the number of ticks in it. */
  datatype Bar = Bar(v: Ohlc, cnt: nat)

  datatype XCand = XCand(bid: Bar, ask: Bar, tra: Bar)

  /** What goes into the output. */
  datatype Candle = Candle(sym: nat, side: Side, sta: int, ts: int, bar: Bar)

  const EMPTY := Bar(Ohlc(0, 0, 0, 0), 0)
  const CLEANSED := XCand(EMPTY, EMPTY, EMPTY)

  function BarOf(c: XCand, side: Side): Bar {
    match side
    case Bids => c.bid
    case Asks => c.ask
    case Trades => c.tra
  }

  // ---------------------------------------------------------------- what a candle should be

  /** The prices a tick gives on a side. */
  function PriceOf(q: Quote, side: Side): seq<nat> {
    match (q, side)
    case (Bid(p), Bids) => [p]
    case (Ask(p), Asks) => [p]
    case (Trade(p), Trades) => [p]
    case (BidAsk(bp, _), Bids) => [bp]
    case (BidAsk(_, ap), Asks) => [ap]
    case _ => []
  }

  /** A quote has a price on a side. */
  predicate Offers(q: Quote, side: Side) {
    match side
    case Bids => q.Bid? || q.BidAsk?
    case Asks => q.Ask? || q.BidAsk?
    case Trades => q.Trade?
  }

  /** It is p. */
  predicate Quotes(q: Quote, side: Side, p: nat) {
    match side
    case Bids => q == Bid(p) || (q.BidAsk? && q.bp == p)
    case Asks => q == Ask(p) || (q.BidAsk? && q.ap == p)
    case Trades => q == Trade(p)
  }

  lemma PriceIsQuoted(q: Quote, side: Side)
    ensures PriceOf(q, side) == [] <==> !Offers(q, side)
    ensures Offers(q, side) ==> |PriceOf(q, side)| == 1 && Quotes(q, side, PriceOf(q, side)[0])
    ensures forall p: nat {:trigger Quotes(q, side, p)} :: Quotes(q, side, p) ==> PriceOf(q, side) == [p]
  {
  }

  /** The prices of a symbol on a side among ticks from second a to before second b. */
  function Prices(ts: seq<Tick>, sym: nat, side: Side, a: int, b: int): seq<nat> {
    PricesUpto(ts, |ts|, sym, side, a, b)
  }

  /** Those of the first n ticks. */
  function PricesUpto(ts: seq<Tick>, n: nat, sym: nat, side: Side, a: int, b: int): seq<nat>
    requires n <= |ts|
  {
    if n == 0 then []
    else
      PricesUpto(ts, n - 1, sym, side, a, b) +
      if ts[n - 1].sym == sym && a <= ts[n - 1].sec < b then PriceOf(ts[n - 1].q, side) else []
  }

  /** First, largest, smallest, last and number of the prices. */
  ghost predicate Sums(b: Bar, ps: seq<nat>) {
    && b.cnt == |ps|
    && (ps != [] ==>
          && b.v.o == ps[0] && b.v.c == ps[|ps| - 1] && b.v.h in ps && b.v.l in ps
          && forall i {:trigger ps[i]} :: 0 <= i < |ps| ==> b.v.l <= ps[i] <= b.v.h)
  }

  // ---------------------------------------------------------------- pushing

  /** The code that xcand_push_l1t has for each side. */
  function PushSide(b: Bar, p: nat): Bar {
    var v := b.v.(c := p);
    var w := if b.cnt == 0 then Ohlc(p, p, p, p)
             else if p > v.h then v.(h := p)
             else if p < v.l then v.(l := p)
             else v;
    Bar(w, b.cnt + 1)
  }

  lemma PushSums(b: Bar, ps: seq<nat>, p: nat)
    requires Sums(b, ps)
    ensures Sums(PushSide(b, p), ps + [p])
  {
    var qs := ps + [p];
    assert qs[|ps|] == p;
    assert forall i {:trigger qs[i]} :: 0 <= i < |ps| ==> qs[i] == ps[i];
    if ps != [] {
      var i :| 0 <= i < |ps| && ps[i] == b.v.h;
      var j :| 0 <= j < |ps| && ps[j] == b.v.l;
      assert qs[i] == b.v.h && qs[j] == b.v.l;
    }
  }

  /** xcand_push for ticks that are not candles or snapshots themselves. */
  function Push(c: XCand, q: Quote): XCand {
    match q
    case Bid(p) => c.(bid := PushSide(c.bid, p))
    case Ask(p) => c.(ask := PushSide(c.ask, p))
    case Trade(p) => c.(tra := PushSide(c.tra, p))
    case BidAsk(bp, ap) => c.(bid := PushSide(c.bid, bp), ask := PushSide(c.ask, ap))
    case Other => c
  }

  lemma PushIsSum(c: XCand, q: Quote, side: Side, ps: seq<nat>)
    requires Sums(BarOf(c, side), ps)
    ensures Sums(BarOf(Push(c, q), side), ps + PriceOf(q, side))
  {
    if PriceOf(q, side) == [] {
      assert ps + PriceOf(q, side) == ps;
    } else {
      PushSums(BarOf(c, side), ps, PriceOf(q, side)[0]);
    }
  }

  // ---------------------------------------------------------------- intervals

  /** aligned_stamp and next_aligned_stamp. */
  function Aligned(ts: int, interval: int, offset: int): int
    requires interval > 0
  {
    ts - CMod(ts - offset, interval)
  }

  function NextAligned(ts: int, interval: int, offset: int): int
    requires interval > 0
  {
    Aligned(ts, interval, offset) + interval
  }

  /** A stamp is within the interval made for it if and only if it is not before the offset, or
      whole intervals before it. */
  lemma IntervalCovers(ts: int, interval: int, offset: int)
    requires interval > 0
    ensures ts < NextAligned(ts, interval, offset)
    ensures Aligned(ts, interval, offset) <= ts <==> ts >= offset || (offset - ts) % interval == 0
  {
    var d := ts - offset;
    assert d >= 0 ==> 0 <= CMod(d, interval) < interval;
    if d < 0 {
      assert -d == (-d / interval) * interval + (-d) % interval;
      assert CMod(d, interval) == -((-d) % interval);
    }
  }

  // ---------------------------------------------------------------- the buckets

  /** The counts written for a symbol and a side. */
  function Written(ws: seq<Candle>, sym: nat, side: Side): nat { WrittenUpto(ws, |ws|, sym, side) }

  /** Those of the first n candles. */
  function WrittenUpto(ws: seq<Candle>, n: nat, sym: nat, side: Side): nat
    requires n <= |ws|
  {
    if n == 0 then 0
    else
      var w := ws[n - 1];
      WrittenUpto(ws, n - 1, sym, side) + if w.sym == sym && w.side == side then w.bar.cnt else 0
  }

  lemma {:induction false} WrittenFront(a: seq<Candle>, b: seq<Candle>, n: nat, sym: nat, side: Side)
    requires n <= |a|
    ensures WrittenUpto(a + b, n, sym, side) == WrittenUpto(a, n, sym, side)
    decreases n
  {
    if n > 0 {
      WrittenFront(a, b, n - 1, sym, side);
    }
  }

  // ---------------------------------------------------------------- which bucket a tick gets into

  /** The end of the bucket at hand once a tick has come: a new one if there was none yet or the
      tick is past its end. */
  function NextEnd(e: int, sec: int, interval: int, offset: int): int
    requires interval > 0
  {
    if e == 0 || sec >= e then NextAligned(sec, interval, offset) else e
  }

  /** The end of the bucket the n-th tick gets into. */
  function EndAt(ts: seq<Tick>, n: nat, interval: int, offset: int): int
    requires interval > 0 && n <= |ts|
  {
    if n == 0 then 0 else NextEnd(EndAt(ts, n - 1, interval, offset), ts[n - 1].sec, interval, offset)
  }

  ghost predicate IsEnd(ts: seq<Tick>, e: int, interval: int, offset: int)
    requires interval > 0
  {
    exists n {:trigger EndAt(ts, n, interval, offset)} :: 0 < n <= |ts| && EndAt(ts, n, interval, offset) == e
  }

  /** The prices of a symbol on a side that get into the bucket with this end. */
  function Put(ts: seq<Tick>, n: nat, sym: nat, side: Side, e: int, interval: int, offset: int): seq<nat>
    requires interval > 0 && n <= |ts|
  {
    if n == 0 then []
    else
      Put(ts, n - 1, sym, side, e, interval, offset) +
      if ts[n - 1].sym == sym && EndAt(ts, n, interval, offset) == e then PriceOf(ts[n - 1].q, side) else []
  }

  /** The i-th tick is within the interval of the bucket it gets into. */
  predicate Placed(ts: seq<Tick>, i: nat, interval: int, offset: int)
    requires interval > 0
  {
    i < |ts| && EndAt(ts, i + 1, interval, offset) - interval <= ts[i].sec
  }

  /** All ticks with a price are. */
  ghost predicate AllPlaced(ts: seq<Tick>, interval: int, offset: int)
    requires interval > 0
  {
    forall i {:trigger Placed(ts, i, interval, offset)} ::
      0 <= i < |ts| && ts[i].q != Other ==> Placed(ts, i, interval, offset)
  }

  ghost predicate Ascending(ts: seq<Tick>) {
    forall i, j {:trigger ts[i], ts[j]} :: 0 <= i <= j < |ts| ==> ts[i].sec <= ts[j].sec
  }

  ghost predicate OnGrid(ts: int, interval: int, offset: int)
    requires interval > 0
  {
    exists k: int :: ts == offset + Times(k, interval)
  }

  function Times(k: int, interval: int): int { k * interval }

  lemma NextOnGrid(ts: int, interval: int, offset: int)
    requires interval > 0
    ensures OnGrid(NextAligned(ts, interval, offset), interval, offset)
  {
    var q := CDiv(ts - offset, interval);
    assert NextAligned(ts, interval, offset) == offset + Times(q + 1, interval);
  }

  /** Two grid points in the same interval are one. */
  lemma OnePoint(e: int, f: int, s: int, interval: int, offset: int)
    requires interval > 0 && OnGrid(e, interval, offset) && OnGrid(f, interval, offset)
    requires e - interval <= s < e && f - interval <= s < f
    ensures e == f
  {
    var j: int, k: int :| e == offset + Times(j, interval) && f == offset + Times(k, interval);
    if j < k {
      MoreTimes(j + 1, k, interval);
    } else if k < j {
      MoreTimes(k + 1, j, interval);
    }
  }

  lemma MoreTimes(a: int, b: int, n: int)
    requires a <= b && n > 0
    ensures Times(a - 1, n) + n == Times(a, n) <= Times(b, n)
  {
  }

  /** A grid point before another one is an interval before it. */
  lemma PointsApart(e: int, f: int, interval: int, offset: int)
    requires interval > 0 && OnGrid(e, interval, offset) && OnGrid(f, interval, offset) && e < f
    ensures e <= f - interval
  {
    if f - interval < e {
      OnePoint(e, f, e - 1, interval, offset);
    }
  }

  /** Ends of buckets are grid points behind the tick, and go up. */
  lemma {:induction false} EndsUp(ts: seq<Tick>, n: nat, interval: int, offset: int)
    requires interval > 0 && 0 < n <= |ts|
    ensures OnGrid(EndAt(ts, n, interval, offset), interval, offset)
    ensures EndAt(ts, n, interval, offset) > ts[n - 1].sec
    ensures EndAt(ts, n, interval, offset) >= EndAt(ts, n - 1, interval, offset) >= 0
    decreases n
  {
    if n > 1 {
      EndsUp(ts, n - 1, interval, offset);
    }
    EndUp(EndAt(ts, n - 1, interval, offset), ts[n - 1].sec, interval, offset);
  }

  lemma EndUp(e: int, sec: nat, interval: int, offset: int)
    requires interval > 0 && e >= 0 && (e != 0 ==> OnGrid(e, interval, offset))
    ensures OnGrid(NextEnd(e, sec, interval, offset), interval, offset)
    ensures NextEnd(e, sec, interval, offset) > sec && NextEnd(e, sec, interval, offset) >= e
  {
    IntervalCovers(sec, interval, offset);
    NextOnGrid(sec, interval, offset);
  }

  lemma {:induction false} EndsMonotone(ts: seq<Tick>, m: nat, n: nat, interval: int, offset: int)
    requires interval > 0 && m <= n <= |ts|
    ensures EndAt(ts, m, interval, offset) <= EndAt(ts, n, interval, offset)
    decreases n
  {
    if m < n {
      EndsUp(ts, n, interval, offset);
      EndsMonotone(ts, m, n - 1, interval, offset);
    }
  }

  /** The tick that opened the bucket. */
  lemma {:induction false} Opener(ts: seq<Tick>, n: nat, interval: int, offset: int) returns (j: nat)
    requires interval > 0 && 0 < n <= |ts|
    ensures j < n && EndAt(ts, j + 1, interval, offset) == EndAt(ts, n, interval, offset)
    ensures EndAt(ts, n, interval, offset) == NextAligned(ts[j].sec, interval, offset)
    ensures EndAt(ts, j, interval, offset) == 0 || ts[j].sec >= EndAt(ts, j, interval, offset)
    decreases n
  {
    j := n - 1;
    if EndAt(ts, n, interval, offset) == EndAt(ts, n - 1, interval, offset) && n > 1 {
      j := Opener(ts, n - 1, interval, offset);
    }
  }

  /** Between two buckets there is a tick that is past the first one. */
  lemma {:induction false} Reopened(ts: seq<Tick>, m: nat, n: nat, interval: int, offset: int) returns (j: nat)
    requires interval > 0 && 0 < m <= n <= |ts| && EndAt(ts, m, interval, offset) < EndAt(ts, n, interval, offset)
    ensures m <= j < n && ts[j].sec >= EndAt(ts, m, interval, offset)
    decreases n
  {
    EndsUp(ts, m, interval, offset);
    EndsMonotone(ts, m, n - 1, interval, offset);
    j := n - 1;
    if EndAt(ts, m, interval, offset) < EndAt(ts, n - 1, interval, offset) {
      j := Reopened(ts, m, n - 1, interval, offset);
    }
  }

  /** Of ascending ticks all that are within the interval of a bucket get into it. */
  lemma InBucket(ts: seq<Tick>, i: nat, e: int, interval: int, offset: int)
    requires interval > 0 && Ascending(ts) && i < |ts| && IsEnd(ts, e, interval, offset)
    requires e - interval <= ts[i].sec < e
    ensures EndAt(ts, i + 1, interval, offset) == e
  {
    var n :| 0 < n <= |ts| && EndAt(ts, n, interval, offset) == e;
    EndsUp(ts, i + 1, interval, offset);
    EndsUp(ts, n, interval, offset);
    if n <= i + 1 {
      EndsMonotone(ts, n, i + 1, interval, offset);
      if e < EndAt(ts, i + 1, interval, offset) {
        var j := Reopened(ts, n, i + 1, interval, offset);
        assert false;
      }
    } else {
      EndsMonotone(ts, i + 1, n, interval, offset);
      if EndAt(ts, i + 1, interval, offset) < e {
        PointsApart(EndAt(ts, i + 1, interval, offset), e, interval, offset);
      }
    }
  }

  // ---------------------------------------------------------------- when the candles are right

  /** What gets into a bucket are the prices of its interval if all ticks are placed. */
  lemma {:induction false} PutIsPrices(ts: seq<Tick>, n: nat, sym: nat, side: Side, e: int, interval: int, offset: int)
    requires interval > 0 && n <= |ts| && AllPlaced(ts, interval, offset) && OnGrid(e, interval, offset)
    ensures Put(ts, n, sym, side, e, interval, offset) == PricesUpto(ts, n, sym, side, e - interval, e)
    decreases n
  {
    if n > 0 {
      PutIsPrices(ts, n - 1, sym, side, e, interval, offset);
      EndsUp(ts, n, interval, offset);
      var f, t := EndAt(ts, n, interval, offset), ts[n - 1];
      if PriceOf(t.q, side) != [] {
        assert Placed(ts, n - 1, interval, offset);
        if e - interval <= t.sec < e {
          OnePoint(e, f, t.sec, interval, offset);
        }
      }
    }
  }

  /** More gets into a bucket than there is in its interval if some tick of an ascending stream is
      not placed. */
  lemma {:induction false} PutIsMore(ts: seq<Tick>, n: nat, i: nat, side: Side, e: int, interval: int, offset: int)
    requires interval > 0 && n <= |ts| && Ascending(ts) && i < |ts| && e == EndAt(ts, i + 1, interval, offset)
    requires PriceOf(ts[i].q, side) != [] && !Placed(ts, i, interval, offset)
    ensures |Put(ts, n, ts[i].sym, side, e, interval, offset)|
         >= |PricesUpto(ts, n, ts[i].sym, side, e - interval, e)| + if i < n then 1 else 0
    decreases n
  {
    if n > 0 {
      PutIsMore(ts, n - 1, i, side, e, interval, offset);
      assert IsEnd(ts, e, interval, offset);
      if e - interval <= ts[n - 1].sec < e {
        InBucket(ts, n - 1, e, interval, offset);
      }
    }
  }

  /** How many prices a symbol has on a side. */
  function Count(ts: seq<Tick>, sym: nat, side: Side): nat {
    if ts == [] then 0
    else
      var t := ts[|ts| - 1];
      Count(ts[..|ts| - 1], sym, side) + if t.sym == sym && Offers(t.q, side) then 1 else 0
  }

  /** A candle written is that of the ticks of its interval. */
  ghost predicate CandleOk(w: Candle, seen: seq<Tick>, interval: int) {
    w.sta == w.ts - interval && Sums(w.bar, Prices(seen, w.sym, w.side, w.sta, w.ts))
  }

  ghost predicate AllOk(ws: seq<Candle>, seen: seq<Tick>, interval: int) {
    forall i {:trigger ws[i]} :: 0 <= i < |ws| ==> CandleOk(ws[i], seen, interval)
  }

  /** A candle written is that of the ticks that got into its bucket. */
  ghost predicate CandleFull(w: Candle, seen: seq<Tick>, interval: int, offset: int)
    requires interval > 0
  {
    && w.sta == w.ts - interval && IsEnd(seen, w.ts, interval, offset)
    && Sums(w.bar, Put(seen, |seen|, w.sym, w.side, w.ts, interval, offset))
  }

  ghost predicate AllFull(ws: seq<Candle>, seen: seq<Tick>, interval: int, offset: int)
    requires interval > 0
  {
    forall i {:trigger ws[i]} :: 0 <= i < |ws| ==> CandleFull(ws[i], seen, interval, offset)
  }

  /** How many candles there are of a symbol and side with this end. */
  function Candles(ws: seq<Candle>, sym: nat, side: Side, e: int): nat { CandlesUpto(ws, |ws|, sym, side, e) }

  function CandlesUpto(ws: seq<Candle>, n: nat, sym: nat, side: Side, e: int): nat
    requires n <= |ws|
  {
    if n == 0 then 0
    else
      CandlesUpto(ws, n - 1, sym, side, e) +
      if ws[n - 1].sym == sym && ws[n - 1].side == side && ws[n - 1].ts == e then 1 else 0
  }

  lemma {:induction false} CandlesFront(a: seq<Candle>, w: Candle, n: nat, sym: nat, side: Side, e: int)
    requires n <= |a|
    ensures CandlesUpto(a + [w], n, sym, side, e) == CandlesUpto(a, n, sym, side, e)
    decreases n
  {
    if n > 0 {
      CandlesFront(a, w, n - 1, sym, side, e);
    }
  }

  lemma OneCandleMore(a: seq<Candle>, w: Candle, sym: nat, side: Side, e: int)
    ensures Candles(a + [w], sym, side, e)
         == Candles(a, sym, side, e) + if w.sym == sym && w.side == side && w.ts == e then 1 else 0
  {
    CandlesFront(a, w, |a|, sym, side, e);
  }

  /** A candle of which there is one. */
  lemma {:induction false} SomeCandle(ws: seq<Candle>, n: nat, sym: nat, side: Side, e: int) returns (k: nat)
    requires n <= |ws| && CandlesUpto(ws, n, sym, side, e) > 0
    ensures k < n && ws[k].sym == sym && ws[k].side == side && ws[k].ts == e
    decreases n
  {
    k := n - 1;
    if !(ws[k].sym == sym && ws[k].side == side && ws[k].ts == e) {
      k := SomeCandle(ws, n - 1, sym, side, e);
    }
  }

  lemma {:induction false} NoCandle(ws: seq<Candle>, n: nat, sym: nat, side: Side, e: int)
    requires n <= |ws| && forall i {:trigger ws[i]} :: 0 <= i < |ws| ==> ws[i].ts != e
    ensures CandlesUpto(ws, n, sym, side, e) == 0
    decreases n
  {
    if n > 0 {
      NoCandle(ws, n - 1, sym, side, e);
    }
  }

  /** Bids and asks get a candle each if there is either in the bucket, trades if there are any. */
  ghost predicate Due(seen: seq<Tick>, sym: nat, side: Side, e: int, interval: int, offset: int)
    requires interval > 0
  {
    if side == Trades then Put(seen, |seen|, sym, Trades, e, interval, offset) != []
    else
      Put(seen, |seen|, sym, Bids, e, interval, offset) != [] || Put(seen, |seen|, sym, Asks, e, interval, offset) != []
  }

  /** The candles of buckets that end before b are exactly those that are due, each of them once. */
  ghost predicate Complete(ws: seq<Candle>, seen: seq<Tick>, n: nat, b: int, interval: int, offset: int)
    requires interval > 0
  {
    forall sym: nat, side: Side, e {:trigger Candles(ws, sym, side, e)} :: sym < n && e < b ==>
      Candles(ws, sym, side, e) == if Due(seen, sym, side, e, interval, offset) then 1 else 0
  }

  lemma AllOkIfPlaced(ws: seq<Candle>, seen: seq<Tick>, interval: int, offset: int)
    requires interval > 0 && AllFull(ws, seen, interval, offset) && AllPlaced(seen, interval, offset)
    ensures AllOk(ws, seen, interval)
  {
    forall i {:trigger ws[i]} | 0 <= i < |ws| ensures CandleOk(ws[i], seen, interval) {
      var w := ws[i];
      var n :| 0 < n <= |seen| && EndAt(seen, n, interval, offset) == w.ts;
      EndsUp(seen, n, interval, offset);
      PutIsPrices(seen, |seen|, w.sym, w.side, w.ts, interval, offset);
    }
  }

  /** Candles of ascending ticks are right only if all ticks with a price are placed. */
  lemma PlacedIfAllOk(ws: seq<Candle>, seen: seq<Tick>, n: nat, b: int, interval: int, offset: int)
    requires interval > 0 && AllFull(ws, seen, interval, offset) && Complete(ws, seen, n, b, interval, offset)
    requires forall i {:trigger seen[i]} :: 0 <= i < |seen| ==> seen[i].sym < n
    requires b > EndAt(seen, |seen|, interval, offset)
    requires Ascending(seen) && AllOk(ws, seen, interval)
    ensures AllPlaced(seen, interval, offset)
  {
    forall i {:trigger Placed(seen, i, interval, offset)} | 0 <= i < |seen| && seen[i].q != Other
      ensures Placed(seen, i, interval, offset)
    {
      if !Placed(seen, i, interval, offset) {
        var w := Misplaced(ws, seen, n, b, i, interval, offset);
        assert false;
      }
    }
  }

  /** The candle that a misplaced tick is in has too many. */
  lemma Misplaced(ws: seq<Candle>, seen: seq<Tick>, n: nat, b: int, i: nat, interval: int, offset: int)
    returns (w: Candle)
    requires interval > 0 && AllFull(ws, seen, interval, offset) && Complete(ws, seen, n, b, interval, offset)
    requires b > EndAt(seen, |seen|, interval, offset) && Ascending(seen)
    requires i < |seen| && seen[i].sym < n && seen[i].q != Other && !Placed(seen, i, interval, offset)
    ensures w in ws && !CandleOk(w, seen, interval)
  {
    var side := SideOf(seen[i].q);
    var e := EndAt(seen, i + 1, interval, offset);
    EndsMonotone(seen, i + 1, |seen|, interval, offset);
    PutIsMore(seen, |seen|, i, side, e, interval, offset);
    var k := CandleOf(ws, seen, n, b, seen[i].sym, side, e, interval, offset);
    w := ws[k];
    TooMany(w, seen, interval, offset);
  }

  lemma CandleOf(ws: seq<Candle>, seen: seq<Tick>, n: nat, b: int, sym: nat, side: Side, e: int, interval: int,
                 offset: int)
    returns (k: nat)
    requires interval > 0 && Complete(ws, seen, n, b, interval, offset) && sym < n && e < b
    requires Put(seen, |seen|, sym, side, e, interval, offset) != []
    ensures k < |ws| && ws[k].sym == sym && ws[k].side == side && ws[k].ts == e
  {
    assert Due(seen, sym, side, e, interval, offset);
    assert Candles(ws, sym, side, e) == 1;
    k := SomeCandle(ws, |ws|, sym, side, e);
  }

  lemma TooMany(w: Candle, seen: seq<Tick>, interval: int, offset: int)
    requires interval > 0 && CandleFull(w, seen, interval, offset)
    requires |Put(seen, |seen|, w.sym, w.side, w.ts, interval, offset)|
           > |PricesUpto(seen, |seen|, w.sym, w.side, w.ts - interval, w.ts)|
    ensures !CandleOk(w, seen, interval)
  {
  }

  /** A side on which there is a price. */
  function SideOf(q: Quote): (side: Side)
    requires q != Other
    ensures PriceOf(q, side) != []
  {
    match q
    case Ask(_) => Asks
    case Trade(_) => Trades
    case _ => Bids
  }

  /** The start of the interval a stamp is in. */
  function CellStart(sec: int, interval: int, offset: int): int
    requires interval > 0
  {
    offset + Times((sec - offset) / interval, interval)
  }

  /** Some tick up to the i-th one is exactly at the start of its interval. */
  ghost predicate CellStarted(ts: seq<Tick>, i: nat, interval: int, offset: int)
    requires interval > 0
  {
    i < |ts| && exists j {:trigger ts[j]} :: 0 <= j <= i && ts[j].sec == CellStart(ts[i].sec, interval, offset)
  }

  /** Where the buckets begin: at the start of the interval from the offset on, and before it at
      the next one unless the stamp is a start itself. */
  lemma AlignedCell(sec: int, interval: int, offset: int)
    requires interval > 0
    ensures CellStart(sec, interval, offset) <= sec < CellStart(sec, interval, offset) + interval
    ensures OnGrid(CellStart(sec, interval, offset) + interval, interval, offset)
    ensures Aligned(sec, interval, offset)
         == CellStart(sec, interval, offset) +
            if sec >= offset || sec == CellStart(sec, interval, offset) then 0 else interval
  {
    var d := sec - offset;
    Truncated(d, interval);
    MoreTimes(d / interval + 1, d / interval + 1, interval);
    assert CellStart(sec, interval, offset) + interval == offset + Times(d / interval + 1, interval);
  }

  /** The remainder in C. */
  lemma Truncated(d: int, n: int)
    requires n > 0
    ensures Times(d / n, n) <= d < Times(d / n, n) + n
    ensures CMod(d, n) == d - Times(d / n, n) - if d >= 0 || d == Times(d / n, n) then 0 else n
  {
    var q, r := d / n, d % n;
    assert d == Times(q, n) + r;
    if d < 0 {
      Negated(q, n);
      MoreTimes(-q, -q, n);
      if r == 0 {
        Quotient(-d, -q, 0, n);
      } else {
        Quotient(-d, -q - 1, n - r, n);
        Negated(-q - 1, n);
        MoreTimes(q + 1, q + 1, n);
      }
    }
  }

  lemma Negated(a: int, n: int)
    ensures Times(-a, n) == -Times(a, n)
  {
  }

  lemma Quotient(x: int, q: int, r: int, n: int)
    requires n > 0 && 0 <= r < n && x == Times(q, n) + r
    ensures x / n == q
  {
    assert x == Times(x / n, n) + x % n;
    SameQuotient(x / n, q, r - x % n, n);
  }

  lemma SameQuotient(a: int, b: int, r: int, n: int)
    requires n > 0 && -n < r < n && Times(a, n) == Times(b, n) + r
    ensures a == b && r == 0
  {
    if a < b {
      MoreTimes(a + 1, b, n);
    } else if b < a {
      MoreTimes(b + 1, a, n);
    }
  }

  /** Ticks from the offset on are placed. */
  lemma PlacedFromOffset(ts: seq<Tick>, i: nat, interval: int, offset: int)
    requires interval > 0 && Ascending(ts) && i < |ts|
    requires forall k {:trigger ts[k]} :: 0 <= k <= i ==> ts[k].sec >= offset
    ensures Placed(ts, i, interval, offset)
  {
    var j := Opener(ts, i + 1, interval, offset);
    IntervalCovers(ts[j].sec, interval, offset);
    assert ts[j].sec <= ts[i].sec;
  }

  /** If all ticks of an ascending stream have prices, they are placed if and only if each one from
      before the offset comes with or after one that is exactly at the start of its interval. */
  lemma PlacedByCell(ts: seq<Tick>, interval: int, offset: int)
    requires interval > 0 && Ascending(ts) && forall i {:trigger ts[i]} :: 0 <= i < |ts| ==> ts[i].q != Other
    ensures AllPlaced(ts, interval, offset) <==>
            forall i {:trigger CellStarted(ts, i, interval, offset)} ::
              0 <= i < |ts| && ts[i].sec < offset ==> CellStarted(ts, i, interval, offset)
  {
    if AllPlaced(ts, interval, offset) {
      forall i {:trigger CellStarted(ts, i, interval, offset)} | 0 <= i < |ts| && ts[i].sec < offset
        ensures CellStarted(ts, i, interval, offset)
      {
        PlacedStarted(ts, i, interval, offset);
      }
    }
    if forall i {:trigger CellStarted(ts, i, interval, offset)} ::
         0 <= i < |ts| && ts[i].sec < offset ==> CellStarted(ts, i, interval, offset) {
      forall i {:trigger Placed(ts, i, interval, offset)} | 0 <= i < |ts| ensures Placed(ts, i, interval, offset) {
        StartedPlaced(ts, i, interval, offset);
      }
    }
  }

  lemma PlacedStarted(ts: seq<Tick>, i: nat, interval: int, offset: int)
    requires interval > 0 && Ascending(ts) && i < |ts| && ts[i].sec < offset
    requires forall k {:trigger Placed(ts, k, interval, offset)} :: 0 <= k <= i ==> Placed(ts, k, interval, offset)
    ensures CellStarted(ts, i, interval, offset)
  {
    var c := CellStart(ts[i].sec, interval, offset);
    AlignedCell(ts[i].sec, interval, offset);
    EndsUp(ts, i + 1, interval, offset);
    assert Placed(ts, i, interval, offset);
    OnePoint(EndAt(ts, i + 1, interval, offset), c + interval, ts[i].sec, interval, offset);
    var j := Opener(ts, i + 1, interval, offset);
    assert Placed(ts, j, interval, offset) && ts[j].sec <= ts[i].sec;
    AlignedCell(ts[j].sec, interval, offset);
    EndsUp(ts, j + 1, interval, offset);
    OnePoint(c + interval, CellStart(ts[j].sec, interval, offset) + interval, ts[j].sec, interval, offset);
  }

  lemma {:induction false} StartedPlaced(ts: seq<Tick>, i: nat, interval: int, offset: int)
    requires interval > 0 && Ascending(ts) && i < |ts|
    requires forall k {:trigger CellStarted(ts, k, interval, offset)} ::
               0 <= k < |ts| && ts[k].sec < offset ==> CellStarted(ts, k, interval, offset)
    ensures Placed(ts, i, interval, offset)
    decreases i
  {
    var k := Opener(ts, i + 1, interval, offset);
    assert ts[k].sec <= ts[i].sec;
    var c := CellStart(ts[k].sec, interval, offset);
    AlignedCell(ts[k].sec, interval, offset);
    if ts[k].sec < offset && ts[k].sec != c {
      assert CellStarted(ts, k, interval, offset);
      var j :| 0 <= j <= k && ts[j].sec == c;
      StartedPlaced(ts, j, interval, offset);
      EndsUp(ts, j + 1, interval, offset);
      OnePoint(EndAt(ts, j + 1, interval, offset), c + interval, c, interval, offset);
      EndsMonotone(ts, j + 1, k, interval, offset);
      assert false;
    }
  }

  // ---------------------------------------------------------------- one more tick

  lemma {:induction false} EndFront(ts: seq<Tick>, t: Tick, n: nat, interval: int, offset: int)
    requires interval > 0 && n <= |ts|
    ensures EndAt(ts + [t], n, interval, offset) == EndAt(ts, n, interval, offset)
    decreases n
  {
    if n > 0 {
      EndFront(ts, t, n - 1, interval, offset);
    }
  }

  lemma {:induction false} PutFront(ts: seq<Tick>, t: Tick, n: nat, sym: nat, side: Side, e: int, interval: int,
                                    offset: int)
    requires interval > 0 && n <= |ts|
    ensures Put(ts + [t], n, sym, side, e, interval, offset) == Put(ts, n, sym, side, e, interval, offset)
    decreases n
  {
    if n > 0 {
      PutFront(ts, t, n - 1, sym, side, e, interval, offset);
      EndFront(ts, t, n, interval, offset);
    }
  }

  /** The end of the bucket that the next tick gets into. */
  function EndNext(seen: seq<Tick>, t: Tick, interval: int, offset: int): int
    requires interval > 0
  {
    NextEnd(EndAt(seen, |seen|, interval, offset), t.sec, interval, offset)
  }

  lemma EndMore(seen: seq<Tick>, t: Tick, interval: int, offset: int)
    requires interval > 0
    ensures EndAt(seen + [t], |seen| + 1, interval, offset) == EndNext(seen, t, interval, offset)
    ensures EndNext(seen, t, interval, offset) >= EndAt(seen, |seen|, interval, offset) >= 0
  {
    EndFront(seen, t, |seen|, interval, offset);
    EndsUp(seen + [t], |seen| + 1, interval, offset);
  }

  lemma PutMore(seen: seq<Tick>, t: Tick, sym: nat, side: Side, e: int, interval: int, offset: int)
    requires interval > 0
    ensures Put(seen + [t], |seen| + 1, sym, side, e, interval, offset)
         == Put(seen, |seen|, sym, side, e, interval, offset) +
            if t.sym == sym && e == EndNext(seen, t, interval, offset) then PriceOf(t.q, side) else []
  {
    PutFront(seen, t, |seen|, sym, side, e, interval, offset);
    EndMore(seen, t, interval, offset);
  }

  /** Nothing has got into a bucket that ends later. */
  lemma {:induction false} PutLater(ts: seq<Tick>, n: nat, sym: nat, side: Side, e: int, interval: int, offset: int)
    requires interval > 0 && n <= |ts| && EndAt(ts, n, interval, offset) < e
    ensures Put(ts, n, sym, side, e, interval, offset) == []
    decreases n
  {
    if n > 0 {
      EndsUp(ts, n, interval, offset);
      PutLater(ts, n - 1, sym, side, e, interval, offset);
    }
  }

  lemma EndStays(seen: seq<Tick>, t: Tick, e: int, interval: int, offset: int)
    requires interval > 0 && IsEnd(seen, e, interval, offset)
    ensures IsEnd(seen + [t], e, interval, offset)
  {
    var n :| 0 < n <= |seen| && EndAt(seen, n, interval, offset) == e;
    EndFront(seen, t, n, interval, offset);
    assert EndAt(seen + [t], n, interval, offset) == e;
  }

  /** The bucket sums up what got into it. */
  ghost predicate BucketFull(cand: seq<XCand>, seen: seq<Tick>, e: int, interval: int, offset: int)
    requires interval > 0
  {
    forall sym: nat, side: Side {:trigger BarOf(cand[sym], side)} :: sym < |cand| ==>
      Sums(BarOf(cand[sym], side), Put(seen, |seen|, sym, side, e, interval, offset))
  }

  ghost predicate Before(ws: seq<Candle>, e: int) { forall i {:trigger ws[i]} :: 0 <= i < |ws| ==> ws[i].ts < e }

  /** The candles written sum up what got into their buckets, none of which is missing. */
  ghost predicate Right(ws: seq<Candle>, seen: seq<Tick>, n: nat, e: int, interval: int, offset: int)
    requires interval > 0
  {
    AllFull(ws, seen, interval, offset) && Before(ws, e) && Complete(ws, seen, n, e, interval, offset)
  }

  /** No price is lost: what is written and what is in the bucket are all. */
  ghost predicate Balanced(cand: seq<XCand>, ws: seq<Candle>, seen: seq<Tick>) {
    forall sym: nat, side: Side {:trigger Count(seen, sym, side)} :: sym < |cand| ==>
      Written(ws, sym, side) + BarOf(cand[sym], side).cnt == Count(seen, sym, side)
  }

  /** After a run the prices written are all. */
  ghost predicate NoneLost(ws: seq<Candle>, seen: seq<Tick>, nsyms: nat) {
    forall sym: nat, side: Side {:trigger Count(seen, sym, side)} :: sym <= nsyms ==>
      Written(ws, sym, side) == Count(seen, sym, side)
  }

  /** A fresh bucket. */
  lemma FreshBucket(n: nat, seen: seq<Tick>, e: int, interval: int, offset: int)
    requires interval > 0 && (seen == [] || EndAt(seen, |seen|, interval, offset) < e)
    ensures BucketFull(seq(n, _ => CLEANSED), seen, e, interval, offset)
  {
    var cand := seq(n, _ => CLEANSED);
    forall sym: nat, side: Side {:trigger BarOf(cand[sym], side)} | sym < n
      ensures Sums(BarOf(cand[sym], side), Put(seen, |seen|, sym, side, e, interval, offset))
    {
      if seen != [] {
        PutLater(seen, |seen|, sym, side, e, interval, offset);
      }
    }
  }

  /** One more tick in its bucket. */
  lemma BucketMore(cand: seq<XCand>, seen: seq<Tick>, t: Tick, interval: int, offset: int)
    requires interval > 0 && t.sym < |cand|
    requires BucketFull(cand, seen, EndNext(seen, t, interval, offset), interval, offset)
    ensures BucketFull(cand[t.sym := Push(cand[t.sym], t.q)], seen + [t], EndNext(seen, t, interval, offset),
                       interval, offset)
  {
    var e, cand' := EndNext(seen, t, interval, offset), cand[t.sym := Push(cand[t.sym], t.q)];
    forall sym: nat, side: Side {:trigger BarOf(cand'[sym], side)} | sym < |cand|
      ensures Sums(BarOf(cand'[sym], side), Put(seen + [t], |seen + [t]|, sym, side, e, interval, offset))
    {
      PutMore(seen, t, sym, side, e, interval, offset);
      var ps := Put(seen, |seen|, sym, side, e, interval, offset);
      assert Sums(BarOf(cand[sym], side), ps);
      if sym == t.sym {
        PushIsSum(cand[sym], t.q, side, ps);
      } else {
        assert ps + [] == ps;
      }
    }
  }

  /** One more tick, and the candles written are still right. */
  lemma RightMore(ws: seq<Candle>, seen: seq<Tick>, t: Tick, n: nat, interval: int, offset: int)
    requires interval > 0 && Right(ws, seen, n, EndNext(seen, t, interval, offset), interval, offset)
    ensures Right(ws, seen + [t], n, EndNext(seen, t, interval, offset), interval, offset)
  {
    var e, u := EndNext(seen, t, interval, offset), seen + [t];
    forall i {:trigger ws[i]} | 0 <= i < |ws| ensures CandleFull(ws[i], u, interval, offset) {
      var w := ws[i];
      assert CandleFull(w, seen, interval, offset);
      EndStays(seen, t, w.ts, interval, offset);
      PutMore(seen, t, w.sym, w.side, w.ts, interval, offset);
    }
    forall sym: nat, side: Side, f {:trigger Candles(ws, sym, side, f)} | sym < n && f < e
      ensures Due(seen, sym, side, f, interval, offset) <==> Due(u, sym, side, f, interval, offset)
    {
      PutMore(seen, t, sym, Bids, f, interval, offset);
      PutMore(seen, t, sym, Asks, f, interval, offset);
      PutMore(seen, t, sym, Trades, f, interval, offset);
    }
  }

  lemma BalancedMore(cand: seq<XCand>, ws: seq<Candle>, seen: seq<Tick>, t: Tick)
    requires Balanced(cand, ws, seen) && t.sym < |cand|
    ensures Balanced(cand[t.sym := Push(cand[t.sym], t.q)], ws, seen + [t])
  {
    var cand' := cand[t.sym := Push(cand[t.sym], t.q)];
    forall sym: nat, side: Side {:trigger Count(seen + [t], sym, side)} | sym < |cand|
      ensures Written(ws, sym, side) + BarOf(cand'[sym], side).cnt == Count(seen + [t], sym, side)
    {
      assert (seen + [t])[..|seen|] == seen;
      assert Written(ws, sym, side) + BarOf(cand[sym], side).cnt == Count(seen, sym, side);
      PushCounts(cand[t.sym], t.q, side);
    }
  }

  lemma PushCounts(c: XCand, q: Quote, side: Side)
    ensures BarOf(Push(c, q), side).cnt == BarOf(c, side).cnt + if Offers(q, side) then 1 else 0
  {
  }

  // ---------------------------------------------------------------- writing

  /** What the candle of a bucket does to the counts written. */
  function Share(cand: seq<XCand>, n: nat, s: nat, side: Side): nat
    requires n <= |cand|
  {
    if s < n then BarOf(cand[s], side).cnt else 0
  }

  /** The first n symbols' candles have been written behind ws. */
  ghost predicate Wrote(ws: seq<Candle>, ws': seq<Candle>, cand: seq<XCand>, n: nat) {
    n <= |cand| &&
    forall s: nat, side: Side {:trigger Written(ws', s, side)} ::
      Written(ws', s, side) == Written(ws, s, side) + Share(cand, n, s, side)
  }

  lemma WrittenOne(ws: seq<Candle>, w: Candle, s: nat, side: Side)
    ensures Written(ws + [w], s, side) == Written(ws, s, side) + if w.sym == s && w.side == side then w.bar.cnt else 0
  {
    WrittenFront(ws, [w], |ws|, s, side);
  }

  /** One more symbol. */
  lemma WroteMore(ws: seq<Candle>, mid: seq<Candle>, ws': seq<Candle>, cand: seq<XCand>, n: nat)
    requires Wrote(ws, mid, cand, n) && n < |cand|
    requires forall s: nat, side: Side {:trigger Written(ws', s, side)} ::
               Written(ws', s, side) == Written(mid, s, side) + if s == n then BarOf(cand[n], side).cnt else 0
    ensures Wrote(ws, ws', cand, n + 1)
  {
    forall s: nat, side: Side {:trigger Written(ws', s, side)}
      ensures Written(ws', s, side) == Written(ws, s, side) + Share(cand, n + 1, s, side)
    {
      assert Written(mid, s, side) == Written(ws, s, side) + Share(cand, n, s, side);
    }
  }

  /** What was in the buckets is in the output. */
  lemma BalancedWritten(cand: seq<XCand>, ws: seq<Candle>, ws': seq<Candle>, seen: seq<Tick>)
    requires Balanced(cand, ws, seen) && Wrote(ws, ws', cand, |cand|)
    ensures Balanced(seq(|cand|, _ => CLEANSED), ws', seen)
    ensures forall sym: nat, side: Side {:trigger Count(seen, sym, side)} :: sym < |cand| ==>
              Written(ws', sym, side) == Count(seen, sym, side)
  {
    forall sym: nat, side: Side {:trigger Count(seen, sym, side)} | sym < |cand|
      ensures Written(ws', sym, side) == Count(seen, sym, side)
    {
      assert Written(ws', sym, side) == Written(ws, sym, side) + Share(cand, |cand|, sym, side);
    }
  }

  /** Behind ws stand candles of the bucket that ends at ts: for the first n symbols those that are
      due, each of them once. */
  ghost predicate Closed(ws: seq<Candle>, ws': seq<Candle>, cand: seq<XCand>, n: nat, ts: int, interval: int) {
    && |ws| <= |ws'| && n <= |cand| && ws'[..|ws|] == ws
    && (forall i {:trigger ws'[i]} :: |ws| <= i < |ws'| ==> FromBucket(ws'[i], cand, ts, interval))
    && (forall s: nat, side: Side, e {:trigger Candles(ws', s, side, e)} ::
          Candles(ws', s, side, e) == Candles(ws, s, side, e) + if DueBy(cand, n, s, side, e, ts) then 1 else 0)
  }

  /** It is one of the first n symbols' candles, and due. */
  predicate DueBy(cand: seq<XCand>, n: nat, s: nat, side: Side, e: int, ts: int)
    requires n <= |cand|
  {
    s < n && e == ts && BarDue(cand[s], side)
  }

  predicate BarDue(c: XCand, side: Side) {
    if side == Trades then c.tra.cnt > 0 else c.bid.cnt > 0 || c.ask.cnt > 0
  }

  predicate FromBucket(w: Candle, cand: seq<XCand>, ts: int, interval: int) {
    w.sym < |cand| && w == Candle(w.sym, w.side, ts - interval, ts, BarOf(cand[w.sym], w.side)) && !Blank(cand[w.sym])
  }

  predicate Blank(c: XCand) { c.bid.cnt == 0 && c.ask.cnt == 0 && c.tra.cnt == 0 }

  lemma NothingWritten(ws: seq<Candle>, ws': seq<Candle>, cand: seq<XCand>, ts: int, interval: int)
    requires ws' == ws
    ensures Wrote(ws, ws', cand, 0) && Closed(ws, ws', cand, 0, ts, interval)
  {
    forall s: nat, side: Side {:trigger Written(ws', s, side)}
      ensures Written(ws', s, side) == Written(ws, s, side) + Share(cand, 0, s, side)
    {
      assert Share(cand, 0, s, side) == 0;
    }
    forall s: nat, side: Side, e {:trigger Candles(ws', s, side, e)}
      ensures Candles(ws', s, side, e) == Candles(ws, s, side, e) + if DueBy(cand, 0, s, side, e, ts) then 1 else 0
    {
      assert !DueBy(cand, 0, s, side, e, ts);
    }
  }

  lemma ClosedMore(ws: seq<Candle>, mid: seq<Candle>, ws': seq<Candle>, cand: seq<XCand>, n: nat, ts: int,
                   interval: int)
    requires Closed(ws, mid, cand, n, ts, interval) && n < |cand|
    requires ws' == mid + CandlesOf(cand[n], n, ts, interval)
    ensures Closed(ws, ws', cand, n + 1, ts, interval)
  {
    CandlesOfBucket(mid, cand, n, ts, interval);
    assert ws'[..|ws|] == ws'[..|mid|][..|ws|];
    forall i {:trigger ws'[i]} | |ws| <= i < |ws'| ensures FromBucket(ws'[i], cand, ts, interval) {
      assert i < |mid| ==> ws'[i] == ws'[..|mid|][i] == mid[i];
    }
    forall s: nat, side: Side, e {:trigger Candles(ws', s, side, e)}
      ensures Candles(ws', s, side, e)
           == Candles(ws, s, side, e) + if DueBy(cand, n + 1, s, side, e, ts) then 1 else 0
    {
      assert Candles(mid, s, side, e)
          == Candles(ws, s, side, e) + if DueBy(cand, n, s, side, e, ts) then 1 else 0;
      CandlesOfCount(mid, cand[n], n, ts, interval, s, side, e);
    }
  }

  /** Once the bucket is written, all is up to the end of a later one. */
  lemma ClosedRight(ws: seq<Candle>, ws': seq<Candle>, cand: seq<XCand>, seen: seq<Tick>, e: int, interval: int,
                    offset: int)
    requires interval > 0 && EndAt(seen, |seen|, interval, offset) < e
    requires Right(ws, seen, |cand|, EndAt(seen, |seen|, interval, offset), interval, offset)
    requires BucketFull(cand, seen, EndAt(seen, |seen|, interval, offset), interval, offset)
    requires Closed(ws, ws', cand, |cand|, EndAt(seen, |seen|, interval, offset), interval)
    ensures Right(ws', seen, |cand|, e, interval, offset)
  {
    var b := EndAt(seen, |seen|, interval, offset);
    forall i {:trigger ws'[i]} | 0 <= i < |ws'| ensures CandleFull(ws'[i], seen, interval, offset) && ws'[i].ts < e {
      if i < |ws| {
        assert ws'[i] == ws'[..|ws|][i] == ws[i];
      } else {
        NewIsFull(ws'[i], cand, seen, interval, offset);
      }
    }
    forall sym: nat, side: Side, f {:trigger Candles(ws', sym, side, f)} | sym < |cand| && f < e
      ensures Candles(ws', sym, side, f) == if Due(seen, sym, side, f, interval, offset) then 1 else 0
    {
      if f < b {
        assert Candles(ws, sym, side, f) == if Due(seen, sym, side, f, interval, offset) then 1 else 0;
      } else {
        NoCandle(ws, |ws|, sym, side, f);
        DueIfBar(cand, seen, sym, side, f, interval, offset);
      }
    }
  }

  /** From the bucket at hand on the candles due are those of the bucket. */
  lemma DueIfBar(cand: seq<XCand>, seen: seq<Tick>, sym: nat, side: Side, f: int, interval: int, offset: int)
    requires interval > 0 && sym < |cand| && f >= EndAt(seen, |seen|, interval, offset)
    requires BucketFull(cand, seen, EndAt(seen, |seen|, interval, offset), interval, offset)
    ensures Due(seen, sym, side, f, interval, offset) <==>
            f == EndAt(seen, |seen|, interval, offset) && BarDue(cand[sym], side)
  {
    var c := cand[sym];
    assert BarOf(c, Bids) == c.bid && BarOf(c, Asks) == c.ask && BarOf(c, Trades) == c.tra;
    if f > EndAt(seen, |seen|, interval, offset) {
      PutLater(seen, |seen|, sym, Bids, f, interval, offset);
      PutLater(seen, |seen|, sym, Asks, f, interval, offset);
      PutLater(seen, |seen|, sym, Trades, f, interval, offset);
    } else {
      var e := EndAt(seen, |seen|, interval, offset);
      assert Sums(BarOf(cand[sym], Bids), Put(seen, |seen|, sym, Bids, e, interval, offset));
      assert Sums(BarOf(cand[sym], Asks), Put(seen, |seen|, sym, Asks, e, interval, offset));
      assert Sums(BarOf(cand[sym], Trades), Put(seen, |seen|, sym, Trades, e, interval, offset));
    }
  }

  lemma NewIsFull(w: Candle, cand: seq<XCand>, seen: seq<Tick>, interval: int, offset: int)
    requires interval > 0 && BucketFull(cand, seen, EndAt(seen, |seen|, interval, offset), interval, offset)
    requires FromBucket(w, cand, EndAt(seen, |seen|, interval, offset), interval)
    ensures CandleFull(w, seen, interval, offset)
  {
    var c := cand[w.sym];
    assert forall side: Side {:trigger BarOf(c, side)} ::
        Sums(BarOf(c, side), Put(seen, |seen|, w.sym, side, w.ts, interval, offset));
    assert BarOf(c, Bids) == c.bid && BarOf(c, Asks) == c.ask && BarOf(c, Trades) == c.tra;
    assert seen != [];
    assert EndAt(seen, |seen|, interval, offset) == w.ts;
  }

  /** The candles of one symbol: bids and asks if there is either, trades if there are any. */
  function CandlesOf(c: XCand, sym: nat, ts: int, interval: int): seq<Candle> {
    (if c.bid.cnt == 0 && c.ask.cnt == 0 then []
     else [Candle(sym, Bids, ts - interval, ts, c.bid), Candle(sym, Asks, ts - interval, ts, c.ask)]) +
    (if c.tra.cnt == 0 then [] else [Candle(sym, Trades, ts - interval, ts, c.tra)])
  }

  lemma CandlesOfBucket(ws: seq<Candle>, cand: seq<XCand>, sym: nat, ts: int, interval: int)
    requires sym < |cand|
    ensures var ws' := ws + CandlesOf(cand[sym], sym, ts, interval);
            forall i {:trigger ws'[i]} :: |ws| <= i < |ws'| ==> FromBucket(ws'[i], cand, ts, interval)
  {
  }

  lemma CandlesOfCount(ws: seq<Candle>, c: XCand, n: nat, ts: int, interval: int, s: nat, side: Side, e: int)
    ensures Candles(ws + CandlesOf(c, n, ts, interval), s, side, e)
         == Candles(ws, s, side, e) + if s == n && e == ts && BarDue(c, side) then 1 else 0
  {
    var a, b, t := Candle(n, Bids, ts - interval, ts, c.bid), Candle(n, Asks, ts - interval, ts, c.ask),
        Candle(n, Trades, ts - interval, ts, c.tra);
    var mid := ws;
    if c.bid.cnt > 0 || c.ask.cnt > 0 {
      mid := ws + [a] + [b];
      OneCandleMore(ws, a, s, side, e);
      OneCandleMore(ws + [a], b, s, side, e);
    }
    if c.tra.cnt > 0 {
      OneCandleMore(mid, t, s, side, e);
      assert mid + [t] == ws + CandlesOf(c, n, ts, interval);
    } else {
      assert mid == ws + CandlesOf(c, n, ts, interval);
    }
  }

  /** write_cand. */
  method WriteCand(ws: seq<Candle>, cand: seq<XCand>, sym: nat, ts: int, interval: int) returns (ws': seq<Candle>)
    requires sym < |cand|
    ensures forall s: nat, side: Side {:trigger Written(ws', s, side)} ::
              Written(ws', s, side) == Written(ws, s, side) + if s == sym then BarOf(cand[sym], side).cnt else 0
    ensures ws' == ws + CandlesOf(cand[sym], sym, ts, interval)
  {
    ws' := ws;
    var c := cand[sym];
    if !(c.bid.cnt == 0 && c.ask.cnt == 0) {
      ws' := WriteOne(ws', c, sym, Bids, ts, interval);
      ws' := WriteOne(ws', c, sym, Asks, ts, interval);
    }
    if c.tra.cnt != 0 {
      ws' := WriteOne(ws', c, sym, Trades, ts, interval);
    }
  }

  /** ute_add_tick of a candle with its header set. */
  method WriteOne(ws: seq<Candle>, c: XCand, sym: nat, side: Side, ts: int, interval: int) returns (ws': seq<Candle>)
    ensures ws' == ws + [Candle(sym, side, ts - interval, ts, BarOf(c, side))]
    ensures forall s: nat, z: Side {:trigger Written(ws', s, z)} ::
              Written(ws', s, z) == Written(ws, s, z) + if s == sym && z == side then BarOf(c, side).cnt else 0
  {
    var w := Candle(sym, side, ts - interval, ts, BarOf(c, side));
    ws' := ws + [w];
    forall s: nat, z: Side {:trigger Written(ws', s, z)}
      ensures Written(ws', s, z) == Written(ws, s, z) + if s == sym && z == side then BarOf(c, side).cnt else 0
    {
      WrittenOne(ws, w, s, z);
    }
  }

  // ---------------------------------------------------------------- the bucketiser

  class Bucketiser {
    const interval: int
    const offset: int
    var curTs: int
    var cand: seq<XCand>
    var written: seq<Candle>
    ghost var seen: seq<Tick>

    ghost predicate Valid()
      reads this
    {
      && interval > 0 && Balanced(cand, written, seen) && curTs == EndAt(seen, |seen|, interval, offset)
      && BucketFull(cand, seen, curTs, interval, offset) && Right(written, seen, |cand|, curTs, interval, offset)
    }

    constructor (nsyms: nat, interval: int, offset: int)
      requires interval > 0
      ensures Valid() && seen == [] && written == [] && |cand| == nsyms + 1
      ensures this.interval == interval && this.offset == offset
    {
      this.interval := interval;
      this.offset := offset;
      curTs := 0;
      cand := seq(nsyms + 1, _ => CLEANSED);
      written := [];
      seen := [];
    }

    /** new_candle. */
    method NewCandle()
      modifies this`written
      ensures Wrote(old(written), written, cand, |cand|)
      ensures Closed(old(written), written, cand, |cand|, curTs, interval)
    {
      ghost var was := written;
      NothingWritten(was, written, cand, curTs, interval);
      for i := 0 to |cand|
        invariant Wrote(was, written, cand, i) && Closed(was, written, cand, i, curTs, interval)
      {
        ghost var mid := written;
        written := WriteCand(written, cand, i, curTs, interval);
        WroteMore(was, mid, written, cand, i);
        ClosedMore(was, mid, written, cand, i, curTs, interval);
      }
    }

    /** new_candle_p for a genuine tick. */
    predicate NewCandleDue(t: Tick)
      reads this
    {
      curTs == 0 || t.sec >= curTs
    }

    /** check_candle. */
    method CheckCandle(t: Tick)
      requires Valid()
      modifies this`written, this`curTs, this`cand
      ensures interval > 0 && Balanced(cand, written, seen) && |cand| == |old(cand)|
      ensures curTs == EndNext(seen, t, interval, offset)
      ensures BucketFull(cand, seen, curTs, interval, offset) && Right(written, seen, |cand|, curTs, interval, offset)
    {
      if NewCandleDue(t) {
        ghost var was, bucket := written, cand;
        NewCandle();
        BalancedWritten(bucket, was, written, seen);
        IntervalCovers(t.sec, interval, offset);
        ClosedRight(was, written, bucket, seen, NextAligned(t.sec, interval, offset), interval, offset);
        curTs := NextAligned(t.sec, interval, offset);
        cand := seq(|cand|, _ => CLEANSED);
        FreshBucket(|cand|, seen, curTs, interval, offset);
      }
    }

    /** The last round of a file. */
    method LastRound()
      requires Valid()
      modifies this`written
      ensures Right(written, seen, |cand|, curTs + 1, interval, offset)
      ensures forall sym: nat, side: Side {:trigger Count(seen, sym, side)} :: sym < |cand| ==>
                Written(written, sym, side) == Count(seen, sym, side)
    {
      ghost var was := written;
      NewCandle();
      BalancedWritten(cand, was, written, seen);
      ClosedRight(was, written, cand, seen, curTs + 1, interval, offset);
    }

    /** bucketiser. */
    method Bucketise(t: Tick)
      requires Valid() && t.sym < |cand|
      modifies this
      ensures Valid() && seen == old(seen) + [t] && |cand| == |old(cand)|
    {
      CheckCandle(t);
      BalancedMore(cand, written, seen, t);
      BucketMore(cand, seen, t, interval, offset);
      RightMore(written, seen, t, |cand|, interval, offset);
      EndMore(seen, t, interval, offset);
      cand := cand[t.sym := Push(cand[t.sym], t.q)];
      seen := seen + [t];
    }
  }

  /** The k-th tick is one of the symbol, gets into the bucket with this end and has a price on the
      side. */
  predicate OfferedAt(ts: seq<Tick>, k: nat, sym: nat, side: Side, e: int, interval: int, offset: int)
    requires interval > 0
  {
    k < |ts| && ts[k].sym == sym && EndAt(ts, k + 1, interval, offset) == e && Offers(ts[k].q, side)
  }

  ghost predicate Offered(ts: seq<Tick>, sym: nat, side: Side, e: int, interval: int, offset: int)
    requires interval > 0
  {
    exists k: nat {:trigger OfferedAt(ts, k, sym, side, e, interval, offset)} ::
      OfferedAt(ts, k, sym, side, e, interval, offset)
  }

  /** Some such tick has p for its price. */
  ghost predicate Quoted(ts: seq<Tick>, sym: nat, side: Side, e: int, p: nat, interval: int, offset: int)
    requires interval > 0
  {
    exists k: nat {:trigger OfferedAt(ts, k, sym, side, e, interval, offset)} ::
      OfferedAt(ts, k, sym, side, e, interval, offset) && Quotes(ts[k].q, side, p)
  }

  /** A bid or an ask calls for a candle of bids and one of asks, a trade for one of trades. */
  ghost predicate Wanted(ts: seq<Tick>, sym: nat, side: Side, e: int, interval: int, offset: int)
    requires interval > 0
  {
    if side == Trades then Offered(ts, sym, Trades, e, interval, offset)
    else Offered(ts, sym, Bids, e, interval, offset) || Offered(ts, sym, Asks, e, interval, offset)
  }

  /** The first of these ticks has p for its price. */
  ghost predicate QuotedFirst(ts: seq<Tick>, sym: nat, side: Side, e: int, p: nat, interval: int, offset: int)
    requires interval > 0
  {
    exists k: nat {:trigger OfferedAt(ts, k, sym, side, e, interval, offset)} ::
      && OfferedAt(ts, k, sym, side, e, interval, offset) && Quotes(ts[k].q, side, p)
      && forall j: nat {:trigger OfferedAt(ts, j, sym, side, e, interval, offset)} ::
          OfferedAt(ts, j, sym, side, e, interval, offset) ==> k <= j
  }

  /** The last one has. */
  ghost predicate QuotedLast(ts: seq<Tick>, sym: nat, side: Side, e: int, p: nat, interval: int, offset: int)
    requires interval > 0
  {
    exists k: nat {:trigger OfferedAt(ts, k, sym, side, e, interval, offset)} ::
      && OfferedAt(ts, k, sym, side, e, interval, offset) && Quotes(ts[k].q, side, p)
      && forall j: nat {:trigger OfferedAt(ts, j, sym, side, e, interval, offset)} ::
          OfferedAt(ts, j, sym, side, e, interval, offset) ==> j <= k
  }

  /** Open is the first price quoted in the bucket and close the last one, high and low are quoted
      in it, and no price quoted in it is higher or lower. */
  ghost predicate QuotedBar(w: Candle, ts: seq<Tick>, interval: int, offset: int)
    requires interval > 0
  {
    && (w.bar.cnt > 0 ==>
          && QuotedFirst(ts, w.sym, w.side, w.ts, w.bar.v.o, interval, offset)
          && Quoted(ts, w.sym, w.side, w.ts, w.bar.v.h, interval, offset)
          && Quoted(ts, w.sym, w.side, w.ts, w.bar.v.l, interval, offset)
          && QuotedLast(ts, w.sym, w.side, w.ts, w.bar.v.c, interval, offset))
    && forall p: nat {:trigger Quoted(ts, w.sym, w.side, w.ts, p, interval, offset)} ::
        Quoted(ts, w.sym, w.side, w.ts, p, interval, offset) ==> w.bar.cnt > 0 && w.bar.v.l <= p <= w.bar.v.h
  }

  /** What the n-th tick puts into the bucket. */
  lemma PutOne(ts: seq<Tick>, n: nat, sym: nat, side: Side, e: int, interval: int, offset: int) returns (ps: seq<nat>)
    requires interval > 0 && 0 < n <= |ts|
    ensures Put(ts, n, sym, side, e, interval, offset) == Put(ts, n - 1, sym, side, e, interval, offset) + ps
    ensures if OfferedAt(ts, n - 1, sym, side, e, interval, offset) then |ps| == 1 && Quotes(ts[n - 1].q, side, ps[0])
            else ps == []
    ensures OfferedAt(ts, n - 1, sym, side, e, interval, offset) ==>
              forall p: nat {:trigger Quotes(ts[n - 1].q, side, p)} :: Quotes(ts[n - 1].q, side, p) ==> ps == [p]
  {
    PriceIsQuoted(ts[n - 1].q, side);
    ps := if ts[n - 1].sym == sym && EndAt(ts, n, interval, offset) == e then PriceOf(ts[n - 1].q, side) else [];
  }

  /** The tick that the i-th price in a bucket is from. */
  lemma {:induction false} PutFrom(ts: seq<Tick>, n: nat, sym: nat, side: Side, e: int, i: nat, interval: int,
                                   offset: int)
    returns (k: nat)
    requires interval > 0 && n <= |ts| && i < |Put(ts, n, sym, side, e, interval, offset)|
    ensures k < n && OfferedAt(ts, k, sym, side, e, interval, offset)
    ensures Quotes(ts[k].q, side, Put(ts, n, sym, side, e, interval, offset)[i])
    ensures |Put(ts, k, sym, side, e, interval, offset)| == i
    decreases n
  {
    var ps := PutOne(ts, n, sym, side, e, interval, offset);
    k := n - 1;
    if i < |Put(ts, n - 1, sym, side, e, interval, offset)| {
      k := PutFrom(ts, n - 1, sym, side, e, i, interval, offset);
    }
  }

  /** Where the price of the k-th tick is in its bucket. */
  lemma {:induction false} PutOf(ts: seq<Tick>, n: nat, sym: nat, side: Side, e: int, k: nat, interval: int,
                                 offset: int)
    requires interval > 0 && k < n <= |ts| && OfferedAt(ts, k, sym, side, e, interval, offset)
    ensures var i, ps := |Put(ts, k, sym, side, e, interval, offset)|, Put(ts, n, sym, side, e, interval, offset);
            && i < |ps| && Quotes(ts[k].q, side, ps[i])
            && forall p: nat {:trigger Quotes(ts[k].q, side, p)} :: Quotes(ts[k].q, side, p) ==> ps[i] == p
    decreases n
  {
    var ps := PutOne(ts, n, sym, side, e, interval, offset);
    if k < n - 1 {
      PutOf(ts, n - 1, sym, side, e, k, interval, offset);
    }
  }

  /** The price of an earlier tick is further in front. */
  lemma PutAhead(ts: seq<Tick>, j: nat, k: nat, sym: nat, side: Side, e: int, interval: int, offset: int)
    requires interval > 0 && j < k <= |ts| && OfferedAt(ts, j, sym, side, e, interval, offset)
    ensures |Put(ts, j, sym, side, e, interval, offset)| < |Put(ts, k, sym, side, e, interval, offset)|
  {
    PutOf(ts, k, sym, side, e, j, interval, offset);
  }

  lemma FirstIsQuoted(ts: seq<Tick>, sym: nat, side: Side, e: int, interval: int, offset: int)
    requires interval > 0 && Put(ts, |ts|, sym, side, e, interval, offset) != []
    ensures QuotedFirst(ts, sym, side, e, Put(ts, |ts|, sym, side, e, interval, offset)[0], interval, offset)
  {
    var k := PutFrom(ts, |ts|, sym, side, e, 0, interval, offset);
    forall j: nat {:trigger OfferedAt(ts, j, sym, side, e, interval, offset)}
      | OfferedAt(ts, j, sym, side, e, interval, offset)
      ensures k <= j
    {
      if j < k {
        PutAhead(ts, j, k, sym, side, e, interval, offset);
      }
    }
  }

  lemma LastIsQuoted(ts: seq<Tick>, sym: nat, side: Side, e: int, interval: int, offset: int)
    requires interval > 0 && Put(ts, |ts|, sym, side, e, interval, offset) != []
    ensures var ps := Put(ts, |ts|, sym, side, e, interval, offset);
            QuotedLast(ts, sym, side, e, ps[|ps| - 1], interval, offset)
  {
    var ps := Put(ts, |ts|, sym, side, e, interval, offset);
    var k := PutFrom(ts, |ts|, sym, side, e, |ps| - 1, interval, offset);
    forall j: nat {:trigger OfferedAt(ts, j, sym, side, e, interval, offset)}
      | OfferedAt(ts, j, sym, side, e, interval, offset)
      ensures j <= k
    {
      if k < j {
        PutAhead(ts, k, j, sym, side, e, interval, offset);
        PutAhead(ts, j, |ts|, sym, side, e, interval, offset);
      }
    }
  }

  lemma PutIsOffered(ts: seq<Tick>, sym: nat, side: Side, e: int, interval: int, offset: int)
    requires interval > 0
    ensures Put(ts, |ts|, sym, side, e, interval, offset) != [] <==> Offered(ts, sym, side, e, interval, offset)
  {
    if Put(ts, |ts|, sym, side, e, interval, offset) != [] {
      var k := PutFrom(ts, |ts|, sym, side, e, 0, interval, offset);
    }
    if Offered(ts, sym, side, e, interval, offset) {
      var k: nat :| OfferedAt(ts, k, sym, side, e, interval, offset);
      PutOf(ts, |ts|, sym, side, e, k, interval, offset);
    }
  }

  lemma FullIsQuoted(w: Candle, ts: seq<Tick>, interval: int, offset: int)
    requires interval > 0 && CandleFull(w, ts, interval, offset)
    ensures QuotedBar(w, ts, interval, offset)
  {
    if w.bar.cnt > 0 {
      FirstIsQuoted(ts, w.sym, w.side, w.ts, interval, offset);
      LastIsQuoted(ts, w.sym, w.side, w.ts, interval, offset);
      PutQuoted(w, ts, w.bar.v.h, interval, offset);
      PutQuoted(w, ts, w.bar.v.l, interval, offset);
    }
    forall p: nat {:trigger Quoted(ts, w.sym, w.side, w.ts, p, interval, offset)}
      | Quoted(ts, w.sym, w.side, w.ts, p, interval, offset)
      ensures w.bar.cnt > 0 && w.bar.v.l <= p <= w.bar.v.h
    {
      QuotedBounded(w, ts, p, interval, offset);
    }
  }

  lemma PutQuoted(w: Candle, ts: seq<Tick>, p: nat, interval: int, offset: int)
    requires interval > 0 && p in Put(ts, |ts|, w.sym, w.side, w.ts, interval, offset)
    ensures Quoted(ts, w.sym, w.side, w.ts, p, interval, offset)
  {
    var ps := Put(ts, |ts|, w.sym, w.side, w.ts, interval, offset);
    var i :| 0 <= i < |ps| && ps[i] == p;
    var k := PutFrom(ts, |ts|, w.sym, w.side, w.ts, i, interval, offset);
  }

  lemma QuotedBounded(w: Candle, ts: seq<Tick>, p: nat, interval: int, offset: int)
    requires interval > 0 && CandleFull(w, ts, interval, offset) && Quoted(ts, w.sym, w.side, w.ts, p, interval, offset)
    ensures w.bar.cnt > 0 && w.bar.v.l <= p <= w.bar.v.h
  {
    var ps := Put(ts, |ts|, w.sym, w.side, w.ts, interval, offset);
    var k: nat :| OfferedAt(ts, k, w.sym, w.side, w.ts, interval, offset) && Quotes(ts[k].q, w.side, p);
    PutOf(ts, |ts|, w.sym, w.side, w.ts, k, interval, offset);
    assert p == ps[|Put(ts, k, w.sym, w.side, w.ts, interval, offset)|];
  }

  lemma CandlesAsWanted(ws: seq<Candle>, ts: seq<Tick>, n: nat, b: int, interval: int, offset: int)
    requires interval > 0 && Right(ws, ts, n, b, interval, offset) && EndAt(ts, |ts|, interval, offset) < b
    ensures forall i {:trigger ws[i]} :: 0 <= i < |ws| ==> QuotedBar(ws[i], ts, interval, offset)
    ensures forall sym: nat, side: Side, e {:trigger Candles(ws, sym, side, e)} :: sym < n ==>
              Candles(ws, sym, side, e) == if Wanted(ts, sym, side, e, interval, offset) then 1 else 0
  {
    forall i {:trigger ws[i]} | 0 <= i < |ws| ensures QuotedBar(ws[i], ts, interval, offset) {
      FullIsQuoted(ws[i], ts, interval, offset);
    }
    forall sym: nat, side: Side, e {:trigger Candles(ws, sym, side, e)} | sym < n
      ensures Candles(ws, sym, side, e) == if Wanted(ts, sym, side, e, interval, offset) then 1 else 0
    {
      DueIsWanted(ts, sym, side, e, interval, offset);
      if e >= b {
        NoCandle(ws, |ws|, sym, side, e);
        NotDueLater(ts, sym, side, e, interval, offset);
      }
    }
  }

  lemma DueIsWanted(ts: seq<Tick>, sym: nat, side: Side, e: int, interval: int, offset: int)
    requires interval > 0
    ensures Due(ts, sym, side, e, interval, offset) <==> Wanted(ts, sym, side, e, interval, offset)
  {
    PutIsOffered(ts, sym, Bids, e, interval, offset);
    PutIsOffered(ts, sym, Asks, e, interval, offset);
    PutIsOffered(ts, sym, Trades, e, interval, offset);
  }

  lemma NotDueLater(ts: seq<Tick>, sym: nat, side: Side, e: int, interval: int, offset: int)
    requires interval > 0 && EndAt(ts, |ts|, interval, offset) < e
    ensures !Due(ts, sym, side, e, interval, offset)
  {
    PutLater(ts, |ts|, sym, Bids, e, interval, offset);
    PutLater(ts, |ts|, sym, Asks, e, interval, offset);
    PutLater(ts, |ts|, sym, Trades, e, interval, offset);
  }

  /** A run over a file. Each candle sums up what got into its bucket, and the counts add up to the
      prices there were. The candles are right if all ticks with a price got into the bucket of
      their interval, and if the ticks come in order of time, only then. */
  method MakeCandles(ticks: seq<Tick>, nsyms: nat, interval: int, offset: int) returns (ws: seq<Candle>)
    requires interval > 0 && forall i {:trigger ticks[i]} :: 0 <= i < |ticks| ==> ticks[i].sym <= nsyms
    ensures AllFull(ws, ticks, interval, offset)
    ensures AllPlaced(ticks, interval, offset) ==> AllOk(ws, ticks, interval)
    ensures Ascending(ticks) ==> (AllOk(ws, ticks, interval) <==> AllPlaced(ticks, interval, offset))
    ensures NoneLost(ws, ticks, nsyms)
    ensures forall i {:trigger ws[i]} :: 0 <= i < |ws| ==> QuotedBar(ws[i], ticks, interval, offset)
    ensures forall sym: nat, side: Side, e {:trigger Candles(ws, sym, side, e)} :: sym <= nsyms ==>
              Candles(ws, sym, side, e) == if Wanted(ticks, sym, side, e, interval, offset) then 1 else 0
  {
    var b := new Bucketiser(nsyms, interval, offset);
    assert ticks[..0] == [];
    for i := 0 to |ticks|
      invariant fresh(b) && b.Valid() && b.seen == ticks[..i] && |b.cand| == nsyms + 1
      invariant b.interval == interval && b.offset == offset
    {
      b.Bucketise(ticks[i]);
      assert ticks[..i + 1] == ticks[..i] + [ticks[i]];
    }
    assert ticks[..|ticks|] == ticks;
    b.LastRound();
    ws := b.written;
    CandlesAsWanted(ws, ticks, nsyms + 1, b.curTs + 1, interval, offset);
    if AllPlaced(ticks, interval, offset) {
      AllOkIfPlaced(ws, ticks, interval, offset);
    } else if Ascending(ticks) && AllOk(ws, ticks, interval) {
      PlacedIfAllOk(ws, ticks, nsyms + 1, b.curTs + 1, interval, offset);
    }
  }

  /** A bid five seconds before the offset ends up in the candle of the ten seconds after it. */
  method EarlyTick() returns (ws: seq<Candle>)
    ensures !AllOk(ws, [Tick(1, 95, Bid(7))], 10)
  {
    var t := [Tick(1, 95, Bid(7))];
    ws := MakeCandles(t, 1, 10, 100);
    EarlyMisplaced();
  }

  lemma EarlyMisplaced()
    ensures !AllPlaced([Tick(1, 95, Bid(7))], 10, 100)
  {
    var t := [Tick(1, 95, Bid(7))];
    assert CDiv(-5, 10) == 0;
    assert EndAt(t, 0, 10, 100) == 0;
    assert EndAt(t, 1, 10, 100) == 110;
    assert !Placed(t, 0, 10, 100);
  }
}
