/** Sorting a tick page (src/utetpc.c): pages of up to 256 ticks are sorted by way of their keys,
    collated, and merged bottom up between the page and a second buffer. */
module PageSort {
  import opened Basics
  import opened Merging
  import opened IndexSort
  import opened Ticks

  const UTE_BLKSZ: nat := 262144
  const NOFFS: nat := 1024

  // ---------------------------------------------------------------- keys and where they belong

  /** Sort keys of the ticks, and where each tick starts. */
  function Entries(ts: seq<Tick>, off: nat): (r: seq<PermIdx>)
    requires GoodTicks(ts)
    ensures |r| == |ts|
  {
    assert ts != [] ==> GoodTick(ts[0]);
    if ts == [] then [] else [PermIdx(ts[0][0].key, off)] + Entries(ts[1..], off + |ts[0]|)
  }

  /** The power of two for the merge rounds, for up to 256 pairs. */
  function Ilog2Ceil(n: nat): nat {
    if n > 128 then 256
    else if n <= 4 then 4
    else if n <= 8 then 8
    else if n <= 16 then 16
    else if n <= 32 then 32
    else if n <= 64 then 64
    else 128
  }

  function Zeros(n: nat): seq<PermIdx> { seq(n, _ => PermIdx(0, 0)) }

  /** The tick of a page that starts at o. */
  function TickAt(page: seq<Sndwch>, o: nat): Tick {
    if o < |page| && o + TickSize(page[o].key) <= |page| then page[o..o + TickSize(page[o].key)] else []
  }

  function Fetch(page: seq<Sndwch>): PermIdx -> Tick { (p: PermIdx) => TickAt(page, p.si) }

  /** Every entry leads to its tick, and has its key. */
  ghost predicate Leads(page: seq<Sndwch>, ts: seq<Tick>, e: seq<PermIdx>) {
    && Mapped(Fetch(page), e) == ts
    && forall i {:trigger e[i]} :: 0 <= i < |e| == |ts| ==> e[i].skey == TickKey()(ts[i]) > 0
  }

  lemma {:induction false} EntriesFetch(before: seq<Sndwch>, ts: seq<Tick>, page: seq<Sndwch>, e: seq<PermIdx>)
    requires GoodTicks(ts) && page == before + Flat(ts) && e == Entries(ts, |before|)
    ensures Leads(page, ts, e)
    decreases |ts|
  {
    if ts != [] {
      var rest := Flat(ts[1..]);
      assert page == before + ts[0] + rest;
      assert page[|before|] == ts[0][0] && page[|before|..|before| + |ts[0]|] == ts[0];
      EntriesFetch(before + ts[0], ts[1..], page, e[1..]);
      LeadsMore(page, ts, e);
    }
  }

  lemma LeadsMore(page: seq<Sndwch>, ts: seq<Tick>, e: seq<PermIdx>)
    requires ts != [] && |e| == |ts| && Leads(page, ts[1..], e[1..])
    requires Fetch(page)(e[0]) == ts[0] && e[0].skey == TickKey()(ts[0]) > 0
    ensures Leads(page, ts, e)
  {
    forall i {:trigger e[i]} | 0 <= i < |e| ensures Fetch(page)(e[i]) == ts[i] && e[i].skey == TickKey()(ts[i]) > 0 {
      if i > 0 {
        assert e[i] == e[1..][i - 1] && ts[i] == ts[1..][i - 1];
        assert Mapped(Fetch(page), e[1..])[i - 1] == ts[1..][i - 1];
      }
    }
  }

  lemma {:induction false} EntriesMore(ts: seq<Tick>, off: nat, t: Tick)
    requires GoodTicks(ts) && GoodTick(t)
    ensures GoodTicks(ts + [t]) && Entries(ts + [t], off) == Entries(ts, off) + [PermIdx(t[0].key, off + |Flat(ts)|)]
    ensures |Flat(ts + [t])| == |Flat(ts)| + |t|
    decreases |ts|
  {
    var u := ts + [t];
    forall i {:trigger u[i]} | 0 <= i < |u| ensures GoodTick(u[i]) {
      assert i < |ts| ==> u[i] == ts[i];
    }
    if ts == [] {
      FlatOne(t);
    } else {
      assert u[1..] == ts[1..] + [t];
      EntriesMore(ts[1..], off + |ts[0]|, t);
    }
  }

  /** Sorted pairs among which there are exactly z zeros, all in front. */
  lemma {:induction false} ZerosFirst(r: seq<PermIdx>, z: nat, e: seq<PermIdx>)
    requires SortedPairs(r) && multiset(r) == multiset(Zeros(z)) + multiset(e)
    requires forall i {:trigger e[i]} :: 0 <= i < |e| ==> e[i].skey > 0
    ensures |r| == z + |e| && multiset(r[z..]) == multiset(e)
    ensures forall i {:trigger r[i]} :: 0 <= i < |r| ==> (r[i].skey == 0 <==> i < z)
    decreases z
  {
    if z == 0 {
      NoZeros(r, e);
    } else {
      ZeroHead(r, z, e);
      ZeroTail(r, z, e);
      ZerosFirst(r[1..], z - 1, e);
      assert r[1..][z - 1..] == r[z..];
      OneZeroMore(r, z);
    }
  }

  lemma OneZeroMore(r: seq<PermIdx>, z: nat)
    requires r != [] && r[0].skey == 0 && z > 0
    requires var t := r[1..]; forall i {:trigger t[i]} :: 0 <= i < |t| ==> (t[i].skey == 0 <==> i < z - 1)
    ensures forall i {:trigger r[i]} :: 0 <= i < |r| ==> (r[i].skey == 0 <==> i < z)
  {
    forall i {:trigger r[i]} | 0 <= i < |r| ensures r[i].skey == 0 <==> i < z {
      assert i > 0 ==> r[i] == r[1..][i - 1];
    }
  }

  lemma NoZeros(r: seq<PermIdx>, e: seq<PermIdx>)
    requires multiset(r) == multiset(Zeros(0)) + multiset(e)
    requires forall i {:trigger e[i]} :: 0 <= i < |e| ==> e[i].skey > 0
    ensures |r| == |e| && multiset(r[0..]) == multiset(e)
    ensures forall i {:trigger r[i]} :: 0 <= i < |r| ==> r[i].skey > 0
  {
    assert multiset(Zeros(0)) == multiset{} && r[0..] == r;
    assert |multiset(r)| == |multiset(e)|;
    forall i {:trigger r[i]} | 0 <= i < |r| ensures r[i].skey > 0 {
      assert r[i] in multiset(r) && r[i] in multiset(e);
    }
  }

  lemma ZeroHead(r: seq<PermIdx>, z: nat, e: seq<PermIdx>)
    requires SortedPairs(r) && multiset(r) == multiset(Zeros(z)) + multiset(e) && z > 0
    requires forall i {:trigger e[i]} :: 0 <= i < |e| ==> e[i].skey > 0
    ensures r != [] && r[0] == PermIdx(0, 0)
  {
    var none := PermIdx(0, 0);
    assert Zeros(z)[0] == none;
    assert none in multiset(Zeros(z)) && none in multiset(r);
    var i := MemberAt(r, none);
    SortedAt(Key(), r, 0, i);
    assert r[0] in multiset(r);
    ZeroNotIn(e, r[0]);
    assert r[0] in multiset(Zeros(z));
  }

  lemma ZeroNotIn(e: seq<PermIdx>, x: PermIdx)
    requires x.skey == 0 && forall i {:trigger e[i]} :: 0 <= i < |e| ==> e[i].skey > 0
    ensures x !in multiset(e)
  {
    if x in multiset(e) {
      var j := MemberAt(e, x);
    }
  }

  lemma ZeroTail(r: seq<PermIdx>, z: nat, e: seq<PermIdx>)
    requires r != [] && r[0] == PermIdx(0, 0) && z > 0 && multiset(r) == multiset(Zeros(z)) + multiset(e)
    ensures multiset(r[1..]) == multiset(Zeros(z - 1)) + multiset(e)
  {
    var a, b := r[1..], Zeros(z);
    assert b[1..] == Zeros(z - 1) && b[0] == r[0];
    MultisetTail(r);
    MultisetTail(b);
    TakeOne(r[0], multiset(a), multiset(b[1..]), multiset(e));
  }

  lemma TakeOne(x: PermIdx, a: multiset<PermIdx>, b: multiset<PermIdx>, c: multiset<PermIdx>)
    requires a + multiset{x} == b + multiset{x} + c
    ensures a == b + c
  {
    forall y ensures a[y] == (b + c)[y] {
      assert (a + multiset{x})[y] == (b + multiset{x} + c)[y];
    }
  }

  // ---------------------------------------------------------------- idxsort

  /** Puts the keys of up to 256 ticks into the scratch. */
  method GatherKeys(keys: array<PermIdx>, sp: array<Sndwch>, tp: nat, ep: nat, ghost ts: seq<Tick>)
    returns (nsc: nat, nt: nat)
    requires keys.Length == 2 * IDXSORT_SIZE && IsSlice(sp[..], tp, ep, Flat(ts)) && GoodTicks(ts)
    modifies keys
    ensures nsc == Min(IDXSORT_SIZE, |ts|) && nt == |Flat(ts[..nsc])| && tp + nt <= ep && GoodTicks(ts[..nsc])
    ensures IsSlice(keys[..], 0, nsc, Entries(ts[..nsc], 0)) && IsSlice(sp[..], tp + nt, ep, Flat(ts[nsc..]))
    ensures GoodTicks(ts[nsc..])
  {
    ghost var was := keys[..];
    ghost var done := [];
    nsc, nt := 0, 0;
    FilledNothing(was, 0);
    GatherNone(sp[..], tp, ep, ts);
    while nsc < IDXSORT_SIZE && tp + nt < ep
      invariant nsc <= IDXSORT_SIZE && |done| == nsc && Gathers(sp[..], tp, ep, ts, nsc, nt, done)
      invariant Filled(was, keys[..], 0, done)
      decreases ep - (tp + nt)
    {
      ghost var e := GatherOne(sp[..], tp, ep, ts, nsc, nt, done);
      FilledPut(was, keys[..], 0, done, e);
      var tsz := TickSize(sp[tp + nt].key);
      keys[nsc] := PermIdx(sp[tp + nt].key, nt);
      done := done + [e];
      nsc, nt := nsc + 1, nt + tsz;
    }
    GatherEnd(sp[..], tp, ep, ts, nsc, nt, done);
    FilledSlice(was, keys[..], 0, done);
    SliceOf(keys[..], 0, nsc, done);
  }

  /** The first k ticks, nt sandwiches of the page, have their entries in done. */
  ghost predicate Gathering(sp: seq<Sndwch>, tp: nat, ep: nat, ts: seq<Tick>, k: nat, nt: nat, done: seq<PermIdx>) {
    && k <= |ts| && nt == |Flat(ts[..k])| && tp + nt <= ep
    && GoodTicks(ts[..k]) && done == Entries(ts[..k], 0)
    && IsSlice(sp, tp + nt, ep, Flat(ts[k..])) && GoodTicks(ts[k..])
  }

  /** Marks a number of ticks that a proof looks at. */
  ghost predicate Counted(k: nat) { true }

  /** Gathering, with its parts out of sight until the number of ticks is looked at. */
  ghost predicate Gathers(sp: seq<Sndwch>, tp: nat, ep: nat, ts: seq<Tick>, k: nat, nt: nat, done: seq<PermIdx>) {
    forall u {:trigger Counted(u)} :: Counted(u) && u == k ==> Gathering(sp, tp, ep, ts, u, nt, done)
  }

  lemma GatherNone(sp: seq<Sndwch>, tp: nat, ep: nat, ts: seq<Tick>)
    requires IsSlice(sp, tp, ep, Flat(ts)) && GoodTicks(ts)
    ensures Gathers(sp, tp, ep, ts, 0, 0, [])
  {
    assert ts[0..] == ts && ts[..0] == [];
  }

  lemma GatherEnd(sp: seq<Sndwch>, tp: nat, ep: nat, ts: seq<Tick>, k: nat, nt: nat, done: seq<PermIdx>)
    requires Gathers(sp, tp, ep, ts, k, nt, done) && k <= IDXSORT_SIZE && (k < IDXSORT_SIZE ==> tp + nt >= ep)
    ensures k == Min(IDXSORT_SIZE, |ts|) && nt == |Flat(ts[..k])| && tp + nt <= ep && GoodTicks(ts[..k])
    ensures done == Entries(ts[..k], 0) && IsSlice(sp, tp + nt, ep, Flat(ts[k..])) && GoodTicks(ts[k..])
  {
    assert Counted(k);
    if k < |ts| {
      FirstTick(sp, tp + nt, ep, ts[k..]);
    }
  }

  lemma GatherOne(sp: seq<Sndwch>, tp: nat, ep: nat, ts: seq<Tick>, k: nat, nt: nat, done: seq<PermIdx>)
    returns (e: PermIdx)
    requires Gathers(sp, tp, ep, ts, k, nt, done) && tp + nt < ep
    ensures tp + nt < |sp| && e == PermIdx(sp[tp + nt].key, nt)
    ensures TickSize(sp[tp + nt].key) > 0
    ensures Gathers(sp, tp, ep, ts, k + 1, nt + TickSize(sp[tp + nt].key), done + [e])
  {
    assert Counted(k);
    FirstTick(sp, tp + nt, ep, ts[k..]);
    assert ts[k..][0] == ts[k] && ts[k..][1..] == ts[k + 1..] && ts[..k + 1] == ts[..k] + [ts[k]];
    EntriesMore(ts[..k], 0, ts[k]);
    e := PermIdx(ts[k][0].key, nt);
  }

  /** The pairs that IdxSort leaves in the scratch: the entries of ts in order of their keys, after
      zeros that fill up to a power of two. */
  ghost predicate SortedEntries(keys: seq<PermIdx>, ts: seq<Tick>, e: seq<PermIdx>) {
    && GoodTicks(ts) && 0 < |ts| <= IDXSORT_SIZE && |e| == |ts| <= Ilog2Ceil(|ts|)
    && IsSlice(keys, Ilog2Ceil(|ts|) - |ts|, Ilog2Ceil(|ts|), e)
    && (forall i {:trigger keys[i]} :: 0 <= i < Ilog2Ceil(|ts|) - |ts| ==> keys[i].skey == 0)
    && SortedPairs(e) && multiset(e) == multiset(Entries(ts, 0))
  }

  /** idxsort: sorts the keys of the first 256 ticks, or of all if there are fewer. */
  method IdxSort(keys: array<PermIdx>, sp: array<Sndwch>, tp: nat, ep: nat, ghost ts: seq<Tick>)
    returns (nt: nat, ghost n: nat, ghost e: seq<PermIdx>)
    requires keys.Length == 2 * IDXSORT_SIZE && IsSlice(sp[..], tp, ep, Flat(ts)) && GoodTicks(ts) && ts != []
    modifies keys
    ensures n == Min(IDXSORT_SIZE, |ts|) && nt == |Flat(ts[..n])| && tp + nt <= ep
    ensures SortedEntries(keys[..], ts[..n], e)
    ensures IsSlice(sp[..], tp + nt, ep, Flat(ts[n..])) && GoodTicks(ts[n..])
  {
    var nsc;
    nsc, nt := GatherKeys(keys, sp, tp, ep, ts);
    n := nsc;
    var m2p := Ilog2Ceil(nsc);
    e := SortKeys(keys, nsc, m2p, ts[..n]);
  }

  method SortKeys(keys: array<PermIdx>, nsc: nat, m2p: nat, ghost ts: seq<Tick>) returns (ghost e: seq<PermIdx>)
    requires keys.Length == 2 * IDXSORT_SIZE && nsc == |ts| && 0 < |ts| <= IDXSORT_SIZE && m2p == Ilog2Ceil(nsc)
    requires GoodTicks(ts) && IsSlice(keys[..], 0, nsc, Entries(ts, 0))
    modifies keys
    ensures SortedEntries(keys[..], ts, e)
  {
    ghost var entries := Entries(ts, 0);
    ghost var r := SortPairs(keys, nsc, m2p, entries);
    EntriesPositive(ts);
    assert |r| == m2p;
    e := r[m2p - nsc..];
    SplitPairs(keys[..], r, m2p - nsc, m2p, entries, e);
  }

  lemma EntriesPositive(ts: seq<Tick>)
    requires GoodTicks(ts)
    ensures forall i {:trigger Entries(ts, 0)[i]} :: 0 <= i < |ts| ==> Entries(ts, 0)[i].skey > 0
  {
    PageFetch(ts);
  }

  method SortPairs(keys: array<PermIdx>, nsc: nat, m2p: nat, ghost entries: seq<PermIdx>)
    returns (ghost r: seq<PermIdx>)
    requires keys.Length == 2 * IDXSORT_SIZE && nsc == |entries| && 0 < nsc <= IDXSORT_SIZE && m2p == Ilog2Ceil(nsc)
    requires IsSlice(keys[..], 0, nsc, entries)
    modifies keys
    ensures IsSlice(keys[..], 0, m2p, r) && SortedPairs(r) && multiset(r) == multiset(entries + Zeros(m2p - nsc))
  {
    FillZeros(keys, nsc, m2p, entries);
    ghost var was := keys[..];
    ZerosFilled(keys[..], nsc, m2p, entries);
    ghost var runs := PornsortAll(keys, nsc, m2p);
    assert multiset(Flat(runs)) == multiset(entries + Zeros(m2p - nsc)) by {
      assert was[..m2p] == entries + Zeros(m2p - nsc);
    }
    r := MergeAll(keys, m2p, runs, multiset(Flat(runs)));
  }

  lemma ZerosFilled(keys: seq<PermIdx>, nsc: nat, m: nat, entries: seq<PermIdx>)
    requires nsc == |entries| <= m <= |keys| && keys[..m] == entries + Zeros(m - nsc)
    ensures forall k {:trigger keys[k]} :: nsc <= k < m ==> keys[k] == PermIdx(0, 0)
  {
    forall k {:trigger keys[k]} | nsc <= k < m ensures keys[k] == PermIdx(0, 0) {
      assert keys[k] == keys[..m][k];
    }
  }

  lemma SplitPairs(keys: seq<PermIdx>, r: seq<PermIdx>, z: nat, m: nat, entries: seq<PermIdx>, e: seq<PermIdx>)
    requires IsSlice(keys, 0, m, r) && SortedPairs(r) && multiset(r) == multiset(entries + Zeros(z))
    requires z + |entries| == m
    requires forall i {:trigger entries[i]} :: 0 <= i < |entries| ==> entries[i].skey > 0
    requires e == r[z..]
    ensures IsSlice(keys, z, m, e) && SortedPairs(e) && multiset(e) == multiset(entries)
    ensures forall i {:trigger keys[i]} :: 0 <= i < z ==> keys[i].skey == 0
  {
    ZerosFirst(r, z, entries);
    SliceOf(keys, 0, m, r);
    assert e == keys[z..m];
    SliceOf(keys, z, m, e);
    SuffixSorted(r, z);
    forall i {:trigger keys[i]} | 0 <= i < z ensures keys[i].skey == 0 {
      assert r[i] == keys[i];
    }
  }

  lemma {:induction false} SuffixSorted(r: seq<PermIdx>, z: nat)
    requires SortedPairs(r) && z <= |r|
    ensures SortedPairs(r[z..])
    decreases z
  {
    if z > 0 {
      SuffixSorted(r[1..], z - 1);
      assert r[1..][z - 1..] == r[z..];
    } else {
      assert r[0..] == r;
    }
  }

  /** memset of the pairs up to the power of two. */
  method FillZeros(keys: array<PermIdx>, nsc: nat, m: nat, ghost entries: seq<PermIdx>)
    requires nsc == |entries| <= m <= keys.Length && IsSlice(keys[..], 0, nsc, entries)
    modifies keys
    ensures keys[..m] == entries + Zeros(m - nsc)
  {
    SliceOf(keys[..], 0, nsc, entries);
    for k := nsc to m
      invariant keys[..k] == entries + Zeros(k - nsc)
    {
      keys[k] := PermIdx(0, 0);
      assert keys[..k + 1] == keys[..k] + [PermIdx(0, 0)];
    }
  }

  // ---------------------------------------------------------------- collate

  /** memcpy between two buffers. */
  method CopySndwch(tgt: array<Sndwch>, to: nat, src: array<Sndwch>, from: nat, n: nat)
    requires tgt != src && to + n <= tgt.Length && from + n <= src.Length
    modifies tgt
    ensures Filled(old(tgt[..]), tgt[..], to, src[from..from + n])
  {
    ghost var was, data := tgt[..], src[..];
    FilledNothing(was, to);
    assert data[from..from] == [];
    for i := 0 to n
      invariant Filled(was, tgt[..], to, data[from..from + i])
    {
      FilledPut(was, tgt[..], to, data[from..from + i], data[from + i]);
      assert data[from..from + i] + [data[from + i]] == data[from..from + (i + 1)];
      tgt[to + i] := src[from + i];
    }
  }

  /** The ticks in the order of the sorted entries. */
  ghost function Collated(ts: seq<Tick>, e: seq<PermIdx>): seq<Tick> { Mapped(Fetch(Flat(ts)), e) }

  lemma CollatedFacts(ts: seq<Tick>, e: seq<PermIdx>)
    requires GoodTicks(ts) && SortedPairs(e) && multiset(e) == multiset(Entries(ts, 0))
    ensures multiset(Collated(ts, e)) == multiset(ts) && |Flat(Collated(ts, e))| == |Flat(ts)|
    ensures GoodTicks(Collated(ts, e)) && Sorted(TickKey(), Collated(ts, e))
    ensures forall i {:trigger e[i]} :: 0 <= i < |e| ==> e[i].skey > 0
  {
    var out := Collated(ts, e);
    PageFetch(ts);
    MappedMultiset(Fetch(Flat(ts)), e, Entries(ts, 0));
    FlatBag(out, ts);
    forall i {:trigger e[i]} | 0 <= i < |e| ensures e[i].skey > 0 {
      EntryFetched(ts, e, i);
    }
    forall i {:trigger out[i]} | 0 <= i < |out| ensures GoodTick(out[i]) {
      EntryFetched(ts, e, i);
    }
    CollatedSorted(ts, e);
  }

  lemma PageFetch(ts: seq<Tick>)
    requires GoodTicks(ts)
    ensures Mapped(Fetch(Flat(ts)), Entries(ts, 0)) == ts
    ensures forall i {:trigger Entries(ts, 0)[i]} :: 0 <= i < |ts| ==> Entries(ts, 0)[i].skey == TickKey()(ts[i]) > 0
  {
    assert [] + Flat(ts) == Flat(ts);
    EntriesFetch([], ts, Flat(ts), Entries(ts, 0));
  }

  /** What an entry fetches is a tick with the entry's key. */
  lemma EntryFetched(ts: seq<Tick>, e: seq<PermIdx>, i: nat)
    requires GoodTicks(ts) && multiset(e) == multiset(Entries(ts, 0)) && i < |e|
    ensures GoodTick(Collated(ts, e)[i]) && TickKey()(Collated(ts, e)[i]) == e[i].skey > 0
  {
    PageFetch(ts);
    assert e[i] in multiset(Entries(ts, 0));
    var k := MemberAt(Entries(ts, 0), e[i]);
    assert Mapped(Fetch(Flat(ts)), Entries(ts, 0))[k] == ts[k];
  }

  lemma CollatedSorted(ts: seq<Tick>, e: seq<PermIdx>)
    requires GoodTicks(ts) && SortedPairs(e) && multiset(e) == multiset(Entries(ts, 0))
    ensures Sorted(TickKey(), Collated(ts, e))
  {
    var out := Collated(ts, e);
    forall i, j | 0 <= i <= j < |out| ensures TickKey()(out[i]) <= TickKey()(out[j]) {
      SortedAt(Key(), e, i, j);
      EntryFetched(ts, e, i);
      EntryFetched(ts, e, j);
    }
    SortedFrom(TickKey(), out);
  }

  /** Where the tick is that an entry leads to. */
  lemma FetchedTick(s: seq<Sndwch>, a: nat, b: nat, page: seq<Sndwch>, o: nat)
    requires IsSlice(s, a, b, page) && TickAt(page, o) != []
    ensures a + o + |TickAt(page, o)| <= b && TickSize(s[a + o].key) == |TickAt(page, o)|
    ensures s[a + o..a + o + |TickAt(page, o)|] == TickAt(page, o)
  {
    SliceOf(s, a, b, page);
    var n := TickSize(page[o].key);
    assert s[a + o] == page[o];
    Subslice(s, a, b, o, o + n);
  }

  /** collate: copies whole ticks in the order of the sorted entries. */
  method Collate(tgt: array<Sndwch>, to: nat, src: array<Sndwch>, tp: nat, keys: array<PermIdx>, nticks: nat,
                 ghost ts: seq<Tick>, ghost e: seq<PermIdx>) returns (ghost out: seq<Tick>)
    requires tgt != src && keys.Length == 2 * IDXSORT_SIZE && SortedEntries(keys[..], ts, e)
    requires nticks == |Flat(ts)| && to + nticks <= tgt.Length && IsSlice(src[..], tp, tp + nticks, Flat(ts))
    modifies tgt
    ensures Filled(old(tgt[..]), tgt[..], to, Flat(out)) && |Flat(out)| == nticks
    ensures GoodTicks(out) && Sorted(TickKey(), out) && multiset(out) == multiset(ts)
  {
    CollatedFacts(ts, e);
    out := Collated(ts, e);
    var j := SkipZeros(keys, nticks, ts, e);
    ghost var was, z := tgt[..], j;
    ghost var k: nat := 0;
    FilledNothing(was, to);
    var i: nat := 0;
    while i < nticks
      invariant j == z + k && i <= nticks && Copied(was, tgt[..], to, out, k, i)
      decreases |out| - k
    {
      assert out[..|out|] == out;
      var tsz := CollateStep(tgt, to, src, tp, keys, j, nticks, i, ts, e, k, was);
      j, k, i := j + 1, k + 1, i + tsz;
    }
    PrefixDone(out, k);
  }

  /** k ticks are copied, i sandwiches in all. */
  ghost predicate Copied(was: seq<Sndwch>, now: seq<Sndwch>, to: nat, out: seq<Tick>, k: nat, i: nat) {
    k <= |out| && i == |Flat(out[..k])| && Filled(was, now, to, Flat(out[..k]))
  }

  lemma CopiedOne(was: seq<Sndwch>, now: seq<Sndwch>, now': seq<Sndwch>, to: nat, out: seq<Tick>, k: nat, i: nat)
    requires Copied(was, now, to, out, k, i) && k < |out| && Filled(now, now', to + i, out[k])
    ensures Copied(was, now', to, out, k + 1, i + |out[k]|) && i + |out[k]| <= |Flat(out)|
  {
    PrefixFlat(out, k);
    FilledMore(was, now, now', to, Flat(out[..k]), out[k]);
  }

  method CollateStep(tgt: array<Sndwch>, to: nat, src: array<Sndwch>, tp: nat, keys: array<PermIdx>, j: nat,
                     nticks: nat, i: nat,
                     ghost ts: seq<Tick>, ghost e: seq<PermIdx>, ghost k: nat, ghost was: seq<Sndwch>)
    returns (tsz: nat)
    requires tgt != src && keys.Length == 2 * IDXSORT_SIZE && SortedEntries(keys[..], ts, e)
    requires nticks == |Flat(ts)| && to + nticks <= tgt.Length && IsSlice(src[..], tp, tp + nticks, Flat(ts))
    requires k < |e| && j == Ilog2Ceil(|ts|) - |ts| + k && Copied(was, tgt[..], to, Collated(ts, e), k, i)
    modifies tgt
    ensures i + tsz <= nticks && Copied(was, tgt[..], to, Collated(ts, e), k + 1, i + tsz)
  {
    ghost var out, now := Collated(ts, e), tgt[..];
    EntryAt(keys[..], ts, e, k);
    CollatedFits(ts, e, k);
    tsz := CopyTick(tgt, to + i, src, tp, keys[j].si, nticks, Flat(ts), out[k]);
    CopiedOne(was, now, tgt[..], to, out, k, i);
  }

  lemma CollatedFits(ts: seq<Tick>, e: seq<PermIdx>, k: nat)
    requires GoodTicks(ts) && SortedPairs(e) && multiset(e) == multiset(Entries(ts, 0)) && k < |e|
    ensures Collated(ts, e)[k] != [] && |Flat(Collated(ts, e))| == |Flat(ts)|
    ensures |Flat(Collated(ts, e)[..k])| + |Collated(ts, e)[k]| <= |Flat(ts)|
  {
    CollatedFacts(ts, e);
    PrefixFlat(Collated(ts, e), k);
    assert GoodTick(Collated(ts, e)[k]);
  }

  lemma EntryAt(keys: seq<PermIdx>, ts: seq<Tick>, e: seq<PermIdx>, k: nat)
    requires SortedEntries(keys, ts, e) && k < |e|
    ensures keys[Ilog2Ceil(|ts|) - |ts| + k] == e[k] && TickAt(Flat(ts), e[k].si) == Collated(ts, e)[k]
  {
    var z: nat := Ilog2Ceil(|ts|) - |ts|;
    SliceRead(keys, z, z + |e|, e, k);
    FetchRead(ts, e, k);
  }

  lemma SliceRead(keys: seq<PermIdx>, a: nat, b: nat, e: seq<PermIdx>, k: nat)
    requires IsSlice(keys, a, b, e) && k < |e|
    ensures a + k < |keys| && keys[a + k] == e[k]
  {
    SliceOf(keys, a, b, e);
    assert e[k] == keys[a..b][k];
  }

  lemma FetchRead(ts: seq<Tick>, e: seq<PermIdx>, k: nat)
    requires k < |e|
    ensures TickAt(Flat(ts), e[k].si) == Collated(ts, e)[k]
  {
  }

  /** Copies the tick that starts idx sandwiches into the page at tp. */
  method CopyTick(tgt: array<Sndwch>, to: nat, src: array<Sndwch>, tp: nat, idx: nat, nticks: nat,
                  ghost page: seq<Sndwch>, ghost t: Tick)
    returns (tsz: nat)
    requires tgt != src && IsSlice(src[..], tp, tp + nticks, page) && t == TickAt(page, idx) && t != []
    requires to + |t| <= tgt.Length
    modifies tgt
    ensures tsz == |t| && Filled(old(tgt[..]), tgt[..], to, t)
  {
    FetchedTick(src[..], tp, tp + nticks, page, idx);
    tsz := TickSize(src[tp + idx].key);
    CopySndwch(tgt, to, src, tp + idx, tsz);
  }

  /** One more piece. */
  lemma PrefixFlat(out: seq<Tick>, k: nat)
    requires k < |out|
    ensures Flat(out[..k + 1]) == Flat(out[..k]) + out[k] && |Flat(out[..k + 1])| <= |Flat(out)|
  {
    assert out[..k + 1] == out[..k] + [out[k]] && out == out[..k + 1] + out[k + 1..];
    FlatConcat(out[..k], [out[k]]);
    FlatOne(out[k]);
    FlatConcat(out[..k + 1], out[k + 1..]);
  }

  /** All pieces are there when the length says so. */
  lemma PrefixDone(out: seq<Tick>, k: nat)
    requires k <= |out| && GoodTicks(out) && |Flat(out[..k])| == |Flat(out)|
    ensures k == |out| && Flat(out[..k]) == Flat(out)
  {
    assert out == out[..k] + out[k..];
    FlatConcat(out[..k], out[k..]);
    FlatLonger(out[k..]);
    assert out[..|out|] == out;
  }

  /** The first loop of collate: past the zeros. */
  method SkipZeros(keys: array<PermIdx>, nticks: nat, ghost ts: seq<Tick>, ghost e: seq<PermIdx>) returns (j: nat)
    requires keys.Length == 2 * IDXSORT_SIZE && SortedEntries(keys[..], ts, e) && nticks == |Flat(ts)|
    requires forall i {:trigger e[i]} :: 0 <= i < |e| ==> e[i].skey > 0
    ensures j == Ilog2Ceil(|ts|) - |ts| && j + |e| == Ilog2Ceil(|ts|)
  {
    FlatLonger(ts);
    ghost var z: nat := Ilog2Ceil(|ts|) - |ts|;
    SliceOf(keys[..], z, z + |e|, e);
    assert keys[z] == keys[..][z..z + |e|][0] == e[0];
    forall i {:trigger keys[i]} | 0 <= i < z ensures keys[i].skey == 0 {
      assert keys[..][i].skey == 0;
    }
    var max := if nticks >= 256 then 256 else Ilog2Ceil(nticks);
    j := 0;
    while j < max && keys[j].skey == 0
      invariant j <= z
    {
      j := j + 1;
    }
  }

  // ---------------------------------------------------------------- bottom-up merging

  /** The state of merging the ticks x (up to el) and y (up to er): `done` is written, `rest` to come. */
  ghost predicate MergingTicks(src: seq<Sndwch>, l: nat, el: nat, r: nat, er: nat, x: seq<Tick>, y: seq<Tick>,
                               rest: seq<Tick>) {
    && IsSlice(src, l, el, Flat(x)) && IsSlice(src, r, er, Flat(y)) && GoodTicks(x) && GoodTicks(y)
    && IsMerge(TickKey(), false, x, y, rest)
  }

  /** merge_bup: merges the runs of ticks left and right into tgt; ties go to the left. */
  method MergeBup(tgt: array<Sndwch>, to: nat, src: array<Sndwch>, spl: nat, ntl: nat, spr: nat, ntr: nat,
                  ghost a: seq<Tick>, ghost b: seq<Tick>, ghost m: seq<Tick>)
    requires tgt != src && MergingTicks(src[..], spl, spl + ntl, spr, spr + ntr, a, b, m)
    requires to + ntl + ntr <= tgt.Length
    modifies tgt
    ensures Filled(old(tgt[..]), tgt[..], to, Flat(m)) && |Flat(m)| == ntl + ntr
  {
    var l: nat, r: nat, tp: nat := spl, spr, to;
    var el, er := spl + ntl, spr + ntr;
    ghost var was, done, x, y, rest := tgt[..], [], a, b, m;
    FilledNothing(was, to);
    while l < el && r < er
      invariant l <= el && r <= er && tp - to == (l - spl) + (r - spr)
      invariant MergingTicks(src[..], l, el, r, er, x, y, rest) && Written(was, tgt[..], to, tp, done, rest, m)
      decreases el - l + er - r
    {
      l, r, tp, done, x, y, rest := MergeTick(tgt, to, src, l, el, r, er, tp, was, done, x, y, rest, m);
    }
    MergeRest(tgt, to, src, l, el, r, er, tp, was, done, x, y, rest);
    FlatConcat(done, rest);
  }

  /** The ticks in done are written from `to` up to tp, those in rest are still to come. */
  ghost predicate Written(was: seq<Sndwch>, now: seq<Sndwch>, to: nat, tp: nat, done: seq<Tick>, rest: seq<Tick>,
                          m: seq<Tick>) {
    tp == to + |Flat(done)| && Filled(was, now, to, Flat(done)) && done + rest == m
  }

  lemma WrittenMore(was: seq<Sndwch>, now: seq<Sndwch>, now': seq<Sndwch>, to: nat, tp: nat, done: seq<Tick>, t: Tick,
                    rest: seq<Tick>, m: seq<Tick>)
    requires Written(was, now, to, tp, done, [t] + rest, m) && Filled(now, now', tp, t)
    ensures Written(was, now', to, tp + |t|, done + [t], rest, m)
  {
    FilledMore(was, now, now', to, Flat(done), t);
    OneTickMore(done, t);
    ThreeParts(done, [t], rest);
  }

  /** One round of merge_bup: the lesser of the two ticks at hand is written. */
  method MergeTick(tgt: array<Sndwch>, to: nat, src: array<Sndwch>, l: nat, el: nat, r: nat, er: nat, tp: nat,
                   ghost was: seq<Sndwch>,
                   ghost done: seq<Tick>, ghost x: seq<Tick>, ghost y: seq<Tick>, ghost rest: seq<Tick>,
                   ghost m: seq<Tick>)
    returns (l': nat, r': nat, tp': nat, ghost done': seq<Tick>, ghost x': seq<Tick>, ghost y': seq<Tick>,
             ghost rest': seq<Tick>)
    requires tgt != src && l < el && r < er && tp + (el - l) + (er - r) <= tgt.Length
    requires MergingTicks(src[..], l, el, r, er, x, y, rest) && Written(was, tgt[..], to, tp, done, rest, m)
    modifies tgt
    ensures l <= l' <= el && r <= r' <= er && tp' - tp == (l' - l) + (r' - r) > 0
    ensures MergingTicks(src[..], l', el, r', er, x', y', rest') && Written(was, tgt[..], to, tp', done', rest', m)
  {
    ghost var t, now := [], tgt[..];
    t, x', y', rest' := NextTick(src[..], l, el, r, er, x, y, rest);
    l', r' := l, r;
    var tsz;
    if src[l].key <= src[r].key {
      tsz := CopyHead(tgt, tp, src, l, t);
      l' := l + tsz;
    } else {
      tsz := CopyHead(tgt, tp, src, r, t);
      r' := r + tsz;
    }
    WrittenMore(was, now, tgt[..], to, tp, done, t, rest', m);
    tp', done' := tp + tsz, done + [t];
  }

  /** Copies the tick at `from`. */
  method CopyHead(tgt: array<Sndwch>, to: nat, src: array<Sndwch>, from: nat, ghost t: Tick) returns (tsz: nat)
    requires tgt != src && from + |t| <= src.Length && to + |t| <= tgt.Length && src[from..from + |t|] == t
    requires from < src.Length && |t| == TickSize(src[from].key)
    modifies tgt
    ensures tsz == |t| && Filled(old(tgt[..]), tgt[..], to, t)
  {
    tsz := TickSize(src[from].key);
    CopySndwch(tgt, to, src, from, tsz);
  }

  lemma OneTickMore(done: seq<Tick>, t: Tick)
    ensures Flat(done + [t]) == Flat(done) + t
  {
    FlatConcat(done, [t]);
    FlatOne(t);
  }

  /** The next tick t to be written, and what is left. */
  lemma NextTick(src: seq<Sndwch>, l: nat, el: nat, r: nat, er: nat, x: seq<Tick>, y: seq<Tick>, rest: seq<Tick>)
    returns (t: Tick, x': seq<Tick>, y': seq<Tick>, rest': seq<Tick>)
    requires MergingTicks(src, l, el, r, er, x, y, rest) && l < el && r < er
    ensures rest == [t] + rest'
    ensures if src[l].key <= src[r].key
            then |t| == TickSize(src[l].key) && l + |t| <= el && src[l..l + |t|] == t
                  && MergingTicks(src, l + |t|, el, r, er, x', y', rest')
            else |t| == TickSize(src[r].key) && r + |t| <= er && src[r..r + |t|] == t
                  && MergingTicks(src, l, el, r + |t|, er, x', y', rest')
  {
    FirstTick(src, l, el, x);
    FirstTick(src, r, er, y);
    SliceOf(src, l, l + |x[0]|, x[0]);
    SliceOf(src, r, r + |y[0]|, y[0]);
    assert TickKey()(x[0]) == src[l].key && TickKey()(y[0]) == src[r].key;
    t, x', y', rest' := MergeAdvance(TickKey(), false, x, y, rest);
    assert rest == [t] + rest';
  }

  /** The end of merge_bup: at most one of the runs has ticks left. */
  method MergeRest(tgt: array<Sndwch>, to: nat, src: array<Sndwch>, l: nat, el: nat, r: nat, er: nat, tp: nat,
                   ghost was: seq<Sndwch>, ghost done: seq<Tick>, ghost x: seq<Tick>, ghost y: seq<Tick>,
                   ghost rest: seq<Tick>)
    requires tgt != src && MergingTicks(src[..], l, el, r, er, x, y, rest) && (l == el || r == er)
    requires tp - to == |Flat(done)| && tp + (el - l) + (er - r) <= tgt.Length && Filled(was, tgt[..], to, Flat(done))
    modifies tgt
    ensures Filled(was, tgt[..], to, Flat(done) + Flat(rest)) && |Flat(rest)| == (el - l) + (er - r)
  {
    FirstTick(src[..], l, el, x);
    FirstTick(src[..], r, er, y);
    MergeEnds(TickKey(), false, x, y, rest);
    SliceOf(src[..], l, el, Flat(x));
    SliceOf(src[..], r, er, Flat(y));
    assert x + [] == x && [] + y == y && Flat(done) + [] == Flat(done);
    ghost var now := tgt[..];
    if l < el {
      CopySndwch(tgt, tp, src, l, el - l);
      FilledMore(was, now, tgt[..], to, Flat(done), Flat(x));
    } else if r < er {
      CopySndwch(tgt, tp, src, r, er - r);
      FilledMore(was, now, tgt[..], to, Flat(done), Flat(y));
    }
  }

  // ---------------------------------------------------------------- rounds over the runs

  ghost predicate GoodRuns(runs: seq<seq<Tick>>) {
    forall i {:trigger runs[i]} :: 0 <= i < |runs| ==> GoodTicks(runs[i])
  }

  /** The offsets from i on, one in every `half`, are the sizes of the runs in rest. */
  ghost predicate OffsAhead(offs: seq<nat>, i: nat, half: nat, noffs: nat, rest: seq<seq<Tick>>)
    decreases |rest|
  {
    if rest == [] then i >= noffs
    else i < noffs <= |offs| && offs[i] == |Flat(rest[0])| && OffsAhead(offs, i + half, half, noffs, rest[1..])
  }

  /** The offsets before i, one in every `half`, are the sizes of the runs in done. */
  ghost predicate OffsBehind(offs: seq<nat>, i: nat, half: nat, done: seq<seq<Tick>>)
    decreases |done|
  {
    if done == [] then i == 0
    else half <= i <= |offs| + half - 1 && offs[i - half] == |Flat(done[|done| - 1])|
          && OffsBehind(offs, i - half, half, done[..|done| - 1])
  }

  lemma {:induction false} OffsJoin(offs: seq<nat>, i: nat, half: nat, noffs: nat, done: seq<seq<Tick>>,
                                    rest: seq<seq<Tick>>)
    requires half > 0 && noffs <= |offs| && OffsBehind(offs, i, half, done) && OffsAhead(offs, i, half, noffs, rest)
    requires done != [] && rest == [] ==> i - half < noffs
    ensures OffsAhead(offs, 0, half, noffs, done + rest)
    decreases |done|
  {
    if done == [] {
      assert done + rest == rest;
    } else {
      var d, t := done[..|done| - 1], done[|done| - 1];
      assert ([t] + rest)[1..] == rest;
      assert OffsAhead(offs, i - half, half, noffs, [t] + rest);
      OffsJoin(offs, i - half, half, noffs, d, [t] + rest);
      assert done + rest == d + ([t] + rest);
    }
  }

  lemma {:induction false} OffsAheadSame(offs: seq<nat>, offs': seq<nat>, i: nat, half: nat, noffs: nat,
                                         rest: seq<seq<Tick>>)
    requires OffsAhead(offs, i, half, noffs, rest) && |offs'| == |offs|
    requires forall k {:trigger offs'[k]} :: i <= k < |offs| ==> offs'[k] == offs[k]
    ensures OffsAhead(offs', i, half, noffs, rest)
    decreases |rest|
  {
    if rest != [] {
      OffsAheadSame(offs, offs', i + half, half, noffs, rest[1..]);
    }
  }

  lemma {:induction false} OffsBehindSame(offs: seq<nat>, offs': seq<nat>, i: nat, half: nat, done: seq<seq<Tick>>)
    requires OffsBehind(offs, i, half, done) && |offs'| == |offs| && half > 0
    requires forall k {:trigger offs'[k]} :: 0 <= k < |offs| && k < i ==> offs'[k] == offs[k]
    ensures OffsBehind(offs', i, half, done)
    decreases |done|
  {
    if done != [] {
      OffsBehindSame(offs, offs', i - half, half, done[..|done| - 1]);
    }
  }

  /** Round sizes are powers of two, so that the offset of the right run is within the table. */
  predicate RoundSize(rsz: nat) {
    rsz == 2 || rsz == 4 || rsz == 8 || rsz == 16 || rsz == 32 || rsz == 64 || rsz == 128 || rsz == 256
          || rsz == 512 || rsz == 1024
  }

  lemma RightRunInTable(i: nat, rsz: nat)
    requires RoundSize(rsz) && i % rsz == 0 && i < NOFFS
    ensures i + rsz / 2 < NOFFS && (i + rsz) % rsz == 0
  {
    match rsz
    case 2 => Right2(i);
    case 4 => Right4(i);
    case 8 => Right8(i);
    case 16 => Right16(i);
    case 32 => Right32(i);
    case 64 => Right64(i);
    case 128 => Right128(i);
    case 256 => Right256(i);
    case 512 => Right512(i);
    case _ => Right1024(i);
  }

  lemma Right2(i: nat) ensures i % 2 == 0 && i < NOFFS ==> i + 1 < NOFFS && (i + 2) % 2 == 0 {}
  lemma Right4(i: nat) ensures i % 4 == 0 && i < NOFFS ==> i + 2 < NOFFS && (i + 4) % 4 == 0 {}
  lemma Right8(i: nat) ensures i % 8 == 0 && i < NOFFS ==> i + 4 < NOFFS && (i + 8) % 8 == 0 {}
  lemma Right16(i: nat) ensures i % 16 == 0 && i < NOFFS ==> i + 8 < NOFFS && (i + 16) % 16 == 0 {}
  lemma Right32(i: nat) ensures i % 32 == 0 && i < NOFFS ==> i + 16 < NOFFS && (i + 32) % 32 == 0 {}
  lemma Right64(i: nat) ensures i % 64 == 0 && i < NOFFS ==> i + 32 < NOFFS && (i + 64) % 64 == 0 {}
  lemma Right128(i: nat) ensures i % 128 == 0 && i < NOFFS ==> i + 64 < NOFFS && (i + 128) % 128 == 0 {}
  lemma Right256(i: nat) ensures i % 256 == 0 && i < NOFFS ==> i + 128 < NOFFS && (i + 256) % 256 == 0 {}
  lemma Right512(i: nat) ensures i % 512 == 0 && i < NOFFS ==> i + 256 < NOFFS && (i + 512) % 512 == 0 {}
  lemma Right1024(i: nat) ensures i % 1024 == 0 && i < NOFFS ==> i + 512 < NOFFS && (i + 1024) % 1024 == 0 {}

  lemma MergeGood(a: seq<Tick>, b: seq<Tick>)
    requires GoodTicks(a) && GoodTicks(b)
    ensures GoodTicks(Merge(TickKey(), false, a, b))
  {
    var m := Merge(TickKey(), false, a, b);
    MergeMultiset(TickKey(), false, a, b);
    forall i {:trigger m[i]} | 0 <= i < |m| ensures GoodTick(m[i]) {
      assert m[i] in multiset(m);
      if m[i] in multiset(a) {
        var k := MemberAt(a, m[i]);
      } else {
        var k := MemberAt(b, m[i]);
      }
    }
  }

  /** A round in progress: the merged runs are in place up to pos, those in rest start there. */
  ghost predicate InRound(offs: seq<nat>, src: seq<Sndwch>, i: nat, rsz: nat, noffs: nat, pos: nat, n: nat,
                          rest: seq<seq<Tick>>) {
    && |offs| == NOFFS && noffs <= NOFFS && RoundSize(rsz) && i % rsz == 0
    && OffsAhead(offs, i, rsz / 2, noffs, rest) && GoodRuns(rest)
    && IsSlice(src, pos, n, Flat(Flat(rest)))
    && forall k {:trigger offs[k]} :: noffs <= k < NOFFS ==> offs[k] == 0
  }

  /** The next two runs, or the last one alone, as the offsets have it. */
  lemma NextRuns(offs: seq<nat>, src: seq<Sndwch>, i: nat, rsz: nat, noffs: nat, pos: nat, n: nat, rest: seq<seq<Tick>>)
    returns (a: seq<Tick>, b: seq<Tick>, m: seq<Tick>, rest': seq<seq<Tick>>)
    requires InRound(offs, src, i, rsz, noffs, pos, n, rest) && i < noffs
    ensures i + rsz / 2 < NOFFS && pos + offs[i] + offs[i + rsz / 2] <= n
    ensures MergingTicks(src, pos, pos + offs[i], pos + offs[i], pos + offs[i] + offs[i + rsz / 2], a, b, m)
    ensures Pairwise(TickKey(), false, rest) == [m] + Pairwise(TickKey(), false, rest')
    ensures a == rest[0] && (if |rest| == 1 then b == [] && rest' == [] else b == rest[1] && rest' == rest[2..])
    ensures (i + rsz) % rsz == 0 && OffsAhead(offs, i + rsz, rsz / 2, noffs, rest') && GoodRuns(rest')
    ensures IsSlice(src, pos + offs[i] + offs[i + rsz / 2], n, Flat(Flat(rest')))
  {
    RightRunInTable(i, rsz);
    a := rest[0];
    FlatConcat(a, Flat(rest[1..]));
    SplitSlice(src, pos, n, Flat(a), Flat(Flat(rest[1..])));
    b, rest' := RightRun(offs, src, i, rsz, noffs, pos + offs[i], n, rest);
    m := NextPair(rest, b, rest');
  }

  lemma NextPair(rest: seq<seq<Tick>>, b: seq<Tick>, rest': seq<seq<Tick>>) returns (m: seq<Tick>)
    requires rest != [] && if |rest| == 1 then b == [] && rest' == [] else b == rest[1] && rest' == rest[2..]
    ensures IsMerge(TickKey(), false, rest[0], b, m)
    ensures Pairwise(TickKey(), false, rest) == [m] + Pairwise(TickKey(), false, rest')
  {
    m := Merge(TickKey(), false, rest[0], b);
  }

  lemma RightRun(offs: seq<nat>, src: seq<Sndwch>, i: nat, rsz: nat, noffs: nat, mid: nat, n: nat, rest: seq<seq<Tick>>)
    returns (b: seq<Tick>, rest': seq<seq<Tick>>)
    requires |offs| == NOFFS && RoundSize(rsz) && OffsAhead(offs, i, rsz / 2, noffs, rest) && rest != []
    requires GoodRuns(rest) && i + rsz / 2 < NOFFS
    requires forall k {:trigger offs[k]} :: noffs <= k < NOFFS ==> offs[k] == 0
    requires IsSlice(src, mid, n, Flat(Flat(rest[1..])))
    ensures if |rest| == 1 then b == [] && rest' == [] else b == rest[1] && rest' == rest[2..]
    ensures mid + offs[i + rsz / 2] <= n && IsSlice(src, mid, mid + offs[i + rsz / 2], Flat(b)) && GoodTicks(b)
    ensures OffsAhead(offs, i + rsz, rsz / 2, noffs, rest') && GoodRuns(rest')
    ensures IsSlice(src, mid + offs[i + rsz / 2], n, Flat(Flat(rest')))
  {
    var half := rsz / 2;
    assert half + half == rsz && OffsAhead(offs, i + half, half, noffs, rest[1..]);
    if |rest| == 1 {
      b, rest' := [], [];
      assert rest[1..] == [];
      SliceOf(src, mid, mid, []);
    } else {
      b, rest' := rest[1], rest[2..];
      assert rest[1..][0] == b && rest[1..][1..] == rest';
      FlatConcat(b, Flat(rest'));
      SplitSlice(src, mid, n, Flat(b), Flat(Flat(rest')));
    }
  }

  /** A round after i / rsz merges: offsets, buffers and runs; seen when `done` is shown. */
  ghost predicate MidRound(offs: seq<nat>, src: seq<Sndwch>, was: seq<Sndwch>, now: seq<Sndwch>, i: nat, rsz: nat,
                           noffs: nat, pos: nat, n: nat,
                           done: seq<seq<Tick>>, rest: seq<seq<Tick>>, goal: seq<seq<Tick>>) {
    forall u {:trigger Shown(u)} :: Shown(u) && u == done ==>
      InRound(offs, src, i, rsz, noffs, pos, n, rest) && RoundSoFar(offs, was, now, i, rsz, noffs, pos, u, rest, goal)
  }

  ghost predicate RoundSoFar(offs: seq<nat>, was: seq<Sndwch>, now: seq<Sndwch>, i: nat, rsz: nat, noffs: nat, pos: nat,
                             done: seq<seq<Tick>>, rest: seq<seq<Tick>>, goal: seq<seq<Tick>>) {
    && OffsBehind(offs, i, rsz, done) && (done != [] ==> i - rsz < noffs)
    && Filled(was, now, 0, Flat(Flat(done))) && |Flat(Flat(done))| == pos
    && done + Pairwise(TickKey(), false, rest) == goal
  }

  /** The merge that comes next in a round. */
  lemma RoundOpen(offs: seq<nat>, src: seq<Sndwch>, was: seq<Sndwch>, now: seq<Sndwch>, i: nat, rsz: nat, noffs: nat,
                  pos: nat, n: nat,
                  done: seq<seq<Tick>>, rest: seq<seq<Tick>>, goal: seq<seq<Tick>>)
    returns (a: seq<Tick>, b: seq<Tick>, m: seq<Tick>)
    requires MidRound(offs, src, was, now, i, rsz, noffs, pos, n, done, rest, goal) && i < noffs
    ensures |offs| == NOFFS && i + rsz / 2 < NOFFS && i < NOFFS && pos + offs[i] + offs[i + rsz / 2] <= n
    ensures MergingTicks(src, pos, pos + offs[i], pos + offs[i], pos + offs[i] + offs[i + rsz / 2], a, b, m)
    ensures rest != [] && a == rest[0] && b == (if |rest| == 1 then [] else rest[1])
  {
    assert Shown(done);
    var rest';
    a, b, m, rest' := NextRuns(offs, src, i, rsz, noffs, pos, n, rest);
  }

  /** The state after that merge. */
  lemma RoundClose(offs: seq<nat>, src: seq<Sndwch>, was: seq<Sndwch>, now: seq<Sndwch>, now': seq<Sndwch>, i: nat,
                   rsz: nat, noffs: nat, pos: nat, n: nat,
                   done: seq<seq<Tick>>, rest: seq<seq<Tick>>, goal: seq<seq<Tick>>, m: seq<Tick>, tot: nat)
    returns (done': seq<seq<Tick>>, rest': seq<seq<Tick>>)
    requires MidRound(offs, src, was, now, i, rsz, noffs, pos, n, done, rest, goal) && i < noffs && rest != []
    requires IsMerge(TickKey(), false, rest[0], if |rest| == 1 then [] else rest[1], m)
    requires |was| >= pos + |Flat(m)| && Filled(now, now', pos, Flat(m)) && |offs| == NOFFS
    requires i + rsz / 2 < NOFFS && i < NOFFS && tot == |Flat(m)| == offs[i] + offs[i + rsz / 2]
    ensures MidRound(offs[i := tot], src, was, now', i + rsz, rsz, noffs, pos + tot, n, done', rest', goal)
  {
    RoundShown(offs, src, was, now, i, rsz, noffs, pos, n, done, rest, goal);
    done' := done + [m];
    rest' := RoundCloseAhead(offs, src, i, rsz, noffs, pos, n, rest, m, tot);
    OffsNoted(offs, i, rsz, noffs, done, rest', m, tot);
    RoundCloseSoFar(offs, was, now, now', i, rsz, noffs, pos, done, rest, rest', goal, m, tot);
    RoundSealed(offs[i := tot], src, was, now', i + rsz, rsz, noffs, pos + tot, n, done', rest', goal);
  }

  lemma RoundShown(offs: seq<nat>, src: seq<Sndwch>, was: seq<Sndwch>, now: seq<Sndwch>, i: nat, rsz: nat, noffs: nat,
                   pos: nat, n: nat, done: seq<seq<Tick>>, rest: seq<seq<Tick>>, goal: seq<seq<Tick>>)
    requires MidRound(offs, src, was, now, i, rsz, noffs, pos, n, done, rest, goal)
    ensures InRound(offs, src, i, rsz, noffs, pos, n, rest)
    ensures RoundSoFar(offs, was, now, i, rsz, noffs, pos, done, rest, goal)
  {
    assert Shown(done);
  }

  lemma RoundSealed(offs: seq<nat>, src: seq<Sndwch>, was: seq<Sndwch>, now: seq<Sndwch>, i: nat, rsz: nat, noffs: nat,
                    pos: nat, n: nat, done: seq<seq<Tick>>, rest: seq<seq<Tick>>, goal: seq<seq<Tick>>)
    requires InRound(offs, src, i, rsz, noffs, pos, n, rest)
    requires RoundSoFar(offs, was, now, i, rsz, noffs, pos, done, rest, goal)
    ensures MidRound(offs, src, was, now, i, rsz, noffs, pos, n, done, rest, goal)
  {
  }

  /** What is ahead after it. */
  lemma RoundCloseAhead(offs: seq<nat>, src: seq<Sndwch>, i: nat, rsz: nat, noffs: nat, pos: nat, n: nat,
                        rest: seq<seq<Tick>>, m: seq<Tick>, tot: nat)
    returns (rest': seq<seq<Tick>>)
    requires InRound(offs, src, i, rsz, noffs, pos, n, rest) && i < noffs && rest != []
    requires IsMerge(TickKey(), false, rest[0], if |rest| == 1 then [] else rest[1], m)
    requires i + rsz / 2 < NOFFS && i < NOFFS && tot == |Flat(m)| == offs[i] + offs[i + rsz / 2]
    ensures rest' == if |rest| == 1 then [] else rest[2..]
    ensures OffsAhead(offs, i + rsz, rsz / 2, noffs, rest')
    ensures InRound(offs[i := tot], src, i + rsz, rsz, noffs, pos + tot, n, rest')
    ensures Pairwise(TickKey(), false, rest) == [m] + Pairwise(TickKey(), false, rest')
  {
    var a, b, m';
    a, b, m', rest' := NextRuns(offs, src, i, rsz, noffs, pos, n, rest);
    assert Shown(m) && Shown(m');
    OffsAheadSame(offs, offs[i := tot], i + rsz, rsz / 2, noffs, rest');
  }

  /** What has been done after it. */
  lemma RoundCloseSoFar(offs: seq<nat>, was: seq<Sndwch>, now: seq<Sndwch>, now': seq<Sndwch>, i: nat, rsz: nat,
                        noffs: nat, pos: nat,
                        done: seq<seq<Tick>>, rest: seq<seq<Tick>>, rest': seq<seq<Tick>>, goal: seq<seq<Tick>>,
                        m: seq<Tick>, tot: nat)
    requires tot == |Flat(m)|
    requires RoundSoFar(offs, was, now, i, rsz, noffs, pos, done, rest, goal) && i < noffs && i < |offs|
    requires Pairwise(TickKey(), false, rest) == [m] + Pairwise(TickKey(), false, rest')
    requires Filled(now, now', pos, Flat(m)) && OffsBehind(offs[i := tot], i + rsz, rsz, done + [m])
    ensures RoundSoFar(offs[i := tot], was, now', i + rsz, rsz, noffs, pos + tot, done + [m], rest', goal)
  {
    FilledMore(was, now, now', 0, Flat(Flat(done)), Flat(m));
    OneRunMore(done, m);
    ThreeParts(done, [m], Pairwise(TickKey(), false, rest'));
  }

  /** The size of a merged run written over that of its left half. */
  lemma OffsNoted(offs: seq<nat>, i: nat, rsz: nat, noffs: nat, done: seq<seq<Tick>>, rest: seq<seq<Tick>>,
                  m: seq<Tick>, tot: nat)
    requires |offs| == NOFFS && i < noffs <= NOFFS && rsz > 0 && tot == |Flat(m)|
    requires OffsBehind(offs, i, rsz, done) && OffsAhead(offs, i + rsz, rsz / 2, noffs, rest)
    requires forall k {:trigger offs[k]} :: noffs <= k < NOFFS ==> offs[k] == 0
    ensures var offs' := offs[i := tot];
            && OffsBehind(offs', i + rsz, rsz, done + [m]) && OffsAhead(offs', i + rsz, rsz / 2, noffs, rest)
            && (forall k {:trigger offs'[k]} :: noffs <= k < NOFFS ==> offs'[k] == 0)
  {
    var offs' := offs[i := tot];
    OffsBehindSame(offs, offs', i, rsz, done);
    OffsAheadSame(offs, offs', i + rsz, rsz / 2, noffs, rest);
    assert (done + [m])[..|done|] == done;
  }

  lemma RoundOver(offs: seq<nat>, src: seq<Sndwch>, was: seq<Sndwch>, now: seq<Sndwch>, i: nat, rsz: nat, noffs: nat,
                  pos: nat, n: nat,
                  done: seq<seq<Tick>>, rest: seq<seq<Tick>>, goal: seq<seq<Tick>>)
    requires MidRound(offs, src, was, now, i, rsz, noffs, pos, n, done, rest, goal) && i >= noffs
    ensures |offs| == NOFFS >= noffs && OffsAhead(offs, 0, rsz, noffs, goal) && IsSlice(now, 0, n, Flat(Flat(goal)))
    ensures forall k {:trigger offs[k]} :: noffs <= k < NOFFS ==> offs[k] == 0
  {
    assert Shown(done);
    assert rest == [];
    assert done + [] == done;
    OffsJoin(offs, i, rsz, noffs, done, []);
    FilledSlice(was, now, 0, Flat(Flat(done)));
    SliceOf(now, 0, n, Flat(Flat(goal)));
  }

  /** bup_round: merges neighbouring runs from src to tgt and notes their joint sizes. */
  method BupRound(tgt: array<Sndwch>, src: array<Sndwch>, rsz: nat, offs: array<nat>, noffs: nat, n: nat,
                  ghost runs: seq<seq<Tick>>)
    requires tgt != src && n <= tgt.Length && InRound(offs[..], src[..], 0, rsz, noffs, 0, n, runs)
    modifies tgt, offs
    ensures OffsAhead(offs[..], 0, rsz, noffs, Pairwise(TickKey(), false, runs)) && offs.Length == NOFFS
    ensures forall k {:trigger offs[..][k]} :: noffs <= k < NOFFS ==> offs[..][k] == 0
    ensures IsSlice(tgt[..], 0, n, Flat(Flat(Pairwise(TickKey(), false, runs))))
  {
    ghost var was, goal := tgt[..], Pairwise(TickKey(), false, runs);
    FilledNothing(was, 0);
    BupLoop(tgt, src, rsz, offs, noffs, n, runs, was, goal);
  }

  method BupLoop(tgt: array<Sndwch>, src: array<Sndwch>, rsz: nat, offs: array<nat>, noffs: nat, n: nat,
                 ghost runs: seq<seq<Tick>>,
                 ghost was: seq<Sndwch>, ghost goal: seq<seq<Tick>>)
    requires tgt != src && n <= tgt.Length == |was| && rsz > 0
    requires MidRound(offs[..], src[..], was, tgt[..], 0, rsz, noffs, 0, n, [], runs, goal)
    modifies tgt, offs
    ensures OffsAhead(offs[..], 0, rsz, noffs, goal) && offs.Length == NOFFS
    ensures forall k {:trigger offs[..][k]} :: noffs <= k < NOFFS ==> offs[..][k] == 0
    ensures IsSlice(tgt[..], 0, n, Flat(Flat(goal)))
  {
    ghost var done: seq<seq<Tick>>, rest := [], runs;
    var i: nat, pos: nat := 0, 0;
    while i < noffs
      invariant MidRound(offs[..], src[..], was, tgt[..], i, rsz, noffs, pos, n, done, rest, goal)
      decreases noffs + rsz - i
    {
      var tot;
      tot, done, rest := BupStep(tgt, src, rsz, offs, noffs, i, pos, n, was, done, rest, goal);
      i, pos := i + rsz, pos + tot;
    }
    RoundOver(offs[..], src[..], was, tgt[..], i, rsz, noffs, pos, n, done, rest, goal);
  }

  /** One merge of a round. */
  method BupStep(tgt: array<Sndwch>, src: array<Sndwch>, rsz: nat, offs: array<nat>, noffs: nat, i: nat, pos: nat,
                 n: nat,
                 ghost was: seq<Sndwch>, ghost done: seq<seq<Tick>>, ghost rest: seq<seq<Tick>>,
                 ghost goal: seq<seq<Tick>>)
    returns (tot: nat, ghost done': seq<seq<Tick>>, ghost rest': seq<seq<Tick>>)
    requires tgt != src && n <= tgt.Length == |was| && i < noffs
    requires MidRound(offs[..], src[..], was, tgt[..], i, rsz, noffs, pos, n, done, rest, goal)
    modifies tgt, offs
    ensures MidRound(offs[..], src[..], was, tgt[..], i + rsz, rsz, noffs, pos + tot, n, done', rest', goal)
  {
    ghost var now, o := tgt[..], offs[..];
    ghost var a, b, m := RoundOpen(offs[..], src[..], was, now, i, rsz, noffs, pos, n, done, rest, goal);
    var ntl, ntr := offs[i], offs[i + rsz / 2];
    MergeBup(tgt, pos, src, pos, ntl, pos + ntl, ntr, a, b, m);
    tot := ntl + ntr;
    done', rest' := RoundClose(o, src[..], was, now, tgt[..], i, rsz, noffs, pos, n, done, rest, goal, m, tot);
    offs[i] := tot;
    assert offs[..] == o[i := tot];
  }

  lemma OneRunMore(done: seq<seq<Tick>>, m: seq<Tick>)
    ensures Flat(Flat(done + [m])) == Flat(Flat(done)) + Flat(m)
  {
    FlatConcat(done, [m]);
    FlatOne(m);
    FlatConcat(Flat(done), m);
  }

  // ---------------------------------------------------------------- the whole page

  /** The runs are in the second buffer, the rest of the ticks is still on the page. */
  ghost predicate InBuffers(sp: seq<Sndwch>, si: nat, was: seq<Sndwch>, data: seq<Sndwch>, tp: nat,
                            runs: seq<seq<Tick>>, rest: seq<Tick>) {
    IsSlice(sp, tp, si, Flat(rest)) && GoodTicks(rest) && Filled(was, data, 0, Flat(Flat(runs)))
          && |Flat(Flat(runs))| == tp
  }

  /** The offsets have the sizes of the runs, and there are not too many. */
  ghost predicate InOffsets(offs: seq<nat>, tp: nat, si: nat, noffs: nat, runs: seq<seq<Tick>>) {
    && |offs| == NOFFS && noffs <= NOFFS && OffsBehind(offs, noffs, 1, runs) && (tp < si ==> IDXSORT_SIZE * noffs <= tp)
    && (forall k {:trigger offs[k]} :: noffs <= k < NOFFS ==> offs[k] == 0)
  }

  ghost predicate InRuns(runs: seq<seq<Tick>>, rest: seq<Tick>, bag: multiset<Tick>) {
    AllSorted(TickKey(), runs) && GoodRuns(runs) && multiset(Flat(runs)) + multiset(rest) == bag
  }

  /** All ticks are in the runs or still to come; seen when runs is shown. */
  ghost predicate Chunking(sp: seq<Sndwch>, si: nat, was: seq<Sndwch>, data: seq<Sndwch>, offs: seq<nat>, tp: nat,
                           noffs: nat,
                           runs: seq<seq<Tick>>, rest: seq<Tick>, bag: multiset<Tick>) {
    forall u {:trigger Shown(u)} :: Shown(u) && u == runs ==>
      InBuffers(sp, si, was, data, tp, runs, rest) && InOffsets(offs, tp, si, noffs, runs) && InRuns(runs, rest, bag)
  }

  lemma ChunkOpen(sp: seq<Sndwch>, si: nat, was: seq<Sndwch>, data: seq<Sndwch>, offs: seq<nat>, tp: nat, noffs: nat,
                  runs: seq<seq<Tick>>, rest: seq<Tick>, bag: multiset<Tick>)
    requires Chunking(sp, si, was, data, offs, tp, noffs, runs, rest, bag) && tp < si <= UTE_BLKSZ
    ensures IsSlice(sp, tp, si, Flat(rest)) && GoodTicks(rest) && rest != [] && noffs < NOFFS
  {
    assert Shown(runs);
    FirstTick(sp, tp, si, rest);
  }

  lemma ChunkClose(sp: seq<Sndwch>, si: nat, was: seq<Sndwch>, data: seq<Sndwch>, data': seq<Sndwch>, offs: seq<nat>,
                   tp: nat, noffs: nat,
                   runs: seq<seq<Tick>>, rest: seq<Tick>, bag: multiset<Tick>, n: nat, out: seq<Tick>)
    requires Chunking(sp, si, was, data, offs, tp, noffs, runs, rest, bag) && noffs < NOFFS && |offs| == NOFFS
    requires tp < si
    requires GoodTicks(rest) && n == Min(IDXSORT_SIZE, |rest|) && multiset(out) == multiset(rest[..n])
    requires tp + |Flat(out)| <= si <= |was|
    requires GoodTicks(out) && Sorted(TickKey(), out) && Filled(data, data', tp, Flat(out))
    requires IsSlice(sp, tp + |Flat(out)|, si, Flat(rest[n..])) && GoodTicks(rest[n..])
    ensures Chunking(sp, si, was, data', offs[noffs := |Flat(out)|], tp + |Flat(out)|, noffs + 1, runs + [out],
          rest[n..], bag)
  {
    assert Shown(runs);
    ChunkCopied(sp, si, was, data, data', tp, runs, rest, n, out);
    ChunkFull(sp, tp, si, rest, n, out);
    ChunkNoted(offs, tp, si, noffs, runs, out);
    ChunkBag(runs, rest, n, out);
    MoreRuns(runs, out);
  }

  lemma ChunkCopied(sp: seq<Sndwch>, si: nat, was: seq<Sndwch>, data: seq<Sndwch>, data': seq<Sndwch>, tp: nat,
                    runs: seq<seq<Tick>>, rest: seq<Tick>, n: nat, out: seq<Tick>)
    requires InBuffers(sp, si, was, data, tp, runs, rest) && tp + |Flat(out)| <= si <= |was|
    requires Filled(data, data', tp, Flat(out)) && n <= |rest|
    requires IsSlice(sp, tp + |Flat(out)|, si, Flat(rest[n..])) && GoodTicks(rest[n..])
    ensures InBuffers(sp, si, was, data', tp + |Flat(out)|, runs + [out], rest[n..])
  {
    FilledMore(was, data, data', 0, Flat(Flat(runs)), Flat(out));
    OneRunMore(runs, out);
  }

  lemma ChunkNoted(offs: seq<nat>, tp: nat, si: nat, noffs: nat, runs: seq<seq<Tick>>, out: seq<Tick>)
    requires noffs < NOFFS && InOffsets(offs, tp, si, noffs, runs) && tp < si
    requires tp + |Flat(out)| < si ==> |Flat(out)| >= IDXSORT_SIZE
    ensures InOffsets(offs[noffs := |Flat(out)|], tp + |Flat(out)|, si, noffs + 1, runs + [out])
  {
    OffsBehindSame(offs, offs[noffs := |Flat(out)|], noffs, 1, runs);
    assert (runs + [out])[..|runs|] == runs;
  }

  lemma ChunkBag(runs: seq<seq<Tick>>, rest: seq<Tick>, n: nat, out: seq<Tick>)
    requires n <= |rest| && multiset(out) == multiset(rest[..n])
    ensures multiset(Flat(runs + [out])) + multiset(rest[n..]) == multiset(Flat(runs)) + multiset(rest)
  {
    FlatConcat(runs, [out]);
    FlatOne(out);
    assert rest == rest[..n] + rest[n..];
  }

  lemma MoreRuns(runs: seq<seq<Tick>>, out: seq<Tick>)
    requires AllSorted(TickKey(), runs) && GoodRuns(runs) && GoodTicks(out) && Sorted(TickKey(), out)
    ensures AllSorted(TickKey(), runs + [out]) && GoodRuns(runs + [out])
  {
    var runs' := runs + [out];
    forall i {:trigger runs'[i]} | 0 <= i < |runs'| ensures Sorted(TickKey(), runs'[i]) && GoodTicks(runs'[i]) {
      assert i < |runs| ==> runs'[i] == runs[i];
    }
  }

  /** Unless it is the last one, a chunk has 256 ticks and at least as many sandwiches. */
  lemma ChunkFull(sp: seq<Sndwch>, tp: nat, si: nat, rest: seq<Tick>, n: nat, out: seq<Tick>)
    requires GoodTicks(out) && n == Min(IDXSORT_SIZE, |rest|) && multiset(out) == multiset(rest[..n])
    requires IsSlice(sp, tp + |Flat(out)|, si, Flat(rest[n..])) && GoodTicks(rest[n..])
    ensures tp + |Flat(out)| < si ==> |Flat(out)| >= IDXSORT_SIZE
  {
    FlatLonger(out);
    assert |multiset(out)| == |multiset(rest[..n])|;
    assert |rest| <= IDXSORT_SIZE ==> rest[n..] == [];
  }

  lemma ChunksDone(sp: seq<Sndwch>, si: nat, was: seq<Sndwch>, data: seq<Sndwch>, offs: seq<nat>, tp: nat, noffs: nat,
                   runs: seq<seq<Tick>>, rest: seq<Tick>, bag: multiset<Tick>)
    requires Chunking(sp, si, was, data, offs, tp, noffs, runs, rest, bag) && tp >= si
    ensures Rounds(data, si, offs, 1, noffs, runs, bag)
  {
    assert Shown(runs);
    FirstTick(sp, tp, si, rest);
    FilledSlice(was, data, 0, Flat(Flat(runs)));
    SliceOf(data, 0, si, Flat(Flat(runs)));
    OffsJoin(offs, noffs, 1, noffs, runs, []);
    assert runs + [] == runs;
  }

  /** Between two rounds: sorted runs, one for every `half` offsets. */
  ghost predicate Rounds(src: seq<Sndwch>, si: nat, offs: seq<nat>, half: nat, noffs: nat, runs: seq<seq<Tick>>,
                         bag: multiset<Tick>) {
    && IsSlice(src, 0, si, Flat(Flat(runs))) && |offs| == NOFFS && noffs <= NOFFS
          && OffsAhead(offs, 0, half, noffs, runs)
    && (forall k {:trigger offs[k]} :: noffs <= k < NOFFS ==> offs[k] == 0)
    && AllSorted(TickKey(), runs) && GoodRuns(runs) && multiset(Flat(runs)) == bag
  }

  /** The first loop of seek_sort: sorts 256 ticks at a time into the second buffer. */
  method SortChunks(sp: array<Sndwch>, si: nat, data: array<Sndwch>, offs: array<nat>, keys: array<PermIdx>,
                    ghost ts: seq<Tick>)
    returns (noffs: nat, ghost runs: seq<seq<Tick>>)
    requires data != sp && si <= sp.Length == data.Length && si <= UTE_BLKSZ && keys.Length == 2 * IDXSORT_SIZE
    requires offs.Length == NOFFS && forall k {:trigger offs[..][k]} :: 0 <= k < NOFFS ==> offs[..][k] == 0
    requires IsSlice(sp[..], 0, si, Flat(ts)) && GoodTicks(ts)
    modifies data, offs, keys
    ensures Rounds(data[..], si, offs[..], 1, noffs, runs, multiset(ts))
  {
    ghost var was, rest, bag := data[..], ts, multiset(ts);
    noffs, runs := 0, [];
    var tp: nat := 0;
    FilledNothing(was, 0);
    while tp < si
      invariant Chunking(sp[..], si, was, data[..], offs[..], tp, noffs, runs, rest, bag)
      decreases si - tp
    {
      ChunkOpen(sp[..], si, was, data[..], offs[..], tp, noffs, runs, rest, bag);
      ghost var now, o := data[..], offs[..];
      var nticks, out, n := SortChunk(sp, tp, si, data, keys, rest);
      ChunkClose(sp[..], si, was, now, data[..], o, tp, noffs, runs, rest, bag, n, out);
      offs[noffs] := nticks;
      noffs, tp := noffs + 1, tp + nticks;
      runs, rest := runs + [out], rest[n..];
    }
    ChunksDone(sp[..], si, was, data[..], offs[..], tp, noffs, runs, rest, bag);
  }

  /** One chunk: idxsort and collate. */
  method SortChunk(sp: array<Sndwch>, tp: nat, ep: nat, data: array<Sndwch>, keys: array<PermIdx>,
                   ghost rest: seq<Tick>)
    returns (nticks: nat, ghost out: seq<Tick>, ghost n: nat)
    requires data != sp && tp < ep <= data.Length && keys.Length == 2 * IDXSORT_SIZE
    requires IsSlice(sp[..], tp, ep, Flat(rest)) && GoodTicks(rest) && rest != []
    modifies data, keys
    ensures n == Min(IDXSORT_SIZE, |rest|) && nticks == |Flat(out)| && 0 < nticks && tp + nticks <= ep
    ensures GoodTicks(out) && Sorted(TickKey(), out) && multiset(out) == multiset(rest[..n])
    ensures Filled(old(data[..]), data[..], tp, Flat(out))
    ensures IsSlice(sp[..], tp + nticks, ep, Flat(rest[n..])) && GoodTicks(rest[n..])
  {
    ghost var e;
    nticks, n, e := IdxSort(keys, sp, tp, ep, rest);
    assert rest == rest[..n] + rest[n..];
    FlatConcat(rest[..n], rest[n..]);
    SplitSlice(sp[..], tp, ep, Flat(rest[..n]), Flat(rest[n..]));
    FlatLonger(rest[..n]);
    out := Collate(data, tp, sp, tp, keys, nticks, rest[..n], e);
  }

  /** A round keeps the runs sorted and the ticks together. */
  lemma RoundKeeps(src: seq<Sndwch>, si: nat, offs: seq<nat>, rsz: nat, noffs: nat, runs: seq<seq<Tick>>,
                   bag: multiset<Tick>)
    requires Rounds(src, si, offs, rsz / 2, noffs, runs, bag) && RoundSize(rsz)
    ensures InRound(offs, src, 0, rsz, noffs, 0, si, runs)
    ensures var p := Pairwise(TickKey(), false, runs);
            AllSorted(TickKey(), p) && GoodRuns(p) && multiset(Flat(p)) == bag
  {
    PairwiseSorted(TickKey(), false, runs);
    PairwiseMultiset(TickKey(), false, runs);
    PairwiseGood(runs);
    RightRunInTable(0, rsz);
  }

  lemma {:induction false} PairwiseGood(runs: seq<seq<Tick>>)
    requires GoodRuns(runs)
    ensures GoodRuns(Pairwise(TickKey(), false, runs))
    decreases |runs|
  {
    if |runs| > 1 {
      MergeGood(runs[0], runs[1]);
      PairwiseGood(runs[2..]);
      var r := Pairwise(TickKey(), false, runs);
      assert forall i {:trigger r[i]} :: 0 < i < |r| ==> r[i] == r[1..][i - 1];
    }
  }

  lemma TwoRunsApart(offs: seq<nat>, half: nat, noffs: nat, runs: seq<seq<Tick>>)
    requires OffsAhead(offs, 0, half, noffs, runs) && |runs| >= 2
    ensures half < noffs
  {
    assert OffsAhead(offs, half, half, noffs, runs[1..]);
  }

  /** When no more rounds are due there is one run at most. */
  lemma RoundsDone(src: seq<Sndwch>, si: nat, offs: seq<nat>, half: nat, noffs: nat, runs: seq<seq<Tick>>,
                   bag: multiset<Tick>)
    requires Rounds(src, si, offs, half, noffs, runs, bag) && half >= noffs
    ensures IsSlice(src, 0, si, Flat(Flat(runs))) && GoodTicks(Flat(runs)) && Sorted(TickKey(), Flat(runs))
    ensures multiset(Flat(runs)) == bag
  {
    if |runs| >= 2 {
      TwoRunsApart(offs, half, noffs, runs);
    } else if |runs| == 1 {
      FlatOne(runs[0]);
      assert runs == [runs[0]];
    }
  }

  /** The second loop of seek_sort: merge rounds back and forth; the result goes to the page. */
  method MergeChunks(sp: array<Sndwch>, si: nat, data: array<Sndwch>, offs: array<nat>, noffs: nat,
                     ghost runs0: seq<seq<Tick>>, ghost bag: multiset<Tick>)
    returns (ghost ts: seq<Tick>)
    requires data != sp && si <= sp.Length == data.Length && Rounds(data[..], si, offs[..], 1, noffs, runs0, bag)
    modifies sp, data, offs
    ensures sp[..si] == Flat(ts) && GoodTicks(ts) && Sorted(TickKey(), ts) && multiset(ts) == bag
  {
    var tgt, src := sp, data;
    var rsz: nat := 2;
    ghost var runs, half: nat := runs0, 1;
    while rsz < 2 * noffs
      invariant (tgt == sp && src == data) || (tgt == data && src == sp)
      invariant rsz == 2 * half && (RoundSize(rsz) || rsz == 2048)
      invariant Rounds(src[..], si, offs[..], half, noffs, runs, bag)
      decreases 2048 - rsz
    {
      OneRound(tgt, src, rsz, half, offs, noffs, si, runs, bag);
      runs, half := Pairwise(TickKey(), false, runs), rsz;
      tgt, src := src, tgt;
      rsz := rsz * 2;
    }
    RoundsDone(src[..], si, offs[..], half, noffs, runs, bag);
    ts := Flat(runs);
    SliceOf(src[..], 0, si, Flat(ts));
    if tgt == sp {
      CopyBack(sp, data);
    }
  }

  method OneRound(tgt: array<Sndwch>, src: array<Sndwch>, rsz: nat, ghost half: nat, offs: array<nat>, noffs: nat,
                  si: nat, ghost runs: seq<seq<Tick>>, ghost bag: multiset<Tick>)
    requires tgt != src && si <= tgt.Length && RoundSize(rsz) && rsz == 2 * half
    requires Rounds(src[..], si, offs[..], half, noffs, runs, bag)
    modifies tgt, offs
    ensures Rounds(tgt[..], si, offs[..], rsz, noffs, Pairwise(TickKey(), false, runs), bag)
  {
    RoundKeeps(src[..], si, offs[..], rsz, noffs, runs, bag);
    BupRound(tgt, src, rsz, offs, noffs, si, runs);
  }

  method CopyBack(sp: array<Sndwch>, data: array<Sndwch>)
    requires data != sp && sp.Length == data.Length
    modifies sp
    ensures sp[..] == data[..]
  {
    ghost var was := sp[..];
    CopySndwch(sp, 0, data, 0, sp.Length);
    FilledSlice(was, sp[..], 0, data[0..sp.Length]);
    assert data[0..sp.Length] == data[..] && sp[0..0 + sp.Length] == sp[..];
  }

  /** seek_sort: the first si sandwiches come out as the same whole ticks in ascending order. */
  method SeekSort(sp: array<Sndwch>, si: nat, keys: array<PermIdx>)
    requires si <= sp.Length <= UTE_BLKSZ && keys.Length == 2 * IDXSORT_SIZE && WholeTicks(sp[..si])
    modifies sp, keys
    ensures WholeTicks(sp[..si]) && Sorted(TickKey(), TicksOf(sp[..si]))
    ensures multiset(TicksOf(sp[..si])) == multiset(TicksOf(old(sp[..si])))
  {
    ghost var ts := TicksOf(sp[..si]);
    WholeIsGood(sp[..si]);
    SliceOf(sp[..], 0, si, Flat(ts));
    var data := new Sndwch[sp.Length](_ => Sndwch(0, 0));
    var offs := new nat[NOFFS](_ => 0);
    var noffs, runs := SortChunks(sp, si, data, offs, keys, ts);
    ghost var out := MergeChunks(sp, si, data, offs, noffs, runs, multiset(ts));
    GoodIsWhole(out);
  }
}
