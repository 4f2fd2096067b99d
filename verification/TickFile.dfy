/** Adding ticks to a file and flushing its pages (src/utetpc.c, src/utefile.c): how the file
    knows whether it needs a global sort. */
module TickFile {
  import opened Merging
  import opened IndexSort
  import opened Ticks
  import opened PageSort

  function LastKey(ts: seq<Tick>): int
    requires ts != []
  {
    TickKey()(ts[|ts| - 1])
  }

  /** One tick from a user: as many sandwiches as its type says. */
  predicate IsTick(t: Tick) { t != [] && |t| == TickSize(t[0].key) }

  ghost predicate KeysUpto(ts: seq<Tick>, k: int) {
    forall i {:trigger ts[i]} :: 0 <= i < |ts| ==> TickKey()(ts[i]) <= k
  }

  ghost predicate Ascending(ts: seq<Tick>) { Sorted(TickKey(), ts) }

  ghost predicate SomeBelow(ts: seq<Tick>, k: int) { exists i :: 0 <= i < |ts| && TickKey()(ts[i]) < k }

  ghost predicate SomeAt(ts: seq<Tick>, k: int) { exists i :: 0 <= i < |ts| && TickKey()(ts[i]) == k }

  lemma {:induction false} SortedJoin(a: seq<Tick>, b: seq<Tick>, k: int)
    requires Ascending(a) && Ascending(b) && KeysUpto(a, k) && AllFrom(TickKey(), b, k)
    ensures Ascending(a + b)
    decreases |a|
  {
    if a == [] {
      assert a + b == b;
    } else {
      var s := a + b;
      assert s[1..] == a[1..] + b;
      assert KeysUpto(a[1..], k) by { assert forall i {:trigger a[1..][i]} :: 0 <= i < |a| - 1 ==>
            a[1..][i] == a[i + 1]; }
      SortedJoin(a[1..], b, k);
      forall i {:trigger s[1..][i]} | 0 <= i < |s| - 1 ensures TickKey()(s[0]) <= TickKey()(s[1..][i]) {
        if i < |a| - 1 {
          assert s[1..][i] == a[1..][i];
        } else {
          assert s[1..][i] == b[i + 1 - |a|];
        }
      }
    }
  }

  /** A sequence with a later element below an earlier one is not ascending. */
  lemma OutOfOrder(a: seq<Tick>, b: seq<Tick>, k: int)
    requires SomeAt(a, k) && SomeBelow(b, k)
    ensures !Ascending(a + b)
  {
    var s := a + b;
    var i :| 0 <= i < |a| && TickKey()(a[i]) == k;
    var j :| 0 <= j < |b| && TickKey()(b[j]) < k;
    assert s[i] == a[i] && s[|a| + j] == b[j];
    if Ascending(s) {
      SortedAt(TickKey(), s, i, |a| + j);
      assert false;
    }
  }

  lemma PrefixAscending(a: seq<Tick>, b: seq<Tick>)
    requires Ascending(a + b)
    ensures Ascending(a)
  {
    forall i, j | 0 <= i <= j < |a| ensures TickKey()(a[i]) <= TickKey()(a[j]) {
      SortedAt(TickKey(), a + b, i, j);
    }
    SortedFrom(TickKey(), a);
  }

  lemma LastIsLargest(ts: seq<Tick>)
    requires Ascending(ts) && ts != []
    ensures KeysUpto(ts, LastKey(ts)) && SomeAt(ts, LastKey(ts))
  {
    forall i {:trigger ts[i]} | 0 <= i < |ts| ensures TickKey()(ts[i]) <= LastKey(ts) {
      SortedAt(TickKey(), ts, i, |ts| - 1);
    }
  }

  // ---------------------------------------------------------------- the protocol

  /** What the bookkeeping says about the flushed ticks fl and those on the current page. `low` is
      a key that no flushed one exceeds; `exact` is set for files that were begun empty. */
  datatype Books = Books(last: nat, least: nat, tpcUnsorted: bool, needmrg: bool, lvtd: nat, unsorted: bool,
        low: nat, exact: bool)

  ghost predicate Kept(b: Books, fl: seq<Tick>, page: seq<Tick>) {
    && KeysUpto(fl, b.low) && b.low <= b.lvtd
    && (page != [] ==> b.last == LastKey(page))
    && (!b.tpcUnsorted ==> Ascending(page))
    && (!b.needmrg ==> b.least == b.lvtd && AllFrom(TickKey(), page, b.low))
    && (!b.unsorted ==> Ascending(fl))
    && (b.exact ==> Exact(b, fl, page))
  }

  /** The marks are not set without need. */
  ghost predicate Exact(b: Books, fl: seq<Tick>, page: seq<Tick>) {
    && b.low == b.lvtd && (fl == [] ==> b.lvtd == 0) && (fl != [] ==> SomeAt(fl, b.lvtd))
    && (b.unsorted ==> !Ascending(fl)) && (b.needmrg ==> b.unsorted || SomeBelow(page, b.lvtd))
  }

  /** tpc_add's bookkeeping for a key. */
  function Added(b: Books, key: nat): Books {
    b.(tpcUnsorted := b.tpcUnsorted || key < b.last,
       needmrg := b.needmrg || key < b.least,
       least := if key < b.least then key else b.least,
       last := key)
  }

  lemma KeptAdd(b: Books, fl: seq<Tick>, page: seq<Tick>, t: Tick)
    requires Kept(b, fl, page) && GoodTick(t)
    ensures Kept(Added(b, t[0].key), fl, page + [t])
  {
    var p, k := page + [t], t[0].key;
    assert TickKey()(t) == k;
    if !Added(b, k).tpcUnsorted {
      AppendAscending(page, t, b.last);
    }
    if !Added(b, k).needmrg {
      assert AllFrom(TickKey(), p, b.low) by { assert forall i {:trigger p[i]} :: 0 <= i < |page| ==> p[i] == page[i]; }
    }
    if b.exact && Added(b, k).needmrg && !b.unsorted {
      if b.needmrg {
        var i :| 0 <= i < |page| && TickKey()(page[i]) < b.lvtd;
        assert p[i] == page[i];
      } else {
        assert p[|page|] == t;
      }
    }
  }

  lemma AppendAscending(page: seq<Tick>, t: Tick, last: int)
    requires Ascending(page) && (page != [] ==> LastKey(page) == last <= TickKey()(t))
    ensures Ascending(page + [t])
  {
    if page != [] {
      LastIsLargest(page);
      SortedJoin(page, [t], last);
    } else {
      assert page + [t] == [t];
    }
  }

  /** tpc_sort. */
  lemma KeptSort(b: Books, fl: seq<Tick>, page: seq<Tick>, page': seq<Tick>)
    requires Kept(b, fl, page) && page != [] && Ascending(page') && multiset(page') == multiset(page)
    ensures page' != [] && Kept(b.(tpcUnsorted := false, last := LastKey(page')), fl, page')
    ensures LastKey(page') >= 0
  {
    assert |multiset(page')| == |multiset(page)|;
    if !b.needmrg {
      forall i {:trigger page'[i]} | 0 <= i < |page'| ensures b.low <= TickKey()(page'[i]) {
        assert page'[i] in multiset(page);
        var j := MemberAt(page, page'[i]);
      }
    }
    if SomeBelow(page, b.lvtd) {
      var i :| 0 <= i < |page| && TickKey()(page[i]) < b.lvtd;
      assert page[i] in multiset(page');
      var j := MemberAt(page', page[i]);
      assert SomeBelow(page', b.lvtd);
    }
  }

  /** ute_flush's mark, store_lvtd, clear_tpc. */
  function Flushed(b: Books): Books {
    var lvtd := if b.last > b.lvtd then b.last else b.lvtd;
    b.(unsorted := b.unsorted || b.needmrg, lvtd := lvtd, least := lvtd, low := lvtd)
  }

  lemma KeptFlush(b: Books, fl: seq<Tick>, page: seq<Tick>)
    requires Kept(b, fl, page) && page != [] && Ascending(page)
    ensures Kept(Flushed(b), fl + page, [])
  {
    var f, all := Flushed(b), fl + page;
    LastIsLargest(page);
    forall i {:trigger all[i]} | 0 <= i < |all| ensures TickKey()(all[i]) <= f.low {
      assert all[i] == if i < |fl| then fl[i] else page[i - |fl|];
    }
    if !f.unsorted {
      SortedJoin(fl, page, b.low);
    }
    if b.exact {
      ExactFlush(b, fl, page);
    }
  }

  lemma ExactFlush(b: Books, fl: seq<Tick>, page: seq<Tick>)
    requires Kept(b, fl, page) && b.exact && page != [] && Ascending(page)
    ensures Exact(Flushed(b), fl + page, [])
  {
    var f, all := Flushed(b), fl + page;
    LastIsLargest(page);
    if b.last > b.lvtd {
      assert all[|all| - 1] == page[|page| - 1];
    } else if fl != [] {
      var i :| 0 <= i < |fl| && TickKey()(fl[i]) == b.lvtd;
      assert all[i] == fl[i];
    } else {
      assert all[|all| - 1] == page[|page| - 1];
    }
    if f.unsorted {
      if b.unsorted {
        if Ascending(all) {
          PrefixAscending(fl, page);
        }
      } else {
        NeedsMerge(b, fl, page);
      }
    }
  }

  lemma NeedsMerge(b: Books, fl: seq<Tick>, page: seq<Tick>)
    requires Exact(b, fl, page) && b.needmrg && !b.unsorted
    ensures !Ascending(fl + page)
  {
    assert SomeBelow(page, b.lvtd);
    OutOfOrder(fl, page, b.lvtd);
  }

  function FirstKey(ts: seq<Tick>): (k: nat)
    requires GoodTicks(ts) && ts != []
    ensures k == TickKey()(ts[0])
  {
    assert GoodTick(ts[0]);
    ts[0][0].key
  }

  function FinalKey(ts: seq<Tick>): (k: nat)
    requires GoodTicks(ts) && ts != []
    ensures k == LastKey(ts)
  {
    assert GoodTick(ts[|ts| - 1]);
    ts[|ts| - 1][0].key
  }

  /** A file in order, seen as flushed pages and a current one. */
  lemma LoadKept(fl: seq<Tick>, page: seq<Tick>, first: nat, last: nat)
    requires Ascending(fl + page) && page != [] && first == TickKey()(page[0]) && last == LastKey(page)
    ensures Kept(Books(last, last, false, false, last, false, first, false), fl, page) && first <= last
  {
    var s := fl + page;
    PrefixAscending(fl, page);
    forall i {:trigger fl[i]} | 0 <= i < |fl| ensures TickKey()(fl[i]) <= first {
      SortedAt(TickKey(), s, i, |fl|);
    }
    forall i, j | 0 <= i <= j < |page| ensures TickKey()(page[i]) <= TickKey()(page[j]) {
      SortedAt(TickKey(), s, |fl| + i, |fl| + j);
    }
    SortedFrom(TickKey(), page);
  }

  // ---------------------------------------------------------------- the file

  /** All ticks of a sequence of pages. */
  ghost function TicksIn(pages: seq<seq<Sndwch>>): seq<Tick> {
    if pages == [] then [] else TicksIn(pages[..|pages| - 1]) + TicksOf(pages[|pages| - 1])
  }

  /** Not both size flags at once. */
  predicate Sane(t: Tick) { t != [] && t[0].key / 16 % 4 != 3 }

  ghost predicate AllSane(ts: seq<Tick>) { forall i {:trigger ts[i]} :: 0 <= i < |ts| ==> Sane(ts[i]) }

  /** A page as it is flushed. */
  ghost predicate PageSound(page: seq<Sndwch>) {
    page != [] && WholeTicks(page) && Ascending(TicksOf(page)) && AllSane(TicksOf(page))
  }

  ghost predicate PagesSound(pages: seq<seq<Sndwch>>) {
    forall i {:trigger pages[i]} :: 0 <= i < |pages| ==> PageSound(pages[i])
  }

  /** The current page, the bookkeeping, the flushed pages and what has been taken so far fit. */
  ghost predicate State(data: seq<Sndwch>, b: Books, pages: seq<seq<Sndwch>>, log: multiset<Tick>) {
    && WholeTicks(data) && AllSane(TicksOf(data)) && PagesSound(pages) && Kept(b, TicksIn(pages), TicksOf(data))
    && multiset(TicksIn(pages)) + multiset(TicksOf(data)) == log
  }

  /** Marks bookkeeping that a proof looks into. */
  ghost predicate Seen(b: Books) { true }

  /** State, out of sight until its bookkeeping is seen. */
  ghost predicate Holds(data: seq<Sndwch>, b: Books, pages: seq<seq<Sndwch>>, log: multiset<Tick>) {
    forall u {:trigger Seen(u)} :: Seen(u) && u == b ==> State(data, u, pages, log)
  }

  lemma HoldsAdd(data: seq<Sndwch>, b: Books, pages: seq<seq<Sndwch>>, log: multiset<Tick>, t: Tick)
    requires Holds(data, b, pages, log) && GoodTick(t) && Sane(t)
    ensures Holds(data + t, Added(b, t[0].key), pages, log + multiset{t}) && TicksOf(data + t) == TicksOf(data) + [t]
  {
    assert Seen(b);
    KeptAdd(b, TicksIn(pages), TicksOf(data), t);
    PageGrows(data, t);
    SaneMore(TicksOf(data), t);
    assert multiset(TicksOf(data) + [t]) == multiset(TicksOf(data)) + multiset{t};
  }

  lemma SaneMore(ts: seq<Tick>, t: Tick)
    requires AllSane(ts) && Sane(t)
    ensures AllSane(ts + [t])
  {
    var u := ts + [t];
    assert forall i {:trigger u[i]} :: 0 <= i < |ts| ==> u[i] == ts[i];
  }

  lemma HoldsSort(data: seq<Sndwch>, b: Books, pages: seq<seq<Sndwch>>, log: multiset<Tick>, data': seq<Sndwch>)
    requires Holds(data, b, pages, log) && data != [] && WholeTicks(data') && Ascending(TicksOf(data'))
    requires multiset(TicksOf(data')) == multiset(TicksOf(data))
    ensures TicksOf(data') != [] && LastKey(TicksOf(data')) >= 0
    ensures Holds(data', b.(tpcUnsorted := false, last := LastKey(TicksOf(data'))), pages, log)
  {
    assert Seen(b);
    KeptSort(b, TicksIn(pages), TicksOf(data), TicksOf(data'));
    SaneSorted(TicksOf(data), TicksOf(data'));
  }

  lemma SaneSorted(a: seq<Tick>, b: seq<Tick>)
    requires AllSane(a) && multiset(a) == multiset(b)
    ensures AllSane(b)
  {
    forall i {:trigger b[i]} | 0 <= i < |b| ensures Sane(b[i]) {
      assert b[i] in multiset(a);
      var j := MemberAt(a, b[i]);
    }
  }

  lemma HoldsFlush(data: seq<Sndwch>, b: Books, pages: seq<seq<Sndwch>>, log: multiset<Tick>)
    requires Holds(data, b, pages, log) && data != [] && !b.tpcUnsorted
    ensures Holds([], Flushed(b), pages + [data], log) && Ascending(TicksOf(data))
  {
    assert Seen(b);
    KeptFlush(b, TicksIn(pages), TicksOf(data));
    OnePageMore(pages, data);
  }

  lemma OnePageMore(pages: seq<seq<Sndwch>>, data: seq<Sndwch>)
    requires PagesSound(pages) && PageSound(data)
    ensures PagesSound(pages + [data]) && TicksIn(pages + [data]) == TicksIn(pages) + TicksOf(data)
  {
    var u := pages + [data];
    assert PagesSound(u) by { assert forall i {:trigger u[i]} :: 0 <= i < |pages| ==> u[i] == pages[i]; }
    assert u[..|pages|] == pages;
  }

  lemma HoldsWhole(data: seq<Sndwch>, b: Books, pages: seq<seq<Sndwch>>, log: multiset<Tick>)
    requires Holds(data, b, pages, log)
    ensures WholeTicks(data)
  {
    assert Seen(b);
  }

  lemma HoldsLeast(data: seq<Sndwch>, b: Books, pages: seq<seq<Sndwch>>, log: multiset<Tick>)
    requires Holds(data, b, pages, log)
    ensures b.needmrg || b.least == b.lvtd
  {
    assert Seen(b);
  }

  lemma HoldsLast(data: seq<Sndwch>, b: Books, pages: seq<seq<Sndwch>>, log: multiset<Tick>)
    requires Holds(data, b, pages, log) && data != []
    ensures TicksOf(data) != [] && b.last == LastKey(TicksOf(data))
  {
    assert Seen(b);
  }

  /** The ticks of data are on the page that has gone out, in order, and the largest key flushed is
      up to date. */
  ghost predicate PageOut(page: seq<Sndwch>, data: seq<Sndwch>, lvtd0: nat, lvtd: nat) {
    && TicksOf(page) != [] && Ascending(TicksOf(page)) && multiset(TicksOf(page)) == multiset(TicksOf(data))
    && lvtd == if lvtd0 < LastKey(TicksOf(page)) then LastKey(TicksOf(page)) else lvtd0
  }

  lemma PageIsOut(page: seq<Sndwch>, data: seq<Sndwch>, lvtd0: nat, lvtd: nat)
    requires PageOut(page, page, lvtd0, lvtd) && multiset(TicksOf(page)) == multiset(TicksOf(data))
    ensures PageOut(page, data, lvtd0, lvtd)
  {
  }

  /** With nothing on the current page all that was taken has been flushed. */
  lemma HoldsAll(b: Books, pages: seq<seq<Sndwch>>, log: multiset<Tick>)
    requires Holds([], b, pages, log)
    ensures multiset(TicksIn(pages)) == log && KeysUpto(TicksIn(pages), b.lvtd) && PagesSound(pages)
    ensures !b.unsorted ==> Ascending(TicksIn(pages))
    ensures b.exact && b.unsorted ==> !Ascending(TicksIn(pages))
  {
    assert Seen(b);
  }

  /** Page space with a page copied to its front. */
  method Buffer(page: seq<Sndwch>) returns (sp: array<Sndwch>)
    requires |page| <= UTE_BLKSZ
    ensures fresh(sp) && sp.Length == UTE_BLKSZ && sp[..|page|] == page
  {
    sp := new Sndwch[UTE_BLKSZ](_ => Sndwch(0, 0));
    for i := 0 to |page|
      invariant sp[..i] == page[..i]
    {
      sp[i] := page[i];
    }
    assert page[..|page|] == page;
  }

  /** The keys of the first and of the last tick on the last page. */
  method EndKeys(page: seq<Sndwch>, ghost fl: seq<Tick>) returns (first: nat, last: nat)
    requires page != [] && WholeTicks(page) && Ascending(fl + TicksOf(page))
    ensures Kept(Books(last, last, false, false, last, false, first, false), fl, TicksOf(page)) && first <= last
    ensures TicksOf(page) != [] && last == LastKey(TicksOf(page))
  {
    WholeIsGood(page);
    var ts := TicksOf(page);
    first, last := FirstKey(ts), FinalKey(ts);
    LoadKept(fl, ts, first, last);
  }

  lemma LoadHolds(stored: seq<seq<Sndwch>>, first: nat, last: nat)
    requires stored != [] && PagesSound(stored)
    requires Kept(Books(last, last, false, false, last, false, first, false), TicksIn(stored[..|stored| - 1]),
          TicksOf(stored[|stored| - 1]))
    ensures Holds(stored[|stored| - 1], Books(last, last, false, false, last, false, first, false),
          stored[..|stored| - 1], multiset(TicksIn(stored)))
  {
    var front, page := stored[..|stored| - 1], stored[|stored| - 1];
    assert PageSound(page);
    assert PagesSound(front) by { assert forall i {:trigger front[i]} :: 0 <= i < |front| ==> front[i] == stored[i]; }
  }

  class UteFile {
    var data: seq<Sndwch>   // the part of the page space in use
    var cap: nat
    var last: nat
    var least: nat
    var tpcUnsorted: bool
    var needmrg: bool
    var pages: seq<seq<Sndwch>>
    var lvtd: nat
    var unsorted: bool
    ghost var log: multiset<Tick>
    ghost var low: nat
    ghost var exact: bool

    ghost predicate Valid()
      reads this
    {
      4 <= cap <= UTE_BLKSZ && |data| <= cap && Holds(data, Book(), pages, log)
    }

    /** Ticks have come in order so far. */
    ghost predicate InLine()
      reads this
    {
      !tpcUnsorted && !needmrg && !unsorted && least == lvtd <= last
    }

    ghost function Book(): Books
      reads this
    {
      Books(last, least, tpcUnsorted, needmrg, lvtd, unsorted, low, exact)
    }

    /** A new file, whose header takes hdr sandwiches off the first page. */
    constructor (hdr: nat)
      requires hdr + 4 <= UTE_BLKSZ
      ensures Valid() && pages == [] && data == [] && exact && log == multiset{} && InLine() && last == 0
      ensures cap == UTE_BLKSZ - hdr
    {
      data, cap := [], UTE_BLKSZ - hdr;
      last, least, tpcUnsorted, needmrg := 0, 0, false, false;
      pages, lvtd, unsorted := [], 0, false;
      log, low, exact := multiset{}, 0, true;
    }

    /** load_last_tpc of a file in order: its last page becomes the current one. */
    constructor Load(stored: seq<seq<Sndwch>>, hdr: nat)
      requires hdr + 4 <= UTE_BLKSZ && stored != [] && Ascending(TicksIn(stored)) && PagesSound(stored)
      requires var p := stored[|stored| - 1]; |p| <= if |stored| == 1 then UTE_BLKSZ - hdr else UTE_BLKSZ
      ensures Valid() && pages == stored[..|stored| - 1] && data == stored[|stored| - 1]
      ensures cap == if |stored| == 1 then UTE_BLKSZ - hdr else UTE_BLKSZ
      ensures log == multiset(TicksIn(stored)) && !unsorted && !needmrg && !tpcUnsorted
      ensures TicksOf(data) != [] && LastKey(TicksOf(data)) == last == least == lvtd
    {
      var page := stored[|stored| - 1];
      assert PageSound(page);
      var first, lst := EndKeys(page, TicksIn(stored[..|stored| - 1]));
      LoadHolds(stored, first, lst);
      var top := if lst > first then lst else first;
      data, cap := page, if |stored| == 1 then UTE_BLKSZ - hdr else UTE_BLKSZ;
      last, lvtd, least := lst, top, top;
      tpcUnsorted, needmrg, unsorted := false, false, false;
      pages := stored[..|stored| - 1];
      log, low, exact := multiset(TicksIn(stored)), first, false;
    }

    /** tpc_add: a tick that does not fit or has key 0 is not taken. */
    method TpcAdd(t: Tick) returns (ok: bool)
      requires Valid() && IsTick(t) && Sane(t)
      modifies this
      ensures Valid() && ok == (|old(data)| + |t| <= cap && t[0].key != 0)
      ensures pages == old(pages) && unsorted == old(unsorted) && lvtd == old(lvtd) && cap == old(cap)
      ensures exact == old(exact)
      ensures log == if ok then old(log) + multiset{t} else old(log)
      ensures data == if ok then old(data) + t else old(data)
      ensures old(needmrg) || (ok && t[0].key < old(least)) ==> needmrg
      ensures old(InLine()) && old(last) <= t[0].key ==> InLine() && (ok ==> last == t[0].key)
    {
      var nt := |t|;
      var skey := t[0].key;
      if |data| >= cap || |data| + nt > cap || skey == 0 {
        return false;
      }
      HoldsAdd(data, Book(), pages, log, t);
      data := data + t;
      Note(skey);
      log := log + multiset{t};
      return true;
    }

    /** The marks a key leaves. */
    method Note(skey: nat)
      modifies this`tpcUnsorted, this`needmrg, this`least, this`last
      ensures Book() == Added(old(Book()), skey)
    {
      if skey < last {
        tpcUnsorted := true;
      }
      if skey < least {
        needmrg := true;
        least := skey;
      }
      last := skey;
    }

    /** tpc_sort: the page in order, `last` its last key. */
    method TpcSort()
      requires Valid() && data != []
      modifies this`data, this`tpcUnsorted, this`last
      ensures Valid() && !tpcUnsorted && data != [] && multiset(TicksOf(data)) == multiset(TicksOf(old(data)))
    {
      HoldsWhole(data, Book(), pages, log);
      var sorted := SortedPage(data);
      HoldsSort(data, Book(), pages, log, sorted);
      last := PageLast(sorted);
      data := sorted;
      tpcUnsorted := false;
    }

    /** ute_flush: sorts the page if need be, marks the file if the page reaches below what has
        been flushed, and starts a new page. */
    method Flush()
      requires Valid()
      modifies this
      ensures Valid() && data == [] && log == old(log) && exact == old(exact)
      ensures old(data) != [] ==> cap == UTE_BLKSZ && |pages| == |old(pages)| + 1 && pages[..|old(pages)|] == old(pages)
      ensures old(data) != [] ==> PageOut(pages[|old(pages)|], old(data), old(lvtd), lvtd)
      ensures old(data) != [] ==> (unsorted <==> old(unsorted) || old(needmrg))
      ensures old(data) == [] ==>
                pages == old(pages) && cap == old(cap) && unsorted == old(unsorted) && lvtd == old(lvtd)
      ensures old(InLine()) ==> InLine() && last == old(last)
    {
      if data != [] {
        FlushPage();
        assert pages[|old(pages)|] == pages[|pages| - 1];
      }
    }

    /** The part of ute_flush for a page with ticks. */
    method FlushPage()
      requires Valid() && data != []
      modifies this
      ensures Valid() && data == [] && log == old(log) && exact == old(exact) && cap == UTE_BLKSZ
      ensures |pages| == |old(pages)| + 1 && pages[..|old(pages)|] == old(pages)
      ensures PageOut(pages[|old(pages)|], old(data), old(lvtd), lvtd)
      ensures unsorted <==> old(unsorted) || old(needmrg)
      ensures old(InLine()) ==> InLine() && last == old(last)
    {
      ghost var page := data;
      if tpcUnsorted {
        TpcSort();
      }
      ghost var sorted := data;
      Materialise();
      PageIsOut(sorted, page, old(lvtd), lvtd);
      assert pages[|old(pages)|] == sorted;
    }

    /** The part of ute_flush that deals with a page in order. */
    method Materialise()
      requires Valid() && data != [] && !tpcUnsorted
      modifies this
      ensures Valid() && data == [] && log == old(log) && exact == old(exact) && cap == UTE_BLKSZ
      ensures pages == old(pages) + [old(data)] && unsorted == (old(unsorted) || old(needmrg))
      ensures PageOut(old(data), old(data), old(lvtd), lvtd)
      ensures old(InLine()) ==> InLine() && last == old(last)
    {
      HoldsFlush(data, Book(), pages, log);
      HoldsLast(data, Book(), pages, log);
      Mark();
      pages := pages + [data];
      data := [];
      cap := UTE_BLKSZ;
    }

    /** The mark of ute_flush, and store_lvtd for a page with ticks. */
    method Mark()
      modifies this`unsorted, this`lvtd, this`least, this`low
      ensures Book() == Flushed(old(Book()))
    {
      if needmrg {
        unsorted := true;
      }
      if last > lvtd {
        lvtd := last;
      }
      least := lvtd;
      low := lvtd;
    }

    /** ute_add_tick: takes every tick with a sane type and a key other than 0. The page is flushed
        if and only if the tick does not fit on it. A tick below a flushed key gets the file marked,
        now or by the next flush. */
    method AddTick(t: Tick) returns (ok: bool)
      requires Valid() && IsTick(t)
      modifies this
      ensures Valid() && ok == (t[0].key != 0 && t[0].key / 16 % 4 != 3)
      ensures log == (if ok then old(log) + multiset{t} else old(log)) && exact == old(exact)
      ensures ok && t[0].key < lvtd ==> needmrg
      ensures t[0].key / 16 % 4 == 3 ==>
                && pages == old(pages) && data == old(data) && cap == old(cap) && unsorted == old(unsorted)
                && lvtd == old(lvtd)
      ensures t[0].key / 16 % 4 != 3 && |old(data)| + |t| <= old(cap) ==>
                && pages == old(pages) && cap == old(cap) && unsorted == old(unsorted) && lvtd == old(lvtd)
                && data == old(data) + if ok then t else []
      ensures t[0].key / 16 % 4 != 3 && |old(data)| + |t| > old(cap) ==>
                && |pages| == |old(pages)| + 1 && pages[..|old(pages)|] == old(pages) && cap == UTE_BLKSZ
                && PageOut(pages[|old(pages)|], old(data), old(lvtd), lvtd)
                && (unsorted <==> old(unsorted) || old(needmrg)) && data == if ok then t else []
      ensures old(InLine()) && old(last) <= t[0].key ==> InLine() && (ok ==> last == t[0].key)
    {
      if t[0].key / 16 % 4 == 3 {
        ok := false;
        return;
      }
      var tsz := TickSize(t[0].key);
      if |data| + tsz > cap {
        Flush();
      }
      HoldsLeast(data, Book(), pages, log);
      ok := TpcAdd(t);
    }

    /** The first half of ute_close: is a sort of the whole file due? */
    method SortDue() returns (due: bool)
      requires Valid()
      modifies this
      ensures Valid() && data == [] && multiset(TicksIn(pages)) == log == old(log)
      ensures !due ==> Ascending(TicksIn(pages))
      ensures exact ==> (due <==> !Ascending(TicksIn(pages)))
      ensures PagesSound(pages) && (old(InLine()) ==> !due)
      ensures exact == old(exact) && |old(pages)| <= |pages| <= |old(pages)| + 1
    {
      Flush();
      HoldsAll(Book(), pages, log);
      due := unsorted;
    }
  }

  /** Two ticks the wrong way around in a new file: they are put in order on one page, so that no
      sort of the file is due. */
  method TwoOnAPage(hdr: nat) returns (f: UteFile, due: bool)
    requires hdr + 4 <= UTE_BLKSZ
    ensures f.Valid() && !due && |f.pages| == 1 && Ascending(TicksOf(f.pages[0]))
    ensures multiset(TicksOf(f.pages[0])) == multiset{[Sndwch(3, 0)], [Sndwch(5, 0)]}
  {
    f := TwoTicks(hdr);
    due := f.SortDue();
    OnlyPage(f.pages);
  }

  method TwoTicks(hdr: nat) returns (f: UteFile)
    requires hdr + 4 <= UTE_BLKSZ
    ensures fresh(f) && f.Valid() && f.pages == [] && f.exact && f.log == multiset{[Sndwch(3, 0)], [Sndwch(5, 0)]}
  {
    f := new UteFile(hdr);
    var ok := f.AddTick([Sndwch(5, 0)]);
    ok := f.AddTick([Sndwch(3, 0)]);
  }

  lemma OnlyPage(pages: seq<seq<Sndwch>>)
    ensures |pages| == 1 ==> TicksIn(pages) == TicksOf(pages[0])
    ensures |pages| == 0 ==> TicksIn(pages) == []
  {
    if |pages| == 1 {
      assert TicksIn(pages[..0]) == [];
    }
  }

  /** seek_sort of a page. */
  method SortedPage(data: seq<Sndwch>) returns (sorted: seq<Sndwch>)
    requires |data| <= UTE_BLKSZ && WholeTicks(data)
    ensures WholeTicks(sorted) && |sorted| == |data| && Ascending(TicksOf(sorted))
    ensures multiset(TicksOf(sorted)) == multiset(TicksOf(data))
  {
    var sp := Buffer(data);
    var scratch := new PermIdx[2 * IDXSORT_SIZE](_ => PermIdx(0, 0));
    SeekSort(sp, |data|, scratch);
    sorted := sp[..|data|];
  }

  lemma PageGrows(s: seq<Sndwch>, t: Tick)
    requires WholeTicks(s) && GoodTick(t)
    ensures WholeTicks(s + t) && TicksOf(s + t) == TicksOf(s) + [t]
  {
    WholeIsGood(s);
    var ts := TicksOf(s);
    FlatConcat(ts, [t]);
    FlatOne(t);
    var u := ts + [t];
    assert forall i {:trigger u[i]} :: 0 <= i < |ts| ==> u[i] == ts[i];
    GoodIsWhole(u);
  }

  method PageLast(page: seq<Sndwch>) returns (last: nat)
    requires WholeTicks(page) && TicksOf(page) != []
    ensures last == LastKey(TicksOf(page))
  {
    WholeIsGood(page);
    last := FinalKey(TicksOf(page));
  }
}
