/** Closing a file (src/utefile.c): if its marks say so, all of its ticks go through the global
    merge into a new file. */
module FileClose {
  import opened Merging
  import opened Ticks
  import opened PageSort
  import opened TickFile
  import opened Strategy
  import opened GlobalMerge

  /** The pages as sequences of ticks. */
  function PagesOf(pages: seq<seq<Sndwch>>): (r: seq<Page>)
    ensures |r| == |pages| && forall i {:trigger r[i]} :: 0 <= i < |r| ==> r[i] == TicksOf(pages[i])
  {
    seq(|pages|, i requires 0 <= i < |pages| => TicksOf(pages[i]))
  }

  lemma {:induction false} PagesOfFlat(pages: seq<seq<Sndwch>>)
    ensures Flat(PagesOf(pages)) == TicksIn(pages)
    decreases |pages|
  {
    if pages != [] {
      var d, l := pages[..|pages| - 1], pages[|pages| - 1];
      PagesOfFlat(d);
      assert PagesOf(pages) == PagesOf(d) + [TicksOf(l)];
      FlatConcat(PagesOf(d), [TicksOf(l)]);
      FlatOne(TicksOf(l));
    }
  }

  lemma SoundIsOk(pages: seq<seq<Sndwch>>)
    requires PagesSound(pages)
    ensures PagesOk(PagesOf(pages))
    ensures forall i {:trigger PagesOf(pages)[i]} :: 0 <= i < |pages| ==> AllSane(PagesOf(pages)[i])
  {
    var r := PagesOf(pages);
    forall q {:trigger r[q]} | 0 <= q < |r| ensures PageOk(r[q]) && AllSane(r[q]) {
      assert PageSound(pages[q]);
      WholeIsGood(pages[q]);
    }
  }

  /** Ticks that come out of the merge are ticks that went in. */
  lemma TouchedAreFromPages(pages: seq<Page>, out: seq<Tick>)
    requires PagesOk(pages) && multiset(out) == multiset(Flat(TouchedPages(pages)))
    requires forall i {:trigger pages[i]} :: 0 <= i < |pages| ==> AllSane(pages[i])
    ensures GoodTicks(out) && AllSane(out)
  {
    var t := TouchedPages(pages);
    forall i {:trigger out[i]} | 0 <= i < |out| ensures GoodTick(out[i]) && Sane(out[i]) {
      assert out[i] in multiset(Flat(t));
      var q, k := InSomePage(t, out[i]);
      assert t[q] == pages[q] && PageOk(pages[q]);
    }
  }

  lemma {:induction false} InSomePage(pages: seq<Page>, t: Tick) returns (q: nat, k: nat)
    requires t in Flat(pages)
    ensures q < |pages| && k < |pages[q]| && pages[q][k] == t
    decreases |pages|
  {
    if t in pages[0] {
      q := 0;
      k :| 0 <= k < |pages[0]| && pages[0][k] == t;
    } else {
      q, k := InSomePage(pages[1..], t);
      q := q + 1;
    }
  }

  /** The main loop of ute_sort adds the ticks to a new file: in order they never get it marked. */
  method Refill(out: seq<Tick>, hdr: nat) returns (hdl: UteFile)
    requires GoodTicks(out) && AllSane(out) && hdr + 4 <= UTE_BLKSZ
    ensures fresh(hdl) && hdl.Valid() && hdl.log == multiset(out) && hdl.exact
    ensures Sorted(TickKey(), out) ==> hdl.InLine()
  {
    hdl := new UteFile(hdr);
    assert out[..0] == [];
    for i := 0 to |out|
      invariant fresh(hdl) && hdl.Valid() && hdl.exact && hdl.log == multiset(out[..i])
      invariant Sorted(TickKey(), out) ==> hdl.InLine() && hdl.last == KeyBefore(out, i)
    {
      RefillOne(hdl, out, i);
    }
    assert out[..|out|] == out;
  }

  /** The key before position i, or 0. */
  function KeyBefore(out: seq<Tick>, i: nat): int
    requires i <= |out|
  {
    if i == 0 then 0 else TickKey()(out[i - 1])
  }

  method RefillOne(hdl: UteFile, out: seq<Tick>, i: nat)
    requires hdl.Valid() && hdl.exact && i < |out| && hdl.log == multiset(out[..i]) && GoodTicks(out) && AllSane(out)
    requires Sorted(TickKey(), out) ==> hdl.InLine() && hdl.last == KeyBefore(out, i)
    modifies hdl
    ensures hdl.Valid() && hdl.exact && hdl.log == multiset(out[..i + 1])
    ensures Sorted(TickKey(), out) ==> hdl.InLine() && hdl.last == KeyBefore(out, i + 1)
  {
    assert GoodTick(out[i]) && Sane(out[i]);
    if Sorted(TickKey(), out) && i > 0 {
      SortedAt(TickKey(), out, i - 1, i);
    }
    assert out[..i + 1] == out[..i] + [out[i]];
    var ok := hdl.AddTick(out[i]);
  }

  /** Keys are 64-bit integers. */
  ghost predicate LogFits(log: multiset<Tick>) {
    forall t: Tick {:trigger log[t]} :: t in log && t != [] ==> t[0].key <= ULLONG_MAX
  }

  lemma PagesFit(pages: seq<seq<Sndwch>>, log: multiset<Tick>)
    requires multiset(TicksIn(pages)) == log && LogFits(log)
    ensures KeysFit(PagesOf(pages))
  {
    var r := PagesOf(pages);
    PagesOfFlat(pages);
    forall q: int, i: int {:trigger r[q][i]} | 0 <= q < |r| && 0 <= i < |r[q]| && r[q][i] != []
      ensures TickKey()(r[q][i]) <= ULLONG_MAX
    {
      InFlat(r, q, i);
      assert r[q][i] in log;
    }
  }

  lemma {:induction false} InFlat(r: seq<Page>, q: nat, i: nat)
    requires q < |r| && i < |r[q]|
    ensures r[q][i] in Flat(r)
    decreases |r|
  {
    if q > 0 {
      InFlat(r[1..], q - 1, i);
    }
  }

  /** ute_close: flushes the file and, if its marks say so, puts all of it through the global
      merge into a new file. `again` says that the marks of the new file call for another merge. */
  method UteClose(f: UteFile, hdr: nat) returns (due: bool, again: bool, pages: seq<seq<Sndwch>>)
    requires f.Valid() && hdr + 4 <= UTE_BLKSZ && |f.pages| + 1 < 0x1_0000_0000 && LogFits(f.log)
    modifies f
    ensures f.Valid() && f.data == [] && f.log == old(f.log) && multiset(TicksIn(f.pages)) == f.log
    ensures PagesSound(f.pages) && PagesSound(pages) && PagesOk(PagesOf(f.pages))
    ensures old(f.exact) ==> (due <==> !Ascending(TicksIn(f.pages)))
    ensures !due ==> pages == f.pages
    ensures Ascending(TicksIn(pages)) <==> !again
    ensures !Overtaken(Ranges(PagesOf(f.pages))) ==> !again
    ensures due ==> (multiset(TicksIn(pages)) == f.log <==> AllTouched(Ranges(PagesOf(f.pages))))
  {
    due := f.SortDue();
    pages, again := f.pages, false;
    SoundIsOk(f.pages);
    if due {
      again, pages := SortInto(f.pages, hdr, f.log);
    }
  }

  /** ute_sort. */
  method SortInto(pages: seq<seq<Sndwch>>, hdr: nat, ghost log: multiset<Tick>)
    returns (again: bool, pages': seq<seq<Sndwch>>)
    requires PagesSound(pages) && hdr + 4 <= UTE_BLKSZ && |pages| < 0x1_0000_0000 && multiset(TicksIn(pages)) == log
    requires LogFits(log)
    ensures PagesSound(pages') && PagesOk(PagesOf(pages))
    ensures Ascending(TicksIn(pages')) <==> !again
    ensures !Overtaken(Ranges(PagesOf(pages))) ==> !again
    ensures multiset(TicksIn(pages')) == log <==> AllTouched(Ranges(PagesOf(pages)))
  {
    var ps := PagesOf(pages);
    PagesOfFlat(pages);
    SoundIsOk(pages);
    PagesFit(pages, log);
    var out := UteSort(ps);
    TouchedAreFromPages(ps, out);
    var hdl := Refill(out, hdr);
    again := hdl.SortDue();
    pages' := hdl.pages;
  }
}
