/** The merge strategy of src/utesort.c: which pages have to be merged together, found by way of
    an interval tree of the pages' key ranges. */
module Strategy {
  import opened Merging
  import opened Ticks
  import IT = IntervalTheory
  import ITree = IntervalTree
  import IQ = IntervalQuery

  type Page = seq<Tick>

  function Lo(p: Page): nat
    requires p != [] && p[0] != []
  {
    p[0][0].key
  }

  function Hi(p: Page): nat
    requires p != [] && p[|p| - 1] != []
  {
    p[|p| - 1][0].key
  }

  /** A page as it is in a file: ticks in ascending order, at least one. */
  ghost predicate PageOk(p: Page) { p != [] && GoodTicks(p) && Sorted(TickKey(), p) }

  ghost predicate PagesOk(pages: seq<Page>) { forall q {:trigger pages[q]} :: 0 <= q < |pages| ==> PageOk(pages[q]) }

  datatype Range = Range(lo: nat, hi: nat)

  /** The key ranges of the pages. */
  ghost function Ranges(pages: seq<Page>): (r: seq<Range>)
    requires PagesOk(pages)
    ensures |r| == |pages|
    ensures forall q {:trigger r[q]} :: 0 <= q < |r| ==> r[q] == RangeOf(pages[q]) && r[q].lo <= r[q].hi
  {
    seq(|pages|, q requires 0 <= q < |pages| => assert PageOk(pages[q]); RangeUp(pages[q]); RangeOf(pages[q]))
  }

  ghost function RangeOf(p: Page): Range
    requires PageOk(p)
  {
    assert GoodTick(p[0]) && GoodTick(p[|p| - 1]);
    Range(Lo(p), Hi(p))
  }

  lemma RangeUp(p: Page)
    requires PageOk(p)
    ensures RangeOf(p).lo <= RangeOf(p).hi
  {
    assert GoodTick(p[0]) && GoodTick(p[|p| - 1]);
    SortedAt(TickKey(), p, 0, |p| - 1);
  }

  predicate Within(a: Range, b: Range) { b.lo <= a.lo && a.hi <= b.hi }

  predicate Meet(a: Range, b: Range) { a.lo <= b.hi && b.lo <= a.hi }

  /** No page but q has a range around that of q. */
  ghost predicate OnTop(r: seq<Range>, q: nat) {
    q < |r| && forall k {:trigger r[k]} :: 0 <= k < |r| && Within(r[q], r[k]) ==> k == q
  }

  ghost predicate DistinctRanges(r: seq<Range>) {
    forall j, k {:trigger r[j], r[k]} :: 0 <= j < |r| && 0 <= k < |r| && r[j] == r[k] ==> j == k
  }

  /** Every page lies within one that is on top. */
  ghost predicate Covered(r: seq<Range>) {
    forall q {:trigger Cover(r, q)} :: 0 <= q < |r| ==> Cover(r, q)
  }

  ghost predicate Cover(r: seq<Range>, q: nat) {
    q < |r| && exists k: nat {:trigger OnTop(r, k)} :: OnTop(r, k) && Within(r[q], r[k])
  }

  /** With distinct ranges every page does. */
  lemma DistinctIsCovered(r: seq<Range>)
    requires DistinctRanges(r) && forall q {:trigger r[q]} :: 0 <= q < |r| ==> r[q].lo <= r[q].hi
    ensures Covered(r)
  {
    forall q {:trigger Cover(r, q)} | 0 <= q < |r| ensures Cover(r, q) {
      var k := FindTop(r, q, MaxHi(r));
    }
  }

  function MaxHi(r: seq<Range>): (m: nat)
    ensures forall q {:trigger r[q]} :: 0 <= q < |r| ==> r[q].hi <= m
  {
    if r == [] then 0 else
    var m := MaxHi(r[1..]);
    assert forall q {:trigger r[q]} :: 0 < q < |r| ==> r[q] == r[1..][q - 1];
    if r[0].hi > m then r[0].hi else m
  }

  /** Climbs from page to wider page until one is on top. */
  lemma FindTop(r: seq<Range>, q: nat, m: nat) returns (k: nat)
    requires DistinctRanges(r) && q < |r| && forall q {:trigger r[q]} :: 0 <= q < |r| ==> r[q].lo <= r[q].hi <= m
    ensures OnTop(r, k) && Within(r[q], r[k])
    decreases m - (r[q].hi - r[q].lo)
  {
    if OnTop(r, q) {
      k := q;
    } else {
      var up :| 0 <= up < |r| && Within(r[q], r[up]) && up != q;
      assert r[up] != r[q];
      k := FindTop(r, up, m);
    }
  }

  // ---------------------------------------------------------------- the pages in the interval tree

  predicate DataDiffer(s: seq<IT.Item>, i: int, j: int) { 0 <= i < j < |s| ==> s[i].data != s[j].data }

  ghost predicate ItemOk(it: IT.Item, r: seq<Range>, n: nat) {
    0 <= it.data < n <= |r| && it.lo == r[it.data].lo && it.hi == r[it.data].hi
  }

  ghost predicate Listed(s: seq<IT.Item>, k: int) { exists i :: 0 <= i < |s| && s[i].data == k }

  /** The items are the first n pages, each one once. */
  ghost predicate Indexed(s: seq<IT.Item>, r: seq<Range>, n: nat) {
    && |s| == n <= |r|
    && (forall i {:trigger ItemOk(s[i], r, n)} :: 0 <= i < |s| ==> ItemOk(s[i], r, n))
    && (forall i, j {:trigger DataDiffer(s, i, j)} :: DataDiffer(s, i, j))
    && (forall k {:trigger Listed(s, k)} :: 0 <= k < n ==> Listed(s, k))
  }

  lemma {:induction false} InsertedSplits(s: seq<IT.Item>, it: IT.Item) returns (k: nat)
    ensures k <= |s| && IT.Inserted(s, it) == s[..k] + [it] + s[k..]
    decreases |s|
  {
    if s == [] || s[0].lo > it.lo {
      k := 0;
    } else {
      var j := InsertedSplits(s[1..], it);
      k := j + 1;
      assert s[1..][..j] == s[1..k] && s[1..][j..] == s[k..] && [s[0]] + s[1..k] == s[..k];
    }
  }

  /** One more page in the tree. */
  lemma IndexedMore(s: seq<IT.Item>, r: seq<Range>, n: nat, it: IT.Item)
    requires Indexed(s, r, n) && n < |r| && it.data == n && it.lo == r[n].lo && it.hi == r[n].hi
    ensures Indexed(IT.Inserted(s, it), r, n + 1)
  {
    var k := InsertedSplits(s, it);
    var u := IT.Inserted(s, it);
    assert forall i {:trigger u[i]} :: 0 <= i < |u| ==> u[i] == if i < k then s[i] else if i == k then it else s[i - 1];
    forall i {:trigger ItemOk(u[i], r, n + 1)} | 0 <= i < |u| ensures ItemOk(u[i], r, n + 1) {
      assert i != k ==> ItemOk(s[if i < k then i else i - 1], r, n);
    }
    forall i, j {:trigger DataDiffer(u, i, j)} ensures DataDiffer(u, i, j) {
      assert DataDiffer(s, if i <= k then i else i - 1, if j <= k then j else j - 1);
      assert 0 <= i < |u| && i != k ==> ItemOk(s[if i < k then i else i - 1], r, n);
      assert 0 <= j < |u| && j != k ==> ItemOk(s[if j < k then j else j - 1], r, n);
    }
    forall q {:trigger Listed(u, q)} | 0 <= q < n + 1 ensures Listed(u, q) {
      if q == n {
        assert u[k].data == q;
      } else {
        assert Listed(s, q);
        var i :| 0 <= i < |s| && s[i].data == q;
        assert u[if i < k then i else i + 1].data == q;
      }
    }
  }

  /** itree_add for every page. */
  method Index(pages: seq<Page>) returns (it: ITree.Tree)
    requires PagesOk(pages)
    ensures fresh(it) && it.Valid() && Indexed(it.Contents(), Ranges(pages), |pages|)
  {
    it := new ITree.Tree();
    ghost var r := Ranges(pages);
    assert Indexed([], r, 0) by { assert forall i, j {:trigger DataDiffer([], i, j)} :: DataDiffer([], i, j); }
    for k := 0 to |pages|
      invariant fresh(it) && it.Valid() && Indexed(it.Contents(), r, k)
    {
      assert PageOk(pages[k]) && r[k] == RangeOf(pages[k]);
      assert GoodTick(pages[k][0]) && GoodTick(pages[k][|pages[k]| - 1]);
      ghost var was := it.Contents();
      var z := it.Add(Lo(pages[k]), Hi(pages[k]), k);
      IndexedMore(was, r, k, IT.Item(z, r[k].lo, r[k].hi, k));
    }
  }

  // ---------------------------------------------------------------- one node of the strategy

  datatype Node = Node(pg: nat, pgs: seq<nat>)

  datatype MaybeNode = None | Some(value: Node)

  /** The pages of the items a query finds, all of them or all but pg. */
  function Found(s: seq<IT.Item>, skip: int): seq<int> {
    if s == [] then [] else (if s[0].data == skip then [] else [s[0].data]) + Found(s[1..], skip)
  }

  lemma {:induction false} FoundIs(s: seq<IT.Item>, skip: int, q: int)
    ensures q in Found(s, skip) <==> q != skip && Listed(s, q)
    decreases |s|
  {
    if s != [] {
      FoundIs(s[1..], skip, q);
      if Listed(s[1..], q) {
        var i :| 0 <= i < |s| - 1 && s[1..][i].data == q;
        assert s[i + 1].data == q;
      }
      if Listed(s, q) {
        var i :| 0 <= i < |s| && s[i].data == q;
        assert i > 0 ==> s[1..][i - 1].data == q;
      }
    }
  }

  ghost predicate DataDistinct(s: seq<IT.Item>) { forall i, j {:trigger DataDiffer(s, i, j)} :: DataDiffer(s, i, j) }

  lemma TailDistinct(s: seq<IT.Item>)
    requires DataDistinct(s) && s != []
    ensures DataDistinct(s[1..]) && !Listed(s[1..], s[0].data)
  {
    var t := s[1..];
    forall i, j {:trigger DataDiffer(t, i, j)} ensures DataDiffer(t, i, j) { assert DataDiffer(s, i + 1, j + 1); }
    forall i | 0 <= i < |t| ensures t[i].data != s[0].data { assert DataDiffer(s, 0, i + 1); }
  }

  /** Leaving out one page leaves out one entry. */
  lemma {:induction false} FoundLength(s: seq<IT.Item>, skip: int)
    requires DataDistinct(s)
    ensures |Found(s, skip)| == |s| - if Listed(s, skip) then 1 else 0
    decreases |s|
  {
    if s != [] {
      TailDistinct(s);
      FoundLength(s[1..], skip);
      assert s[0].data == skip ==> Listed(s, skip);
      if Listed(s, skip) && s[0].data != skip {
        var i :| 0 <= i < |s| && s[i].data == skip;
        assert s[1..][i - 1].data == skip;
      }
      if Listed(s[1..], skip) {
        var i :| 0 <= i < |s| - 1 && s[1..][i].data == skip;
        assert s[i + 1].data == skip;
      }
    }
  }

  /** What a search finds, by page. */
  lemma {:induction false} MatchingListed(q: IQ.Query, s: seq<IT.Item>, k: int)
    requires DataDistinct(s)
    ensures DataDistinct(IQ.Matching(q, s))
    ensures Listed(IQ.Matching(q, s), k) <==> exists i :: 0 <= i < |s| && s[i].data == k && IQ.Match(q, s[i])
  {
    var m := IQ.Matching(q, s);
    MatchingDistinct(q, s);
    if Listed(m, k) {
      var j :| 0 <= j < |m| && m[j].data == k;
      IQ.MatchingIsExact(q, s, m[j]);
      var i :| 0 <= i < |s| && s[i] == m[j];
    }
    if i :| 0 <= i < |s| && s[i].data == k && IQ.Match(q, s[i]) {
      IQ.MatchingIsExact(q, s, s[i]);
      var j :| 0 <= j < |m| && m[j] == s[i];
    }
  }

  lemma {:induction false} MatchingDistinct(q: IQ.Query, s: seq<IT.Item>)
    requires DataDistinct(s)
    ensures DataDistinct(IQ.Matching(q, s))
    decreases |s|
  {
    if s != [] {
      TailDistinct(s);
      MatchingDistinct(q, s[1..]);
      var t, m := IQ.Matching(q, s[1..]), IQ.Matching(q, s);
      forall i, j {:trigger DataDiffer(m, i, j)} ensures DataDiffer(m, i, j) {
        if |m| == |t| {
          assert m == t;
          assert DataDiffer(t, i, j);
        } else if 0 <= i < j < |m| {
          assert m == [s[0]] + t;
          assert DataDiffer(t, i - 1, j - 1);
          IQ.MatchingIsExact(q, s[1..], m[j]);
          var k :| 0 <= k < |s| - 1 && s[1..][k] == m[j];
          assert i == 0 ==> s[1..][k].data != s[0].data;
        }
      }
    }
  }

  ghost predicate NodeOk(nd: Node, r: seq<Range>) {
    && OnTop(r, nd.pg)
    && forall q: nat {:trigger q in nd.pgs} :: q in nd.pgs <==> q < |r| && Meet(r[q], r[nd.pg])
  }

  function AsNats(s: seq<int>): (r: seq<nat>)
    requires forall i {:trigger s[i]} :: 0 <= i < |s| ==> s[i] >= 0
    ensures |r| == |s| && forall i {:trigger r[i]} :: 0 <= i < |s| ==> r[i] == s[i]
  {
    seq(|s|, i requires 0 <= i < |s| => s[i])
  }

  /** More than one range around that of a page means that another page has it, too. */
  lemma SupersetsCount(s: seq<IT.Item>, r: seq<Range>, k: nat)
    requires Indexed(s, r, |r|) && k < |s|
    ensures ItemOk(s[k], r, |r|) && (|IQ.Matching(IQ.Sups(s[k].lo, s[k].hi), s)| > 1 <==> !OnTop(r, s[k].data))
  {
    var q, m := IQ.Sups(s[k].lo, s[k].hi), IQ.Matching(IQ.Sups(s[k].lo, s[k].hi), s);
    var pg := s[k].data;
    assert ItemOk(s[k], r, |r|);
    MatchingListed(q, s, pg);
    assert Listed(m, pg);
    if !OnTop(r, pg) {
      var o: int :| 0 <= o < |r| && Within(r[pg], r[o]) && o != pg;
      assert Listed(s, o);
      var i :| 0 <= i < |s| && s[i].data == o;
      assert ItemOk(s[i], r, |r|);
      MatchingListed(q, s, o);
      assert Listed(m, o);
    } else {
      forall j | 0 <= j < |m| ensures m[j].data == pg {
        assert Listed(m, m[j].data);
        MatchingListed(q, s, m[j].data);
        var i :| 0 <= i < |s| && s[i].data == m[j].data && IQ.Match(q, s[i]);
        assert ItemOk(s[i], r, |r|);
      }
      assert DataDiffer(m, 0, 1);
    }
  }

  /** A search finds the pages whose ranges match. */
  lemma FoundPages(q: IQ.Query, s: seq<IT.Item>, r: seq<Range>, page: int)
    requires Indexed(s, r, |r|)
    ensures Listed(IQ.Matching(q, s), page) <==> 0 <= page < |r| && IQ.Match(q, IT.Item(0, r[page].lo, r[page].hi, 0))
  {
    MatchingListed(q, s, page);
    if 0 <= page < |r| {
      assert Listed(s, page);
      var i :| 0 <= i < |s| && s[i].data == page;
      assert ItemOk(s[i], r, |r|);
      ItemAtPage(s, i, page);
    } else {
      forall i | 0 <= i < |s| ensures s[i].data != page {
        assert ItemOk(s[i], r, |r|);
      }
    }
  }

  lemma ItemAtPage(s: seq<IT.Item>, i: nat, page: int)
    requires DataDistinct(s) && i < |s| && s[i].data == page
    ensures forall j :: 0 <= j < |s| && s[j].data == page ==> j == i
  {
    forall j | 0 <= j < |s| && s[j].data == page ensures j == i {
      assert DataDiffer(s, i, j) && DataDiffer(s, j, i);
    }
  }

  /** What the three searches of __strat_cb find between them: the pages that meet this one. */
  lemma MeetingPages(s: seq<IT.Item>, r: seq<Range>, pg: nat, q: nat)
    requires Indexed(s, r, |r|) && pg < |r| && forall q {:trigger r[q]} :: 0 <= q < |r| ==> r[q].lo <= r[q].hi
    requires OnTop(r, pg)
    ensures (|| q in Found(IQ.Matching(IQ.Point(r[pg].lo), s), pg)
             || q in Found(IQ.Matching(IQ.Subs(r[pg].lo, r[pg].hi), s), -1)
             || q in Found(IQ.Matching(IQ.Point(r[pg].hi), s), pg))
            <==> q < |r| && Meet(r[q], r[pg])
  {
    var a, b, c := IQ.Point(r[pg].lo), IQ.Subs(r[pg].lo, r[pg].hi), IQ.Point(r[pg].hi);
    FoundIs(IQ.Matching(a, s), pg, q);
    FoundIs(IQ.Matching(b, s), -1, q);
    FoundIs(IQ.Matching(c, s), pg, q);
    FoundPages(a, s, r, q);
    FoundPages(b, s, r, q);
    FoundPages(c, s, r, q);
  }

  /** The pages of a node fit the space made for them: one less for each point search. */
  lemma NodeSize(s: seq<IT.Item>, r: seq<Range>, pg: nat)
    requires Indexed(s, r, |r|) && pg < |r| && r[pg].lo <= r[pg].hi
    ensures |Found(IQ.Matching(IQ.Point(r[pg].lo), s), pg)| == |IQ.Matching(IQ.Point(r[pg].lo), s)| - 1
    ensures |Found(IQ.Matching(IQ.Point(r[pg].hi), s), pg)| == |IQ.Matching(IQ.Point(r[pg].hi), s)| - 1
    ensures var subs := IQ.Matching(IQ.Subs(r[pg].lo, r[pg].hi), s); |Found(subs, -1)| == |subs| >= 1
  {
    var a, b, c := IQ.Point(r[pg].lo), IQ.Subs(r[pg].lo, r[pg].hi), IQ.Point(r[pg].hi);
    MatchingDistinct(a, s);
    MatchingDistinct(b, s);
    MatchingDistinct(c, s);
    FoundPages(a, s, r, pg);
    FoundPages(b, s, r, pg);
    FoundPages(b, s, r, -1);
    FoundPages(c, s, r, pg);
    FoundLength(IQ.Matching(a, s), pg);
    FoundLength(IQ.Matching(b, s), -1);
    FoundLength(IQ.Matching(c, s), pg);
  }

  /** One of the searches, for all that matches. */
  method Search(it: ITree.Tree, q: IQ.Query) returns (out: seq<IT.Item>)
    requires it.Valid() && |it.Contents()| < 0x1_0000_0000 && IQ.Meaningful(q, it.Contents())
    ensures out == IQ.Matching(q, it.Contents())
  {
    out := IQ.Find(it, q);
  }

  /** __strat_cb: a node for a page that is within no other. */
  method StratCb(it: ITree.Tree, item: IT.Item, ghost r: seq<Range>, ghost k: nat) returns (nd: MaybeNode)
    requires it.Valid() && |it.Contents()| < 0x1_0000_0000 && Indexed(it.Contents(), r, |r|)
    requires forall q {:trigger r[q]} :: 0 <= q < |r| ==> r[q].lo <= r[q].hi
    requires k < |it.Contents()| && it.Contents()[k] == item
    ensures 0 <= item.data < |r| && (nd.Some? <==> OnTop(r, item.data))
    ensures nd.Some? ==> nd.value.pg == item.data && NodeOk(nd.value, r)
  {
    ghost var s := it.Contents();
    SupersetsCount(s, r, k);
    AllMeaningful(s, r);
    var pg, lo, hi: nat := item.data, item.lo, item.hi;
    var sups := Search(it, IQ.Sups(lo, hi));
    if |sups| > 1 {
      return None;
    }
    var a := Search(it, IQ.Point(lo));
    var b := Search(it, IQ.Subs(lo, hi));
    var c := Search(it, IQ.Point(hi));
    var pgs := Found(a, pg) + Found(b, -1) + Found(c, pg);
    NodePages(s, r, pg, pgs);
    nd := Some(Node(pg, AsNats(pgs)));
  }

  /** The pages of the three searches, which fill the space made for them, make a good node. */
  lemma NodePages(s: seq<IT.Item>, r: seq<Range>, pg: nat, pgs: seq<int>)
    requires Indexed(s, r, |r|) && pg < |r| && OnTop(r, pg)
    requires forall q {:trigger r[q]} :: 0 <= q < |r| ==> r[q].lo <= r[q].hi
    requires pgs == Found(IQ.Matching(IQ.Point(r[pg].lo), s), pg)
                    + Found(IQ.Matching(IQ.Subs(r[pg].lo, r[pg].hi), s), -1)
                    + Found(IQ.Matching(IQ.Point(r[pg].hi), s), pg)
    ensures forall i {:trigger pgs[i]} :: 0 <= i < |pgs| ==> pgs[i] >= 0
    ensures NodeOk(Node(pg, AsNats(pgs)), r)
    ensures |pgs| == |IQ.Matching(IQ.Point(r[pg].lo), s)| + |IQ.Matching(IQ.Subs(r[pg].lo, r[pg].hi), s)|
                     + |IQ.Matching(IQ.Point(r[pg].hi), s)| - 2
  {
    var qa, qb, qc := IQ.Point(r[pg].lo), IQ.Subs(r[pg].lo, r[pg].hi), IQ.Point(r[pg].hi);
    var a, b, c := IQ.Matching(qa, s), IQ.Matching(qb, s), IQ.Matching(qc, s);
    NodeSize(s, r, pg);
    forall i {:trigger pgs[i]} | 0 <= i < |pgs| ensures pgs[i] >= 0 {
      FoundPage(a, r, s, qa, pg, pgs[i]);
      FoundPage(b, r, s, qb, -1, pgs[i]);
      FoundPage(c, r, s, qc, pg, pgs[i]);
    }
    forall q: nat {:trigger q in AsNats(pgs)} ensures q in AsNats(pgs) <==> q < |r| && Meet(r[q], r[pg]) {
      MeetingPages(s, r, pg, q);
      AsNatsMember(pgs, q);
    }
  }

  lemma AsNatsMember(s: seq<int>, q: nat)
    requires forall i {:trigger s[i]} :: 0 <= i < |s| ==> s[i] >= 0
    ensures q in AsNats(s) <==> q in s
  {
    if q in s {
      var i :| 0 <= i < |s| && s[i] == q;
      assert AsNats(s)[i] == q;
    }
  }

  lemma FoundPage(m: seq<IT.Item>, r: seq<Range>, s: seq<IT.Item>, q: IQ.Query, skip: int, page: int)
    requires Indexed(s, r, |r|) && m == IQ.Matching(q, s)
    ensures page in Found(m, skip) ==> 0 <= page < |r|
  {
    FoundIs(m, skip, page);
    FoundPages(q, s, r, page);
  }

  lemma AllMeaningful(s: seq<IT.Item>, r: seq<Range>)
    requires Indexed(s, r, |r|) && forall q {:trigger r[q]} :: 0 <= q < |r| ==> r[q].lo <= r[q].hi
    ensures forall i {:trigger s[i]} :: 0 <= i < |s| ==> s[i].lo <= s[i].hi
    ensures forall q: IQ.Query {:trigger IQ.Meaningful(q, s)} :: (q.Sups? ==> q.lo <= q.hi) ==> IQ.Meaningful(q, s)
  {
    forall i {:trigger s[i]} | 0 <= i < |s| ensures s[i].lo <= s[i].hi {
      assert ItemOk(s[i], r, |r|);
    }
  }

  // ---------------------------------------------------------------- the strategy

  predicate NodesApart(strat: seq<Node>, r: seq<Range>, i: int, j: int) {
    0 <= i < j < |strat| && strat[i].pg < |r| && strat[j].pg < |r| ==>
      r[strat[i].pg].lo < r[strat[j].pg].lo && r[strat[i].pg].hi < r[strat[j].pg].hi
  }

  ghost predicate HasNode(strat: seq<Node>, q: nat) { exists i :: 0 <= i < |strat| && strat[i].pg == q }

  /** One node for every page on top, from left to right. */
  ghost predicate TopNodes(strat: seq<Node>, r: seq<Range>) {
    && (forall i {:trigger NodeOk(strat[i], r)} :: 0 <= i < |strat| ==> NodeOk(strat[i], r))
    && (forall i, j {:trigger NodesApart(strat, r, i, j)} :: NodesApart(strat, r, i, j))
    && (forall q: nat {:trigger HasNode(strat, q)} :: OnTop(r, q) ==> HasNode(strat, q))
  }

  /** No page is on top, so all are merged at once. */
  ghost predicate AllAtOnce(strat: seq<Node>, r: seq<Range>) {
    && |strat| == 1 && strat[0].pg == 0 && (forall q: nat {:trigger OnTop(r, q)} :: !OnTop(r, q))
    && |strat[0].pgs| == |r| && forall q: nat {:trigger q in strat[0].pgs} :: q in strat[0].pgs <==> q < |r|
  }

  /** Pages on top are ordered by both ends. */
  lemma TopsApart(r: seq<Range>, p: nat, q: nat)
    requires OnTop(r, p) && OnTop(r, q) && p != q && r[p].lo <= r[q].lo
    ensures r[p].lo < r[q].lo && r[p].hi < r[q].hi
  {
  }

  /** The nodes for the items seen so far. */
  ghost predicate NodesFor(strat: seq<Node>, r: seq<Range>, s: seq<IT.Item>, n: nat) {
    && n <= |s|
    && (forall i {:trigger NodeOk(strat[i], r)} :: 0 <= i < |strat| ==>
          NodeOk(strat[i], r) && SeenBefore(s, n, strat[i].pg))
    && (forall i, j {:trigger NodesApart(strat, r, i, j)} :: NodesApart(strat, r, i, j))
    && (forall k {:trigger s[k]} :: 0 <= k < n && s[k].data >= 0 && OnTop(r, s[k].data) ==> HasNode(strat, s[k].data))
  }

  ghost predicate SeenBefore(s: seq<IT.Item>, n: nat, q: nat) { exists k :: 0 <= k < n <= |s| && s[k].data == q }

  lemma NextNode(strat: seq<Node>, r: seq<Range>, s: seq<IT.Item>, n: nat, nd: MaybeNode)
    requires Indexed(s, r, |r|) && IT.ByLow(s) && n < |s| && NodesFor(strat, r, s, n)
    requires 0 <= s[n].data < |r| && (nd.Some? <==> OnTop(r, s[n].data))
    requires (nd.Some? ==> nd.value.pg == s[n].data && NodeOk(nd.value, r))
    ensures var u := if nd.Some? then strat + [nd.value] else strat; NodesFor(u, r, s, n + 1)
  {
    var u := if nd.Some? then strat + [nd.value] else strat;
    forall i {:trigger NodeOk(u[i], r)} | 0 <= i < |u| ensures NodeOk(u[i], r) && SeenBefore(s, n + 1, u[i].pg) {
      if i < |strat| {
        assert u[i] == strat[i] && NodeOk(strat[i], r);
        var k :| 0 <= k < n && s[k].data == strat[i].pg;
        assert k < n + 1;
      } else {
        assert s[n].data == u[i].pg;
      }
    }
    forall i, j {:trigger NodesApart(u, r, i, j)} ensures NodesApart(u, r, i, j) {
      assert NodesApart(strat, r, i, j);
      if 0 <= i < j == |strat| && nd.Some? {
        assert u[i] == strat[i] && NodeOk(strat[i], r);
        var k :| 0 <= k < n && s[k].data == strat[i].pg;
        assert ItemOk(s[k], r, |r|) && ItemOk(s[n], r, |r|) && IT.InOrder(s, k, n) && DataDiffer(s, k, n);
        TopsApart(r, strat[i].pg, nd.value.pg);
      }
    }
    forall k {:trigger s[k]} | 0 <= k < n + 1 && s[k].data >= 0 && OnTop(r, s[k].data) ensures HasNode(u, s[k].data) {
      if k < n {
        assert HasNode(strat, s[k].data);
        var i :| 0 <= i < |strat| && strat[i].pg == s[k].data;
        assert u[i].pg == s[k].data;
      } else {
        assert u[|strat|].pg == s[k].data;
      }
    }
    assert NodesFor(u, r, s, n + 1);
  }

  /** sort_strat: a node for every page on top, or one node for all pages if there is none. */
  method SortStrat(pages: seq<Page>) returns (strat: seq<Node>)
    requires PagesOk(pages) && |pages| < 0x1_0000_0000
    ensures if exists q: nat :: OnTop(Ranges(pages), q)
            then TopNodes(strat, Ranges(pages)) && strat != []
            else AllAtOnce(strat, Ranges(pages))
  {
    ghost var r := Ranges(pages);
    var it := Index(pages);
    ghost var s := it.Contents();
    var items := IQ.TravInOrder(it);
    strat := [];
    for i := 0 to |items|
      invariant it.Valid() && it.Contents() == s && NodesFor(strat, r, s, i)
    {
      var nd := StratCb(it, items[i], r, i);
      NextNode(strat, r, s, i, nd);
      if nd.Some? {
        strat := strat + [nd.value];
      }
    }
    StrategyDone(strat, r, s);
    if strat == [] {
      strat := [Node(0, Upto(|pages|))];
    }
  }

  /** All page numbers. */
  function Upto(n: nat): (r: seq<nat>)
    ensures |r| == n && forall q: nat {:trigger q in r} :: q in r <==> q < n
  {
    var r := seq<nat>(n, i => i);
    assert forall q: nat {:trigger r[q]} :: q < n ==> r[q] == q;
    assert forall q: nat {:trigger q in r} :: q < n ==> r[q] in r;
    r
  }

  lemma StrategyDone(strat: seq<Node>, r: seq<Range>, s: seq<IT.Item>)
    requires Indexed(s, r, |r|) && NodesFor(strat, r, s, |s|)
    ensures TopNodes(strat, r)
    ensures strat == [] <==> forall q: nat {:trigger OnTop(r, q)} :: !OnTop(r, q)
  {
    if strat != [] {
      assert NodeOk(strat[0], r);
    }
    forall q: nat {:trigger HasNode(strat, q)} | OnTop(r, q) ensures HasNode(strat, q) {
      assert Listed(s, q);
      var k :| 0 <= k < |s| && s[k].data == q;
    }
    if strat == [] {
      forall q: nat {:trigger OnTop(r, q)} ensures !OnTop(r, q) {
        assert OnTop(r, q) ==> HasNode(strat, q);
      }
    }
  }
}
