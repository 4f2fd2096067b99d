/** The global merge of src/utesort.c: pages are loaded node by node of the strategy, and the
    smallest tick on a loaded page comes next. */
module GlobalMerge {
  import opened Merging
  import opened Ticks
  import opened Strategy

  const ULLONG_MAX: nat := 0xffff_ffff_ffff_ffff

  /** A page that is being read, and how many of its ticks have been. */
  datatype Seek = Seek(pg: nat, si: nat)

  function KeyAt(pages: seq<Page>, q: nat, i: nat): (k: nat)
    requires q < |pages| && i < |pages[q]| && pages[q][i] != []
    ensures k == TickKey()(pages[q][i])
  {
    pages[q][i][0].key
  }

  /** Keys are 64-bit integers. */
  ghost predicate KeysFit(pages: seq<Page>) {
    forall q, i {:trigger pages[q][i]} :: 0 <= q < |pages| && 0 <= i < |pages[q]| && pages[q][i] != [] ==>
          pages[q][i][0].key <= ULLONG_MAX
  }

  // ---------------------------------------------------------------- what a strategy has to provide

  /** What every strategy of sort_strat is: nodes for the pages on top, or one node. */
  ghost predicate Usable(strat: seq<Node>, r: seq<Range>) {
    && strat != [] && (|strat| > 1 ==> TopNodes(strat, r))
    && forall c: nat, q: nat {:trigger q in strat[c].pgs} :: c < |strat| && q in strat[c].pgs ==> q < |r|
  }

  lemma StrategyUsable(strat: seq<Node>, r: seq<Range>)
    requires strat != [] && (TopNodes(strat, r) || AllAtOnce(strat, r))
    ensures Usable(strat, r)
  {
    forall c: nat, q: nat {:trigger q in strat[c].pgs} | c < |strat| && q in strat[c].pgs ensures q < |r| {
      if TopNodes(strat, r) {
        assert NodeOk(strat[c], r);
      }
    }
  }

  /** Page q is in one of the first c + 1 nodes. */
  ghost predicate Reached(strat: seq<Node>, c: nat, q: nat) {
    exists k :: 0 <= k <= c && k < |strat| && q in strat[k].pgs
  }

  /** b is the first page on top behind a. */
  ghost predicate NextTop(r: seq<Range>, a: nat, b: nat) {
    && OnTop(r, a) && OnTop(r, b) && r[a].lo < r[b].lo
    && forall k: nat {:trigger OnTop(r, k)} :: OnTop(r, k) ==> r[k].lo <= r[a].lo || r[b].lo <= r[k].lo
  }

  /** Between the pages a and b on top there is a gap. Page u reaches into it, page q, which meets b,
      starts in it before u ends, and no page that reaches b from a ends before u does. */
  ghost predicate Overtakes(r: seq<Range>, a: nat, b: nat, u: nat, q: nat) {
    && a < |r| && b < |r| && u < |r| && q < |r|
    && r[a].hi < r[b].lo && r[u].lo <= r[a].hi < r[q].lo < r[u].hi && Meet(r[q], r[b])
    && forall v: nat {:trigger r[v]} :: v < |r| && r[v].lo <= r[a].hi && r[b].lo <= r[v].hi ==> r[u].hi <= r[v].hi
  }

  /** Some page is loaded too late. */
  ghost predicate Overtaken(r: seq<Range>) {
    exists a: nat, b: nat, u: nat, q: nat {:trigger NextTop(r, a, b), Overtakes(r, a, b, u, q)} ::
          NextTop(r, a, b) && Overtakes(r, a, b, u, q)
  }

  /** The same in terms of a strategy: some page of node c + 1 is loaded too late. */
  ghost predicate OvertakenAt(strat: seq<Node>, r: seq<Range>, c: nat) {
    c + 1 < |strat| && exists u: nat, q: nat {:trigger Overtakes(r, strat[c].pg, strat[c + 1].pg, u, q)} ::
      Overtakes(r, strat[c].pg, strat[c + 1].pg, u, q)
  }

  ghost predicate OvertakenIn(strat: seq<Node>, r: seq<Range>) { exists c: nat :: OvertakenAt(strat, r, c) }

  lemma OvertakenEither(strat: seq<Node>, r: seq<Range>)
    requires if NoneOnTop(r) then AllAtOnce(strat, r) else TopNodes(strat, r) && strat != []
    ensures OvertakenIn(strat, r) <==> Overtaken(r)
  {
    if OvertakenIn(strat, r) {
      var c: nat :| OvertakenAt(strat, r, c);
      NextNodeIsNextTop(strat, r, c);
    }
    if a: nat, b: nat, u: nat, q: nat :| NextTop(r, a, b) && Overtakes(r, a, b, u, q) {
      var c := NextTopIsNextNode(strat, r, a, b);
      assert OvertakenAt(strat, r, c);
    }
  }

  lemma NextNodeIsNextTop(strat: seq<Node>, r: seq<Range>, c: nat)
    requires TopNodes(strat, r) && c + 1 < |strat|
    ensures NextTop(r, strat[c].pg, strat[c + 1].pg)
  {
    NodeOrder(strat, r, c, c + 1);
    forall k: nat {:trigger OnTop(r, k)} | OnTop(r, k)
      ensures r[k].lo <= r[strat[c].pg].lo || r[strat[c + 1].pg].lo <= r[k].lo
    {
      assert HasNode(strat, k);
      var i :| 0 <= i < |strat| && strat[i].pg == k;
      NodeOrder(strat, r, if i <= c then i else c + 1, if i <= c then c else i);
    }
  }

  lemma NextTopIsNextNode(strat: seq<Node>, r: seq<Range>, a: nat, b: nat) returns (c: nat)
    requires TopNodes(strat, r) && NextTop(r, a, b)
    ensures c + 1 < |strat| && strat[c].pg == a && strat[c + 1].pg == b
  {
    assert HasNode(strat, a) && HasNode(strat, b);
    c :| 0 <= c < |strat| && strat[c].pg == a;
    var j :| 0 <= j < |strat| && strat[j].pg == b;
    NodeOrder(strat, r, if c <= j then c else j, if c <= j then j else c);
    if j > c + 1 {
      NodeOrder(strat, r, c, c + 1);
      NodeOrder(strat, r, c + 1, j);
      assert false;
    }
  }

  /** If every page lies within one on top none is loaded too late. */
  lemma CoveredInTime(r: seq<Range>)
    requires Covered(r)
    ensures !Overtaken(r)
  {
    if a: nat, b: nat, u: nat, q: nat :| NextTop(r, a, b) && Overtakes(r, a, b, u, q) {
      assert Cover(r, u);
      var k: nat :| OnTop(r, k) && Within(r[u], r[k]);
      assert false;
    }
  }

  /** Nodes are in order. */
  lemma NodeOrder(strat: seq<Node>, r: seq<Range>, i: nat, j: nat)
    requires TopNodes(strat, r) && i <= j < |strat|
    ensures NodeOk(strat[i], r) && NodeOk(strat[j], r)
    ensures r[strat[i].pg].lo <= r[strat[j].pg].lo && r[strat[i].pg].hi <= r[strat[j].pg].hi
    ensures i < j ==> r[strat[i].pg].lo < r[strat[j].pg].lo && r[strat[i].pg].hi < r[strat[j].pg].hi
  {
    assert NodeOk(strat[i], r) && NodeOk(strat[j], r) && NodesApart(strat, r, i, j);
  }

  // ---------------------------------------------------------------- the state of the merge

  ghost predicate InSeeks(sks: seq<Seek>, q: nat) { exists j :: 0 <= j < |sks| && sks[j].pg == q }

  predicate PagesDiffer(sks: seq<Seek>, i: int, j: int) { 0 <= i < j < |sks| ==> sks[i].pg != sks[j].pg }

  ghost predicate SeekOk(pages: seq<Page>, pgbs: seq<bool>, pos: seq<nat>, s: Seek)
    requires |pgbs| == |pos| == |pages|
  {
    s.pg < |pages| && pgbs[s.pg] && s.si == pos[s.pg] < |pages[s.pg]|
  }

  ghost predicate PosOk(pages: seq<Page>, sks: seq<Seek>, pgbs: seq<bool>, pos: seq<nat>, q: nat)
    requires |pgbs| == |pos| == |pages| && q < |pages|
  {
    pos[q] <= |pages[q]| && (!pgbs[q] ==> pos[q] == 0) && (pgbs[q] && pos[q] < |pages[q]| ==> InSeeks(sks, q))
  }

  /** The seeks are the loaded pages that have ticks left; pos says how many ticks of each page
      are done. */
  ghost predicate Tracks(pages: seq<Page>, sks: seq<Seek>, pgbs: seq<bool>, pos: seq<nat>) {
    && |pgbs| == |pos| == |pages|
    && (forall q: nat {:trigger PosOk(pages, sks, pgbs, pos, q)} :: q < |pages| ==> PosOk(pages, sks, pgbs, pos, q))
    && (forall j {:trigger sks[j]} :: 0 <= j < |sks| ==> SeekOk(pages, pgbs, pos, sks[j]))
    && (forall i, j {:trigger PagesDiffer(sks, i, j)} :: PagesDiffer(sks, i, j))
  }

  /** The ticks done. */
  ghost function Taken(pages: seq<Page>, pos: seq<nat>, n: nat): multiset<Tick>
    requires n <= |pages| == |pos| && forall q {:trigger pos[q]} :: 0 <= q < n ==> pos[q] <= |pages[q]|
  {
    if n == 0 then multiset{} else Taken(pages, pos, n - 1) + multiset(pages[n - 1][..pos[n - 1]])
  }

  lemma {:induction false} TakenSame(pages: seq<Page>, pos: seq<nat>, pos': seq<nat>, n: nat)
    requires n <= |pages| == |pos| == |pos'|
    requires forall q {:trigger pos[q]} {:trigger pos'[q]} :: 0 <= q < n ==> pos[q] == pos'[q] <= |pages[q]|
    ensures Taken(pages, pos', n) == Taken(pages, pos, n)
    decreases n
  {
    if n > 0 {
      TakenSame(pages, pos, pos', n - 1);
    }
  }

  lemma {:induction false} TakenMore(pages: seq<Page>, pos: seq<nat>, q: nat, n: nat)
    requires n <= |pages| == |pos| && q < n && forall k {:trigger pos[k]} :: 0 <= k < n ==> pos[k] <= |pages[k]|
    requires pos[q] < |pages[q]|
    ensures Taken(pages, pos[q := pos[q] + 1], n) == Taken(pages, pos, n) + multiset{pages[q][pos[q]]}
    decreases n
  {
    var pos' := pos[q := pos[q] + 1];
    if q == n - 1 {
      TakenSame(pages, pos, pos', n - 1);
      assert pages[q][..pos[q] + 1] == pages[q][..pos[q]] + [pages[q][pos[q]]];
    } else {
      TakenMore(pages, pos, q, n - 1);
    }
  }

  lemma {:induction false} TakenAll(pages: seq<Page>, pos: seq<nat>, l: seq<Page>, n: nat)
    requires n <= |pages| == |pos| == |l|
    requires forall k {:trigger pos[k]} :: 0 <= k < n ==> pos[k] <= |pages[k]| && pages[k][..pos[k]] == l[k]
    ensures Taken(pages, pos, n) == multiset(Flat(l[..n]))
    decreases n
  {
    if n > 0 {
      TakenAll(pages, pos, l, n - 1);
      assert l[..n] == l[..n - 1] + [l[n - 1]];
      FlatConcat(l[..n - 1], [l[n - 1]]);
      FlatOne(l[n - 1]);
      assert pages[n - 1][..pos[n - 1]] == l[n - 1];
    }
  }

  lemma {:induction false} TakenNone(pages: seq<Page>, pos: seq<nat>, n: nat)
    requires n <= |pages| == |pos| && forall k {:trigger pos[k]} :: 0 <= k < n ==> pos[k] == 0
    ensures Taken(pages, pos, n) == multiset{}
    decreases n
  {
    if n > 0 {
      TakenNone(pages, pos, n - 1);
    }
  }

  function LastOf(out: seq<Tick>): int
    requires out != []
  {
    TickKey()(out[|out| - 1])
  }

  /** Nothing left on page q comes before what is out, and what is out of q comes no later. */
  ghost predicate InTurn(pages: seq<Page>, pgbs: seq<bool>, pos: seq<nat>, out: seq<Tick>, q: nat)
    requires |pgbs| == |pos| == |pages| && q < |pages| && pos[q] <= |pages[q]|
  {
    && (pgbs[q] && pos[q] < |pages[q]| && out != [] ==> LastOf(out) <= TickKey()(pages[q][pos[q]]))
    && (pos[q] > 0 ==> out != [] && TickKey()(pages[q][pos[q] - 1]) <= LastOf(out))
  }

  ghost predicate AllInTurn(pages: seq<Page>, pgbs: seq<bool>, pos: seq<nat>, out: seq<Tick>) {
    && |pgbs| == |pos| == |pages| && (forall q {:trigger pos[q]} :: 0 <= q < |pages| ==> pos[q] <= |pages[q]|)
    && (forall q: nat {:trigger InTurn(pages, pgbs, pos, out, q)} :: q < |pages| ==> InTurn(pages, pgbs, pos, out, q))
  }

  ghost predicate TakenIs(pages: seq<Page>, pos: seq<nat>, out: seq<Tick>) {
    && |pos| == |pages| && (forall q {:trigger pos[q]} :: 0 <= q < |pages| ==> pos[q] <= |pages[q]|)
    && multiset(out) == Taken(pages, pos, |pages|)
  }

  ghost predicate Emitted(pages: seq<Page>, pgbs: seq<bool>, pos: seq<nat>, out: seq<Tick>) {
    Sorted(TickKey(), out) && AllInTurn(pages, pgbs, pos, out)
  }

  /** Keys on a page lie within its range. */
  lemma KeyInRange(pages: seq<Page>, q: nat, i: nat)
    requires PagesOk(pages) && q < |pages| && i < |pages[q]|
    ensures PageOk(pages[q]) && Ranges(pages)[q].lo <= TickKey()(pages[q][i]) <= Ranges(pages)[q].hi
    ensures i == 0 ==> TickKey()(pages[q][i]) == Ranges(pages)[q].lo
    ensures i == |pages[q]| - 1 ==> TickKey()(pages[q][i]) == Ranges(pages)[q].hi
  {
    var p := pages[q];
    assert PageOk(p) && Ranges(pages)[q] == RangeOf(p);
    assert GoodTick(p[0]) && GoodTick(p[|p| - 1]) && GoodTick(p[i]);
    SortedAt(TickKey(), p, 0, i);
    SortedAt(TickKey(), p, i, |p| - 1);
  }

  /** The j-th seek has the smallest key. */
  ghost predicate Smallest(pages: seq<Page>, sks: seq<Seek>, j: nat) {
    j < |sks| && forall k {:trigger sks[k]} :: 0 <= k < |sks| && SeekIn(pages, sks[j]) && SeekIn(pages, sks[k]) ==>
      TickKey()(pages[sks[j].pg][sks[j].si]) <= TickKey()(pages[sks[k].pg][sks[k].si])
  }

  /** A seek has given a tick: the positions after that, and what is out then. */
  function After(pos: seq<nat>, s: Seek): (pos': seq<nat>)
    requires s.pg < |pos|
    ensures |pos'| == |pos|
  {
    pos[s.pg := s.si + 1]
  }

  function Grown(pages: seq<Page>, out: seq<Tick>, s: Seek): seq<Tick>
    requires SeekIn(pages, s)
  {
    out + [pages[s.pg][s.si]]
  }

  predicate SeekIn(pages: seq<Page>, s: Seek) { s.pg < |pages| && s.si < |pages[s.pg]| }

  /** Taking the smallest tick. */
  lemma TakeSmallest(pages: seq<Page>, sks: seq<Seek>, pgbs: seq<bool>, pos: seq<nat>, out: seq<Tick>, j: nat)
    requires PagesOk(pages) && Tracks(pages, sks, pgbs, pos) && Emitted(pages, pgbs, pos, out)
    requires Smallest(pages, sks, j)
    ensures SeekOk(pages, pgbs, pos, sks[j])
    ensures Emitted(pages, pgbs, After(pos, sks[j]), Grown(pages, out, sks[j]))
  {
    var p, i := sks[j].pg, sks[j].si;
    assert SeekOk(pages, pgbs, pos, sks[j]) && InTurn(pages, pgbs, pos, out, p);
    AppendSorted(out, pages[p][i]);
    AllInTurnAfter(pages, sks, pgbs, pos, out, j);
  }

  lemma TakenOneMore(pages: seq<Page>, pos: seq<nat>, out: seq<Tick>, s: Seek)
    requires TakenIs(pages, pos, out) && s.pg < |pages| && s.si == pos[s.pg] < |pages[s.pg]|
    ensures TakenIs(pages, After(pos, s), Grown(pages, out, s))
  {
    TakenMore(pages, pos, s.pg, |pages|);
  }

  lemma AllInTurnAfter(pages: seq<Page>, sks: seq<Seek>, pgbs: seq<bool>, pos: seq<nat>, out: seq<Tick>, j: nat)
    requires PagesOk(pages) && Tracks(pages, sks, pgbs, pos) && Smallest(pages, sks, j)
    requires AllInTurn(pages, pgbs, pos, out)
    requires SeekOk(pages, pgbs, pos, sks[j])
    ensures AllInTurn(pages, pgbs, After(pos, sks[j]), Grown(pages, out, sks[j]))
  {
    var p, i := sks[j].pg, sks[j].si;
    var pos', out' := pos[p := i + 1], out + [pages[p][i]];
    assert InTurn(pages, pgbs, pos, out, p);
    forall q: nat {:trigger InTurn(pages, pgbs, pos', out', q)} | q < |pages|
      ensures InTurn(pages, pgbs, pos', out', q)
    {
      assert pos'[q] <= |pages[q]|;
      assert InTurn(pages, pgbs, pos, out, q);
      InTurnAfter(pages, sks, pgbs, pos, out, j, q);
    }
  }

  lemma InTurnAfter(pages: seq<Page>, sks: seq<Seek>, pgbs: seq<bool>, pos: seq<nat>, out: seq<Tick>, j: nat, q: nat)
    requires PagesOk(pages) && Tracks(pages, sks, pgbs, pos) && Smallest(pages, sks, j) && q < |pages|
    requires pos[q] <= |pages[q]| && InTurn(pages, pgbs, pos, out, q)
    requires SeekOk(pages, pgbs, pos, sks[j]) && (out != [] ==> LastOf(out) <= TickKey()(pages[sks[j].pg][sks[j].si]))
    ensures var pos' := After(pos, sks[j]);
            pos'[q] <= |pages[q]| && InTurn(pages, pgbs, pos', Grown(pages, out, sks[j]), q)
  {
    var p, i := sks[j].pg, sks[j].si;
    if q == p {
      assert PageOk(pages[p]);
      if i + 1 < |pages[p]| {
        SortedAt(TickKey(), pages[p], i, i + 1);
      }
    } else if pgbs[q] && pos[q] < |pages[q]| {
      assert PosOk(pages, sks, pgbs, pos, q);
      var k :| 0 <= k < |sks| && sks[k].pg == q;
      assert SeekOk(pages, pgbs, pos, sks[k]);
    }
  }

  lemma AppendSorted(out: seq<Tick>, t: Tick)
    requires Sorted(TickKey(), out) && (out != [] ==> LastOf(out) <= TickKey()(t))
    ensures Sorted(TickKey(), out + [t])
  {
    forall i, j | 0 <= i <= j < |out + [t]| ensures TickKey()((out + [t])[i]) <= TickKey()((out + [t])[j]) {
      if i < |out| {
        SortedAt(TickKey(), out, i, if j < |out| then j else |out| - 1);
      }
    }
    SortedFrom(TickKey(), out + [t]);
  }

  // ---------------------------------------------------------------- one step of a seek

  function Without(sks: seq<Seek>, j: nat): seq<Seek>
    requires j < |sks|
  {
    sks[..j] + sks[j + 1..]
  }

  /** The seeks after the j-th has given a tick: it moves on, or goes if that was its last one. */
  function Stepped(pages: seq<Page>, sks: seq<Seek>, j: nat): seq<Seek>
    requires j < |sks| && sks[j].pg < |pages|
  {
    var s := sks[j];
    if s.si + 1 < |pages[s.pg]| then sks[j := Seek(s.pg, s.si + 1)] else Without(sks, j)
  }

  lemma SteppedAt(pages: seq<Page>, sks: seq<Seek>, j: nat, i: nat)
    requires j < |sks| && sks[j].pg < |pages| && i < |Stepped(pages, sks, j)|
    ensures var t, more := Stepped(pages, sks, j), sks[j].si + 1 < |pages[sks[j].pg]|;
            var k := if more || i < j then i else i + 1;
            k < |sks| && t[i] == (if k == j then Seek(sks[j].pg, sks[j].si + 1) else sks[k]) && (k == j ==> more)
  {
  }

  lemma StepTracks(pages: seq<Page>, sks: seq<Seek>, pgbs: seq<bool>, pos: seq<nat>, j: nat)
    requires Tracks(pages, sks, pgbs, pos) && j < |sks|
    ensures SeekOk(pages, pgbs, pos, sks[j])
    ensures Tracks(pages, Stepped(pages, sks, j), pgbs, After(pos, sks[j]))
  {
    var p := sks[j].pg;
    assert SeekOk(pages, pgbs, pos, sks[j]);
    var t, pos' := Stepped(pages, sks, j), After(pos, sks[j]);
    forall i {:trigger t[i]} | 0 <= i < |t| ensures SeekOk(pages, pgbs, pos', t[i]) {
      SteppedAt(pages, sks, j, i);
      var k := if sks[j].si + 1 < |pages[p]| || i < j then i else i + 1;
      assert SeekOk(pages, pgbs, pos, sks[k]) && PagesDiffer(sks, k, j) && PagesDiffer(sks, j, k);
    }
    forall a, b {:trigger PagesDiffer(t, a, b)} ensures PagesDiffer(t, a, b) {
      if 0 <= a < b < |t| {
        SteppedAt(pages, sks, j, a);
        SteppedAt(pages, sks, j, b);
        var more := sks[j].si + 1 < |pages[p]|;
        assert PagesDiffer(sks, if more || a < j then a else a + 1, if more || b < j then b else b + 1);
      }
    }
    forall q: nat {:trigger PosOk(pages, t, pgbs, pos', q)} | q < |pages| ensures PosOk(pages, t, pgbs, pos', q) {
      assert PosOk(pages, sks, pgbs, pos, q);
      if pgbs[q] && pos'[q] < |pages[q]| {
        var k :| 0 <= k < |sks| && sks[k].pg == q;
        var i := if sks[j].si + 1 < |pages[p]| || k < j then k else k - 1;
        assert t[i].pg == q;
      }
    }
  }

  // ---------------------------------------------------------------- loading the pages of a node

  /** One more page. */
  lemma LoadOne(pages: seq<Page>, sks: seq<Seek>, pgbs: seq<bool>, pos: seq<nat>, q: nat)
    requires PagesOk(pages) && Tracks(pages, sks, pgbs, pos) && q < |pages| && !pgbs[q]
    ensures Tracks(pages, sks + [Seek(q, 0)], pgbs[q := true], pos)
  {
    var t, b := sks + [Seek(q, 0)], pgbs[q := true];
    assert PosOk(pages, sks, pgbs, pos, q) && PageOk(pages[q]);
    forall i {:trigger t[i]} | 0 <= i < |t| ensures SeekOk(pages, b, pos, t[i]) {
      if i < |sks| {
        assert t[i] == sks[i] && SeekOk(pages, pgbs, pos, sks[i]);
      }
    }
    forall i, j {:trigger PagesDiffer(t, i, j)} ensures PagesDiffer(t, i, j) {
      assert PagesDiffer(sks, i, j);
      if 0 <= i < j == |sks| {
        assert SeekOk(pages, pgbs, pos, sks[i]);
      }
    }
    forall k: nat {:trigger PosOk(pages, t, b, pos, k)} | k < |pages| ensures PosOk(pages, t, b, pos, k) {
      assert PosOk(pages, sks, pgbs, pos, k);
      if k == q {
        assert t[|sks|].pg == q;
      } else if b[k] && pos[k] < |pages[k]| {
        var i :| 0 <= i < |sks| && sks[i].pg == k;
        assert t[i].pg == k;
      }
    }
  }

  /** Seeks on different pages of a list are no more than the list is long. */
  lemma {:induction false} SeeksFit(sks: seq<Seek>, pgs: seq<nat>)
    requires (forall j {:trigger sks[j]} :: 0 <= j < |sks| ==> sks[j].pg in pgs)
    requires forall i, j {:trigger PagesDiffer(sks, i, j)} :: PagesDiffer(sks, i, j)
    ensures |sks| <= |pgs|
    decreases |sks|
  {
    if sks != [] {
      var last := sks[|sks| - 1];
      var k :| 0 <= k < |pgs| && pgs[k] == last.pg;
      var rest, pgs' := sks[..|sks| - 1], pgs[..k] + pgs[k + 1..];
      forall j {:trigger rest[j]} | 0 <= j < |rest| ensures rest[j].pg in pgs' {
        assert rest[j] == sks[j] && PagesDiffer(sks, j, |sks| - 1);
        var m :| 0 <= m < |pgs| && pgs[m] == sks[j].pg;
        assert pgs'[if m < k then m else m - 1] == sks[j].pg;
      }
      forall i, j {:trigger PagesDiffer(rest, i, j)} ensures PagesDiffer(rest, i, j) { assert PagesDiffer(sks, i, j); }
      SeeksFit(rest, pgs');
    }
  }

  /** load_run: the pages of a node that have not been loaded before. */
  method LoadRun(pages: seq<Page>, nd: Node, sks: seq<Seek>, pgbs: seq<bool>, nmaxpg: nat, ghost pos: seq<nat>)
    returns (sks': seq<Seek>, pgbs': seq<bool>)
    requires PagesOk(pages) && Tracks(pages, sks, pgbs, pos) && |nd.pgs| <= nmaxpg
    requires forall q: nat {:trigger q in nd.pgs} :: q in nd.pgs ==> q < |pages|
    requires forall j {:trigger sks[j]} :: 0 <= j < |sks| ==> sks[j].pg in nd.pgs
    ensures Tracks(pages, sks', pgbs', pos) && |sks'| <= nmaxpg
    ensures forall j {:trigger sks'[j]} :: 0 <= j < |sks'| ==> sks'[j].pg in nd.pgs
    ensures forall q: nat {:trigger pgbs'[q]} :: q < |pages| ==> (pgbs'[q] <==> pgbs[q] || q in nd.pgs)
  {
    sks', pgbs' := sks, pgbs;
    for i := 0 to |nd.pgs|
      invariant Tracks(pages, sks', pgbs', pos)
      invariant forall j {:trigger sks'[j]} :: 0 <= j < |sks'| ==> sks'[j].pg in nd.pgs
      invariant forall q: nat {:trigger pgbs'[q]} :: q < |pages| ==> (pgbs'[q] <==> pgbs[q] || q in nd.pgs[..i])
    {
      var pg := nd.pgs[i];
      assert pg in nd.pgs && nd.pgs[..i + 1] == nd.pgs[..i] + [pg];
      if !pgbs'[pg] {
        LoadOne(pages, sks', pgbs', pos, pg);
        SeeksFit(sks' + [Seek(pg, 0)], nd.pgs);
        // the space for nmaxpg seeks is never exceeded
        assert |sks'| < nmaxpg;
        sks' := sks' + [Seek(pg, 0)];
        pgbs' := pgbs'[pg := true];
      }
    }
    SeeksFit(sks', nd.pgs);
    assert nd.pgs[..|nd.pgs|] == nd.pgs;
  }

  // ---------------------------------------------------------------- moving along the strategy

  /** The state at node c: what has been loaded, and that the pages of later nodes are not done. */
  ghost predicate Going(pages: seq<Page>, strat: seq<Node>, c: nat, sks: seq<Seek>, pgbs: seq<bool>, pos: seq<nat>,
                        out: seq<Tick>) {
    && PagesOk(pages) && Usable(strat, Ranges(pages)) && c < |strat|
    && Tracks(pages, sks, pgbs, pos) && TakenIs(pages, pos, out)
    && (forall q: nat {:trigger Reached(strat, c, q)} :: q < |pages| ==> (pgbs[q] <==> Reached(strat, c, q)))
    && (forall j {:trigger sks[j]} :: 0 <= j < |sks| ==> sks[j].pg in strat[c].pgs)
    && Ahead(pages, strat, c, sks, pos)
  }

  /** The merge will get to the later nodes. */
  ghost predicate Ahead(pages: seq<Page>, strat: seq<Node>, c: nat, sks: seq<Seek>, pos: seq<nat>)
    requires PagesOk(pages) && |pos| == |pages|
  {
    && (forall i: nat {:trigger Undone(pages, pos, strat[i].pg)} :: c < i < |strat| ==> Undone(pages, pos, strat[i].pg))
    && (c + 1 < |strat| ==> sks != [] && strat[c].pg < |pages| && LongOnesStay(pages, strat, c, pos))
  }

  predicate Undone(pages: seq<Page>, pos: seq<nat>, q: nat)
    requires |pos| == |pages|
  {
    q < |pages| && pos[q] < |pages[q]|
  }

  /** Pages of this node and the next that end no earlier than the page of this one are not done. */
  ghost predicate LongOnesStay(pages: seq<Page>, strat: seq<Node>, c: nat, pos: seq<nat>)
    requires PagesOk(pages) && |pos| == |pages| && c + 1 < |strat| && strat[c].pg < |pages|
  {
    var r := Ranges(pages);
    forall u: nat {:trigger Undone(pages, pos, u)} ::
      (u < |r| && u in strat[c].pgs && u in strat[c + 1].pgs && r[strat[c].pg].hi <= r[u].hi) ==> Undone(pages, pos, u)
  }

  /** The whole state. All is in order unless a page is loaded too late, and once one is that shows. */
  ghost predicate MidMerge(pages: seq<Page>, strat: seq<Node>, c: nat, sks: seq<Seek>, pgbs: seq<bool>, pos: seq<nat>,
                           out: seq<Tick>) {
    && Going(pages, strat, c, sks, pgbs, pos, out)
    && OrderSide(pages, strat, c, pgbs, pos, out)
  }

  ghost predicate OrderSide(pages: seq<Page>, strat: seq<Node>, c: nat, pgbs: seq<bool>, pos: seq<nat>,
                            out: seq<Tick>) {
    && PagesOk(pages) && |pgbs| == |pos| == |pages|
    && (!OvertakenIn(strat, Ranges(pages)) ==> Emitted(pages, pgbs, pos, out))
    && (OvertakenBefore(strat, Ranges(pages), c) ==> Spoilt(pages, pgbs, pos, out))
  }

  ghost predicate OvertakenBefore(strat: seq<Node>, r: seq<Range>, c: nat) {
    exists d: nat :: d < c && OvertakenAt(strat, r, d)
  }

  /** The first tick of page q is still to come and belongs before the i-th one. */
  ghost predicate Missed(pages: seq<Page>, pgbs: seq<bool>, pos: seq<nat>, out: seq<Tick>, q: nat, i: nat)
    requires |pgbs| == |pos| == |pages|
  {
    q < |pages| && pgbs[q] && pos[q] == 0 && pages[q] != [] && i < |out| && TickKey()(pages[q][0]) < TickKey()(out[i])
  }

  ghost predicate Spoilt(pages: seq<Page>, pgbs: seq<bool>, pos: seq<nat>, out: seq<Tick>)
    requires |pgbs| == |pos| == |pages|
  {
    !Sorted(TickKey(), out) || exists q: nat, i: nat :: Missed(pages, pgbs, pos, out, q, i)
  }

  /** What is spoilt stays so. */
  lemma SpoiltStays(pages: seq<Page>, pgbs: seq<bool>, pgbs': seq<bool>, pos: seq<nat>, out: seq<Tick>, s: Seek)
    requires |pgbs| == |pgbs'| == |pos| == |pages| && s.pg < |pages| && s.si == pos[s.pg] < |pages[s.pg]|
    requires Spoilt(pages, pgbs, pos, out) && forall q: nat {:trigger pgbs'[q]} :: q < |pages| && pgbs[q] ==> pgbs'[q]
    ensures Spoilt(pages, pgbs', After(pos, s), Grown(pages, out, s))
  {
    var pos', out' := After(pos, s), Grown(pages, out, s);
    if Sorted(TickKey(), out') {
      SortedPrefix(out, pages[s.pg][s.si]);
      var q: nat, i: nat :| Missed(pages, pgbs, pos, out, q, i);
      if q == s.pg {
        SortedAt(TickKey(), out', i, |out|);
      }
      assert Missed(pages, pgbs', pos', out', q, i);
    }
  }

  lemma SortedPrefix(out: seq<Tick>, t: Tick)
    requires Sorted(TickKey(), out + [t])
    ensures Sorted(TickKey(), out)
  {
    forall i, j | 0 <= i <= j < |out| ensures TickKey()(out[i]) <= TickKey()(out[j]) {
      SortedAt(TickKey(), out + [t], i, j);
    }
    SortedFrom(TickKey(), out);
  }

  /** A page of the current node that is not done has a seek. */
  lemma SeekOf(pages: seq<Page>, strat: seq<Node>, c: nat, sks: seq<Seek>, pgbs: seq<bool>, pos: seq<nat>,
               out: seq<Tick>, q: nat)
    returns (k: nat)
    requires Going(pages, strat, c, sks, pgbs, pos, out) && q in strat[c].pgs && Undone(pages, pos, q)
    ensures k < |sks| && sks[k].pg == q && SeekOk(pages, pgbs, pos, sks[k])
  {
    assert Reached(strat, c, q) && PosOk(pages, sks, pgbs, pos, q);
    k :| 0 <= k < |sks| && sks[k].pg == q;
    assert SeekOk(pages, pgbs, pos, sks[k]);
  }

  /** The page that is done first is none of a later node. */
  lemma TopsLast(pages: seq<Page>, strat: seq<Node>, c: nat, sks: seq<Seek>, pgbs: seq<bool>, pos: seq<nat>,
                 out: seq<Tick>, j: nat, i: nat)
    requires Going(pages, strat, c, sks, pgbs, pos, out) && Smallest(pages, sks, j) && SeekOk(pages, pgbs, pos, sks[j])
    requires c < i < |strat| && sks[j].si + 1 == |pages[sks[j].pg]|
    ensures sks[j].pg != strat[i].pg
  {
    var r, p, n := Ranges(pages), strat[c].pg, strat[i].pg;
    NodeOrder(strat, r, c, i);
    NodeOrder(strat, r, c, c + 1);
    NodeOrder(strat, r, c + 1, i);
    if sks[j].pg == n {
      assert Meet(r[n], r[p]) && Meet(r[p], r[strat[c + 1].pg]) && Meet(r[p], r[p]);
      assert p in strat[c + 1].pgs && p in strat[c].pgs;
      assert Undone(pages, pos, p);
      var k := SeekOf(pages, strat, c, sks, pgbs, pos, out, p);
      KeyInRange(pages, p, sks[k].si);
      KeyInRange(pages, n, sks[j].si);
      assert false;
    }
  }

  /** So the pages of later nodes stay undone. */
  lemma TopsStay(pages: seq<Page>, strat: seq<Node>, c: nat, sks: seq<Seek>, pgbs: seq<bool>, pos: seq<nat>,
                 out: seq<Tick>, j: nat)
    requires Going(pages, strat, c, sks, pgbs, pos, out) && Smallest(pages, sks, j) && SeekOk(pages, pgbs, pos, sks[j])
    ensures var pos' := After(pos, sks[j]);
            forall i: nat {:trigger Undone(pages, pos', strat[i].pg)} :: c < i < |strat| ==>
                  Undone(pages, pos', strat[i].pg)
  {
    var pos' := After(pos, sks[j]);
    forall i: nat {:trigger Undone(pages, pos', strat[i].pg)} | c < i < |strat|
      ensures Undone(pages, pos', strat[i].pg)
    {
      assert Undone(pages, pos, strat[i].pg);
      if sks[j].si + 1 == |pages[sks[j].pg]| {
        TopsLast(pages, strat, c, sks, pgbs, pos, out, j, i);
      }
    }
  }

  /** A step that does not advance to the next node. */
  lemma GoingStays(pages: seq<Page>, strat: seq<Node>, c: nat, sks: seq<Seek>, pgbs: seq<bool>, pos: seq<nat>,
                   out: seq<Tick>, j: nat)
    requires Going(pages, strat, c, sks, pgbs, pos, out) && Smallest(pages, sks, j) && SeekOk(pages, pgbs, pos, sks[j])
    requires c + 1 < |strat| && sks[j].si + 1 == |pages[sks[j].pg]| ==>
              Without(sks, j) != [] && sks[j].pg !in strat[c + 1].pgs
    ensures Going(pages, strat, c, Stepped(pages, sks, j), pgbs, After(pos, sks[j]), Grown(pages, out, sks[j]))
  {
    var q := sks[j].pg;
    var t := Stepped(pages, sks, j);
    StepTracks(pages, sks, pgbs, pos, j);
    TakenOneMore(pages, pos, out, sks[j]);
    StepPages(pages, sks, j, strat[c].pgs);
    AheadStays(pages, strat, c, sks, pgbs, pos, out, j);
  }

  lemma AheadStays(pages: seq<Page>, strat: seq<Node>, c: nat, sks: seq<Seek>, pgbs: seq<bool>, pos: seq<nat>,
                   out: seq<Tick>, j: nat)
    requires Going(pages, strat, c, sks, pgbs, pos, out) && Smallest(pages, sks, j) && SeekOk(pages, pgbs, pos, sks[j])
    requires c + 1 < |strat| && sks[j].si + 1 == |pages[sks[j].pg]| ==>
              Without(sks, j) != [] && sks[j].pg !in strat[c + 1].pgs
    ensures Ahead(pages, strat, c, Stepped(pages, sks, j), After(pos, sks[j]))
  {
    TopsStay(pages, strat, c, sks, pgbs, pos, out, j);
    if c + 1 < |strat| {
      LongOnesStep(pages, strat, c, sks, pgbs, pos, out, j);
    }
  }

  lemma LongOnesStep(pages: seq<Page>, strat: seq<Node>, c: nat, sks: seq<Seek>, pgbs: seq<bool>, pos: seq<nat>,
                     out: seq<Tick>, j: nat)
    requires Going(pages, strat, c, sks, pgbs, pos, out) && j < |sks| && SeekOk(pages, pgbs, pos, sks[j])
    requires c + 1 < |strat|
    requires sks[j].si + 1 == |pages[sks[j].pg]| ==> sks[j].pg !in strat[c + 1].pgs
    ensures LongOnesStay(pages, strat, c, After(pos, sks[j]))
  {
    var pos' := After(pos, sks[j]);
    forall u: nat {:trigger Undone(pages, pos', u)} | u < |pages| && u in strat[c].pgs && u in strat[c + 1].pgs
      && Ranges(pages)[strat[c].pg].hi <= Ranges(pages)[u].hi ensures Undone(pages, pos', u) {
      assert Undone(pages, pos, u);
    }
  }

  lemma StepPages(pages: seq<Page>, sks: seq<Seek>, j: nat, pgs: seq<nat>)
    requires j < |sks| && sks[j].pg < |pages| && forall i {:trigger sks[i]} :: 0 <= i < |sks| ==> sks[i].pg in pgs
    ensures forall i {:trigger Stepped(pages, sks, j)[i]} ::
              0 <= i < |Stepped(pages, sks, j)| ==> Stepped(pages, sks, j)[i].pg in pgs
  {
    var t := Stepped(pages, sks, j);
    forall i {:trigger t[i]} | 0 <= i < |t| ensures t[i].pg in pgs {
      SteppedAt(pages, sks, j, i);
    }
  }

  /** The state once the pages of the next node are loaded. */
  lemma GoingOn(pages: seq<Page>, strat: seq<Node>, c: nat, sks: seq<Seek>, pgbs: seq<bool>, pos: seq<nat>,
                out: seq<Tick>, j: nat,
                sks': seq<Seek>, pgbs': seq<bool>)
    requires Going(pages, strat, c, sks, pgbs, pos, out) && Smallest(pages, sks, j)
    requires SeekOk(pages, pgbs, pos, sks[j]) && c + 1 < |strat|
    requires Tracks(pages, sks', pgbs', After(pos, sks[j]))
    requires forall i {:trigger sks'[i]} :: 0 <= i < |sks'| ==> sks'[i].pg in strat[c + 1].pgs
    requires forall q: nat {:trigger pgbs'[q]} :: q < |pages| ==> (pgbs'[q] <==> pgbs[q] || q in strat[c + 1].pgs)
    ensures Going(pages, strat, c + 1, sks', pgbs', After(pos, sks[j]), Grown(pages, out, sks[j]))
  {
    TakenOneMore(pages, pos, out, sks[j]);
    forall q: nat {:trigger Reached(strat, c + 1, q)} | q < |pages| ensures pgbs'[q] <==> Reached(strat, c + 1, q) {
      ReachedNext(strat, c, q);
      assert pgbs[q] <==> Reached(strat, c, q);
    }
    AheadNext(pages, strat, c, sks, pgbs, pos, out, j, sks', pgbs');
  }

  lemma AheadNext(pages: seq<Page>, strat: seq<Node>, c: nat, sks: seq<Seek>, pgbs: seq<bool>, pos: seq<nat>,
                  out: seq<Tick>, j: nat,
                  sks': seq<Seek>, pgbs': seq<bool>)
    requires Going(pages, strat, c, sks, pgbs, pos, out) && Smallest(pages, sks, j)
    requires SeekOk(pages, pgbs, pos, sks[j]) && c + 1 < |strat|
    requires Tracks(pages, sks', pgbs', After(pos, sks[j]))
    requires forall q: nat {:trigger pgbs'[q]} :: q < |pages| ==> (pgbs'[q] <==> pgbs[q] || q in strat[c + 1].pgs)
    ensures Ahead(pages, strat, c + 1, sks', After(pos, sks[j]))
  {
    var n, pos' := strat[c + 1].pg, After(pos, sks[j]);
    TopsStay(pages, strat, c, sks, pgbs, pos, out, j);
    assert Undone(pages, pos', n);
    NodeOrder(strat, Ranges(pages), c, c + 1);
    assert n in strat[c + 1].pgs && pgbs'[n] && PosOk(pages, sks', pgbs', pos', n);
    if c + 2 < |strat| {
      forall u: nat {:trigger Undone(pages, pos', u)} | u < |pages| && u in strat[c + 1].pgs && u in strat[c + 2].pgs
        && Ranges(pages)[n].hi <= Ranges(pages)[u].hi ensures Undone(pages, pos', u) {
        LongOneNext(pages, strat, c, sks, pgbs, pos, out, j, u);
      }
    }
  }

  /** A page of the next two nodes that ends no earlier than the next one's page is not done. */
  lemma LongOneNext(pages: seq<Page>, strat: seq<Node>, c: nat, sks: seq<Seek>, pgbs: seq<bool>, pos: seq<nat>,
                    out: seq<Tick>, j: nat, u: nat)
    requires Going(pages, strat, c, sks, pgbs, pos, out) && Smallest(pages, sks, j)
    requires SeekOk(pages, pgbs, pos, sks[j]) && c + 1 < |strat|
    requires u < |pages| && strat[c + 1].pg < |pages| && u in strat[c + 1].pgs
    requires Ranges(pages)[strat[c + 1].pg].hi <= Ranges(pages)[u].hi
    ensures Undone(pages, After(pos, sks[j]), u)
  {
    var r := Ranges(pages);
    NodeOrder(strat, r, c, c + 1);
    assert PosOk(pages, sks, pgbs, pos, u) && PageOk(pages[u]);
    if Reached(strat, c, u) {
      ReachedMeets(strat, r, c, u);
      assert Undone(pages, pos, u);
      if u == sks[j].pg && sks[j].si + 1 == |pages[u]| {
        LongOneFirst(pages, strat, c, sks, pgbs, pos, out, j, u);
      }
    }
  }

  /** A page of an earlier node that meets the next one meets this one, too. */
  lemma ReachedMeets(strat: seq<Node>, r: seq<Range>, c: nat, u: nat)
    requires TopNodes(strat, r) && c + 1 < |strat| && u < |r| && Reached(strat, c, u) && u in strat[c + 1].pgs
    ensures u in strat[c].pgs
  {
    var k :| 0 <= k <= c && u in strat[k].pgs;
    NodeOrder(strat, r, k, c);
    NodeOrder(strat, r, c, c + 1);
    assert Meet(r[u], r[strat[k].pg]) && Meet(r[u], r[strat[c + 1].pg]) && Meet(r[u], r[strat[c].pg]);
  }

  /** It cannot be the one done first. */
  lemma LongOneFirst(pages: seq<Page>, strat: seq<Node>, c: nat, sks: seq<Seek>, pgbs: seq<bool>, pos: seq<nat>,
                     out: seq<Tick>, j: nat, u: nat)
    requires Going(pages, strat, c, sks, pgbs, pos, out) && Smallest(pages, sks, j)
    requires SeekOk(pages, pgbs, pos, sks[j]) && c + 1 < |strat|
    requires u == sks[j].pg && sks[j].si + 1 == |pages[u]| && strat[c + 1].pg < |pages|
    ensures Ranges(pages)[u].hi < Ranges(pages)[strat[c + 1].pg].hi
  {
    var r, p, n := Ranges(pages), strat[c].pg, strat[c + 1].pg;
    NodeOrder(strat, r, c, c + 1);
    KeyInRange(pages, u, sks[j].si);
    assert u in strat[c].pgs && Meet(r[u], r[p]) && Meet(r[p], r[p]) && p in strat[c].pgs;
    if r[n].hi <= r[u].hi {
      if Undone(pages, pos, p) {
        var k := SeekOf(pages, strat, c, sks, pgbs, pos, out, p);
        KeyInRange(pages, p, sks[k].si);
      } else {
        assert p !in strat[c + 1].pgs && !Meet(r[p], r[n]);
        assert Within(r[n], r[u]);
      }
      assert false;
    }
  }

  /** The tick that ends a page comes before all of the next node, unless the page overtakes. */
  lemma NewBehind(pages: seq<Page>, strat: seq<Node>, c: nat, sks: seq<Seek>, pgbs: seq<bool>, pos: seq<nat>,
                  out: seq<Tick>, j: nat, q: nat)
    requires Going(pages, strat, c, sks, pgbs, pos, out) && Smallest(pages, sks, j)
    requires SeekOk(pages, pgbs, pos, sks[j]) && c + 1 < |strat|
    requires sks[j].si + 1 == |pages[sks[j].pg]| && q < |pages| && q in strat[c + 1].pgs && !Reached(strat, c, q)
    requires !OvertakenAt(strat, Ranges(pages), c)
    ensures Ranges(pages)[sks[j].pg].hi <= Ranges(pages)[q].lo
  {
    var r, p, n, u := Ranges(pages), strat[c].pg, strat[c + 1].pg, sks[j].pg;
    NodeOrder(strat, r, c, c + 1);
    KeyInRange(pages, u, sks[j].si);
    assert u in strat[c].pgs && Meet(r[u], r[p]) && q !in strat[c].pgs && !Meet(r[q], r[p]) && Meet(r[q], r[n]);
    if r[q].lo < r[u].hi {
      assert Meet(r[p], r[p]) && p in strat[c].pgs;
      if Undone(pages, pos, p) {
        var k := SeekOf(pages, strat, c, sks, pgbs, pos, out, p);
        KeyInRange(pages, p, sks[k].si);
        assert false;
      }
      assert p !in strat[c + 1].pgs && !Meet(r[p], r[n]);
      forall v: nat {:trigger r[v]} | v < |r| && r[v].lo <= r[p].hi && r[n].lo <= r[v].hi ensures r[u].hi <= r[v].hi {
        FirstToReach(pages, strat, c, sks, pgbs, pos, out, j, v);
      }
      assert Overtakes(r, p, n, u, q);
    }
  }

  /** Of the pages that reach the next node from this one the one that ends first is done first. */
  lemma FirstToReach(pages: seq<Page>, strat: seq<Node>, c: nat, sks: seq<Seek>, pgbs: seq<bool>, pos: seq<nat>,
                     out: seq<Tick>, j: nat, v: nat)
    requires Going(pages, strat, c, sks, pgbs, pos, out) && Smallest(pages, sks, j)
    requires SeekOk(pages, pgbs, pos, sks[j]) && c + 1 < |strat|
    requires sks[j].si + 1 == |pages[sks[j].pg]| && v < |pages| && strat[c + 1].pg < |pages|
    requires var r := Ranges(pages); r[v].lo <= r[strat[c].pg].hi < r[strat[c + 1].pg].lo <= r[v].hi
    ensures Ranges(pages)[sks[j].pg].hi <= Ranges(pages)[v].hi
  {
    var r := Ranges(pages);
    NodeOrder(strat, r, c, c + 1);
    assert Meet(r[v], r[strat[c].pg]) && Meet(r[v], r[strat[c + 1].pg]);
    assert v in strat[c].pgs && v in strat[c + 1].pgs && Undone(pages, pos, v);
    var k := SeekOf(pages, strat, c, sks, pgbs, pos, out, v);
    KeyInRange(pages, v, sks[k].si);
    KeyInRange(pages, sks[j].pg, sks[j].si);
  }

  /** If a page of the next node is overtaken the tick that overtakes it is out by then. */
  lemma Spoils(pages: seq<Page>, strat: seq<Node>, c: nat, sks: seq<Seek>, pgbs: seq<bool>, pos: seq<nat>,
               out: seq<Tick>, j: nat,
               pgbs': seq<bool>)
    requires Going(pages, strat, c, sks, pgbs, pos, out) && j < |sks| && SeekOk(pages, pgbs, pos, sks[j])
    requires OvertakenAt(strat, Ranges(pages), c)
    requires sks[j].si + 1 == |pages[sks[j].pg]| && (Without(sks, j) == [] || sks[j].pg in strat[c + 1].pgs)
    requires |pgbs'| == |pages|
    requires forall q: nat {:trigger pgbs'[q]} :: q < |pages| ==> (pgbs'[q] <==> pgbs[q] || q in strat[c + 1].pgs)
    ensures Spoilt(pages, pgbs', After(pos, sks[j]), Grown(pages, out, sks[j]))
  {
    var r, p, n, w := Ranges(pages), strat[c].pg, strat[c + 1].pg, sks[j].pg;
    var pos', out' := After(pos, sks[j]), Grown(pages, out, sks[j]);
    NodeOrder(strat, r, c, c + 1);
    var u: nat, q: nat :| Overtakes(r, p, n, u, q);
    assert Meet(r[u], r[p]) && u in strat[c].pgs && q in strat[c + 1].pgs;
    NotYetReached(strat, r, c, q);
    assert PosOk(pages, sks, pgbs, pos, q) && PageOk(pages[q]) && pgbs'[q];
    KeyInRange(pages, q, 0);
    var i := Overtaker(pages, strat, c, sks, pgbs, pos, out, j, u, q);
    assert Missed(pages, pgbs', pos', out', q, i);
  }

  /** The tick that overtakes: the last one of the page done now, or of the page u. */
  lemma Overtaker(pages: seq<Page>, strat: seq<Node>, c: nat, sks: seq<Seek>, pgbs: seq<bool>, pos: seq<nat>,
                  out: seq<Tick>, j: nat,
                  u: nat, q: nat) returns (i: nat)
    requires Going(pages, strat, c, sks, pgbs, pos, out) && j < |sks| && SeekOk(pages, pgbs, pos, sks[j])
    requires c + 1 < |strat|
    requires sks[j].si + 1 == |pages[sks[j].pg]| && (Without(sks, j) == [] || sks[j].pg in strat[c + 1].pgs)
    requires Overtakes(Ranges(pages), strat[c].pg, strat[c + 1].pg, u, q)
    ensures i <= |out| && Ranges(pages)[q].lo < TickKey()(Grown(pages, out, sks[j])[i])
  {
    var r, p, n, w := Ranges(pages), strat[c].pg, strat[c + 1].pg, sks[j].pg;
    NodeOrder(strat, r, c, c + 1);
    KeyInRange(pages, w, sks[j].si);
    if w in strat[c + 1].pgs {
      assert w in strat[c].pgs && Meet(r[w], r[p]) && Meet(r[w], r[n]) && r[u].hi <= r[w].hi;
      i := |out|;
    } else if w == u {
      i := |out|;
    } else {
      assert Meet(r[u], r[p]) && u in strat[c].pgs;
      OnlyOneLeft(pages, strat, c, sks, pgbs, pos, out, j, u);
      i := LastIsOut(pages, pos, out, u);
    }
  }

  lemma OnlyOneLeft(pages: seq<Page>, strat: seq<Node>, c: nat, sks: seq<Seek>, pgbs: seq<bool>, pos: seq<nat>,
                    out: seq<Tick>, j: nat, u: nat)
    requires Going(pages, strat, c, sks, pgbs, pos, out) && j < |sks| && Without(sks, j) == []
    requires u < |pages| && u != sks[j].pg && u in strat[c].pgs
    ensures pos[u] == |pages[u]|
  {
    assert PosOk(pages, sks, pgbs, pos, u);
    if Undone(pages, pos, u) {
      var k := SeekOf(pages, strat, c, sks, pgbs, pos, out, u);
      assert false;
    }
  }

  lemma NotYetReached(strat: seq<Node>, r: seq<Range>, c: nat, q: nat)
    requires TopNodes(strat, r) && c + 1 < |strat| && q < |r| && strat[c].pg < |r| && r[strat[c].pg].hi < r[q].lo
    ensures !Reached(strat, c, q)
  {
    if k :| 0 <= k <= c && q in strat[k].pgs {
      NodeOrder(strat, r, k, c);
    }
  }

  /** The last tick of a page that is done is among those out. */
  lemma LastIsOut(pages: seq<Page>, pos: seq<nat>, out: seq<Tick>, u: nat) returns (i: nat)
    requires PagesOk(pages) && TakenIs(pages, pos, out) && u < |pages| && pos[u] == |pages[u]|
    ensures i < |out| && TickKey()(out[i]) == Ranges(pages)[u].hi
  {
    assert PageOk(pages[u]);
    var t := pages[u][|pages[u]| - 1];
    KeyInRange(pages, u, |pages[u]| - 1);
    assert pages[u][..pos[u]][|pages[u]| - 1] == t;
    InTaken(pages, pos, |pages|, u, t);
    i := MemberAt(out, t);
  }

  lemma {:induction false} InTaken(pages: seq<Page>, pos: seq<nat>, n: nat, u: nat, t: Tick)
    requires n <= |pages| == |pos| && u < n && forall k {:trigger pos[k]} :: 0 <= k < n ==> pos[k] <= |pages[k]|
    requires t in pages[u][..pos[u]]
    ensures t in Taken(pages, pos, n)
    decreases n
  {
    if u < n - 1 {
      InTaken(pages, pos, n - 1, u, t);
    }
  }

  lemma StepStays(pages: seq<Page>, strat: seq<Node>, c: nat, sks: seq<Seek>, pgbs: seq<bool>, pos: seq<nat>,
                  out: seq<Tick>, j: nat)
    requires MidMerge(pages, strat, c, sks, pgbs, pos, out) && Smallest(pages, sks, j)
    requires SeekOk(pages, pgbs, pos, sks[j])
    requires c + 1 < |strat| && sks[j].si + 1 == |pages[sks[j].pg]| ==>
              Without(sks, j) != [] && sks[j].pg !in strat[c + 1].pgs
    ensures MidMerge(pages, strat, c, Stepped(pages, sks, j), pgbs, After(pos, sks[j]), Grown(pages, out, sks[j]))
  {
    GoingStays(pages, strat, c, sks, pgbs, pos, out, j);
    OrderStays(pages, strat, c, sks, pgbs, pos, out, j);
  }

  lemma OrderStays(pages: seq<Page>, strat: seq<Node>, c: nat, sks: seq<Seek>, pgbs: seq<bool>, pos: seq<nat>,
                   out: seq<Tick>, j: nat)
    requires OrderSide(pages, strat, c, pgbs, pos, out) && Tracks(pages, sks, pgbs, pos)
    requires Smallest(pages, sks, j) && SeekOk(pages, pgbs, pos, sks[j])
    ensures OrderSide(pages, strat, c, pgbs, After(pos, sks[j]), Grown(pages, out, sks[j]))
  {
    if !OvertakenIn(strat, Ranges(pages)) {
      TakeSmallest(pages, sks, pgbs, pos, out, j);
    }
    if OvertakenBefore(strat, Ranges(pages), c) {
      SpoiltStays(pages, pgbs, pgbs, pos, out, sks[j]);
    }
  }

  /** All loaded pages with ticks left belong to the next node when the merge goes on to it. */
  lemma LeftoversMeet(pages: seq<Page>, strat: seq<Node>, c: nat, sks: seq<Seek>, pgbs: seq<bool>, pos: seq<nat>,
                      out: seq<Tick>, j: nat)
    requires Going(pages, strat, c, sks, pgbs, pos, out) && Smallest(pages, sks, j) && SeekOk(pages, pgbs, pos, sks[j])
    requires c + 1 < |strat| && sks[j].si + 1 == |pages[sks[j].pg]|
    requires (Without(sks, j) == [] || sks[j].pg in strat[c + 1].pgs)
    ensures forall i {:trigger Without(sks, j)[i]} ::
              0 <= i < |Without(sks, j)| ==> Without(sks, j)[i].pg in strat[c + 1].pgs
  {
    var r, t, q := Ranges(pages), Without(sks, j), sks[j].pg;
    forall i {:trigger t[i]} | 0 <= i < |t| ensures t[i].pg in strat[c + 1].pgs {
      var k := if i < j then i else i + 1;
      assert t[i] == sks[k] && SeekOk(pages, pgbs, pos, sks[k]);
      KeyInRange(pages, sks[k].pg, sks[k].si);
      KeyInRange(pages, q, sks[j].si);
      LeftoverMeets(strat, r, c, sks[k].pg, q);
    }
  }

  /** A page of node c that ends no earlier than one of the next node belongs to that, too. */
  lemma LeftoverMeets(strat: seq<Node>, r: seq<Range>, c: nat, u: nat, q: nat)
    requires Usable(strat, r) && c + 1 < |strat| && u < |r| && q < |r|
    requires u in strat[c].pgs && q in strat[c + 1].pgs && r[q].hi <= r[u].hi
    ensures u in strat[c + 1].pgs
  {
    NodeOrder(strat, r, c, c + 1);
    assert Meet(r[u], r[strat[c].pg]) && Meet(r[q], r[strat[c + 1].pg]);
  }

  lemma Advanced(pages: seq<Page>, strat: seq<Node>, c: nat, sks: seq<Seek>, pgbs: seq<bool>, pos: seq<nat>,
                 out: seq<Tick>, j: nat,
                 sks': seq<Seek>, pgbs': seq<bool>)
    requires MidMerge(pages, strat, c, sks, pgbs, pos, out) && Smallest(pages, sks, j)
    requires SeekOk(pages, pgbs, pos, sks[j]) && c + 1 < |strat|
    requires sks[j].si + 1 == |pages[sks[j].pg]| && (Without(sks, j) == [] || sks[j].pg in strat[c + 1].pgs)
    requires Tracks(pages, sks', pgbs', After(pos, sks[j]))
    requires forall i {:trigger sks'[i]} :: 0 <= i < |sks'| ==> sks'[i].pg in strat[c + 1].pgs
    requires forall q: nat {:trigger pgbs'[q]} :: q < |pages| ==> (pgbs'[q] <==> pgbs[q] || q in strat[c + 1].pgs)
    ensures MidMerge(pages, strat, c + 1, sks', pgbs', After(pos, sks[j]), Grown(pages, out, sks[j]))
  {
    GoingOn(pages, strat, c, sks, pgbs, pos, out, j, sks', pgbs');
    OrderAdvances(pages, strat, c, sks, pgbs, pos, out, j, sks', pgbs');
  }

  lemma OrderAdvances(pages: seq<Page>, strat: seq<Node>, c: nat, sks: seq<Seek>, pgbs: seq<bool>, pos: seq<nat>,
                      out: seq<Tick>, j: nat,
                      sks': seq<Seek>, pgbs': seq<bool>)
    requires MidMerge(pages, strat, c, sks, pgbs, pos, out) && Smallest(pages, sks, j)
    requires SeekOk(pages, pgbs, pos, sks[j]) && c + 1 < |strat|
    requires sks[j].si + 1 == |pages[sks[j].pg]| && (Without(sks, j) == [] || sks[j].pg in strat[c + 1].pgs)
    requires Going(pages, strat, c + 1, sks', pgbs', After(pos, sks[j]), Grown(pages, out, sks[j]))
    requires forall q: nat {:trigger pgbs'[q]} :: q < |pages| ==> (pgbs'[q] <==> pgbs[q] || q in strat[c + 1].pgs)
    ensures OrderSide(pages, strat, c + 1, pgbs', After(pos, sks[j]), Grown(pages, out, sks[j]))
  {
    if !OvertakenIn(strat, Ranges(pages)) {
      AdvancedInOrder(pages, strat, c, sks, pgbs, pos, out, j, pgbs');
    }
    if OvertakenBefore(strat, Ranges(pages), c + 1) {
      BeforeNext(strat, Ranges(pages), c);
      SpoiltAdvances(pages, strat, c, sks, pgbs, pos, out, j, pgbs');
    }
  }

  lemma BeforeNext(strat: seq<Node>, r: seq<Range>, c: nat)
    requires OvertakenBefore(strat, r, c + 1)
    ensures OvertakenAt(strat, r, c) || OvertakenBefore(strat, r, c)
  {
  }

  lemma SpoiltAdvances(pages: seq<Page>, strat: seq<Node>, c: nat, sks: seq<Seek>, pgbs: seq<bool>, pos: seq<nat>,
                       out: seq<Tick>, j: nat,
                       pgbs': seq<bool>)
    requires Going(pages, strat, c, sks, pgbs, pos, out) && Smallest(pages, sks, j)
    requires SeekOk(pages, pgbs, pos, sks[j]) && c + 1 < |strat|
    requires sks[j].si + 1 == |pages[sks[j].pg]| && (Without(sks, j) == [] || sks[j].pg in strat[c + 1].pgs)
    requires |pgbs'| == |pages|
    requires forall q: nat {:trigger pgbs'[q]} :: q < |pages| ==> (pgbs'[q] <==> pgbs[q] || q in strat[c + 1].pgs)
    requires OvertakenAt(strat, Ranges(pages), c) || Spoilt(pages, pgbs, pos, out)
    ensures Spoilt(pages, pgbs', After(pos, sks[j]), Grown(pages, out, sks[j]))
  {
    if OvertakenAt(strat, Ranges(pages), c) {
      Spoils(pages, strat, c, sks, pgbs, pos, out, j, pgbs');
    } else {
      SpoiltStays(pages, pgbs, pgbs', pos, out, sks[j]);
    }
  }

  /** Pages loaded in time start behind everything that is out. */
  lemma AdvancedInOrder(pages: seq<Page>, strat: seq<Node>, c: nat, sks: seq<Seek>, pgbs: seq<bool>, pos: seq<nat>,
                        out: seq<Tick>, j: nat,
                        pgbs': seq<bool>)
    requires Going(pages, strat, c, sks, pgbs, pos, out) && Emitted(pages, pgbs, pos, out)
    requires !OvertakenAt(strat, Ranges(pages), c)
    requires Smallest(pages, sks, j) && SeekOk(pages, pgbs, pos, sks[j]) && c + 1 < |strat|
    requires sks[j].si + 1 == |pages[sks[j].pg]| && |pgbs'| == |pages|
    requires forall q: nat {:trigger pgbs'[q]} :: q < |pages| ==> (pgbs'[q] <==> pgbs[q] || q in strat[c + 1].pgs)
    ensures Emitted(pages, pgbs', After(pos, sks[j]), Grown(pages, out, sks[j]))
  {
    var p := sks[j].pg;
    var pos', out' := After(pos, sks[j]), Grown(pages, out, sks[j]);
    TakeSmallest(pages, sks, pgbs, pos, out, j);
    KeyInRange(pages, p, sks[j].si);
    forall q: nat {:trigger InTurn(pages, pgbs', pos', out', q)} | q < |pages|
      ensures InTurn(pages, pgbs', pos', out', q)
    {
      assert InTurn(pages, pgbs, pos', out', q) && PosOk(pages, sks, pgbs, pos, q);
      if pgbs'[q] && !pgbs[q] {
        assert !Reached(strat, c, q) && PageOk(pages[q]);
        NewBehind(pages, strat, c, sks, pgbs, pos, out, j, q);
        KeyInRange(pages, q, 0);
      }
    }
  }

  lemma ReachedNext(strat: seq<Node>, c: nat, q: nat)
    requires c + 1 < |strat|
    ensures Reached(strat, c + 1, q) <==> Reached(strat, c, q) || q in strat[c + 1].pgs
  {
    if Reached(strat, c + 1, q) {
      var k :| 0 <= k <= c + 1 && q in strat[k].pgs;
      assert k <= c ==> Reached(strat, c, q);
    }
    if Reached(strat, c, q) {
      var k :| 0 <= k <= c && q in strat[k].pgs;
      assert k <= c + 1;
    }
  }

  // ---------------------------------------------------------------- the merge

  /** min_run: the last one among the seeks with the smallest key, or -1. */
  method MinRun(pages: seq<Page>, sks: seq<Seek>, ghost pgbs: seq<bool>, ghost pos: seq<nat>) returns (res: int)
    requires PagesOk(pages) && KeysFit(pages) && Tracks(pages, sks, pgbs, pos)
    ensures -1 <= res < |sks| && (res == -1 <==> sks == []) && (res >= 0 ==> Smallest(pages, sks, res))
  {
    res := -1;
    var min := ULLONG_MAX;
    for i := 0 to |sks|
      invariant -1 <= res < i && (res == -1 <==> i == 0) && (res == -1 ==> min == ULLONG_MAX)
      invariant res >= 0 ==> SeekIn(pages, sks[res]) && TickKey()(pages[sks[res].pg][sks[res].si]) == min
      invariant forall k {:trigger sks[k]} ::
                0 <= k < i ==> SeekIn(pages, sks[k]) && min <= TickKey()(pages[sks[k].pg][sks[k].si])
    {
      assert SeekOk(pages, pgbs, pos, sks[i]) && PageOk(pages[sks[i].pg]);
      assert GoodTick(pages[sks[i].pg][sks[i].si]);
      var key := KeyAt(pages, sks[i].pg, sks[i].si);
      if key <= min {
        res, min := i, key;
      }
    }
  }

  /** step_run: the j-th seek moves on; when its page is done the pages of the next node may be due. */
  method StepRun(pages: seq<Page>, strat: seq<Node>, curr: nat, sks: seq<Seek>, pgbs: seq<bool>, nmaxpg: nat, j: nat,
                 ghost pos: seq<nat>, ghost out: seq<Tick>)
    returns (curr': nat, sks': seq<Seek>, pgbs': seq<bool>)
    requires MidMerge(pages, strat, curr, sks, pgbs, pos, out) && Smallest(pages, sks, j)
    requires SeekOk(pages, pgbs, pos, sks[j])
    requires |sks| <= nmaxpg && forall c {:trigger strat[c]} :: 0 <= c < |strat| ==> |strat[c].pgs| <= nmaxpg
    ensures |sks'| <= nmaxpg
    ensures MidMerge(pages, strat, curr', sks', pgbs', After(pos, sks[j]), Grown(pages, out, sks[j]))
  {
    curr', pgbs' := curr, pgbs;
    var pgj := sks[j].pg;
    if sks[j].si + 1 < |pages[pgj]| {
      StepStays(pages, strat, curr, sks, pgbs, pos, out, j);
      sks' := sks[j := Seek(pgj, sks[j].si + 1)];
      return;
    }
    sks' := Without(sks, j);
    if curr + 1 < |strat| && (sks' == [] || pgj in strat[curr + 1].pgs) {
      curr' := curr + 1;
      sks', pgbs' := NextRun(pages, strat, curr, sks, sks', pgbs, nmaxpg, j, pos, out);
    } else {
      StepStays(pages, strat, curr, sks, pgbs, pos, out, j);
    }
  }

  /** The pages of the next node join those that are left. */
  method NextRun(pages: seq<Page>, strat: seq<Node>, curr: nat, ghost sks: seq<Seek>, left: seq<Seek>,
                 pgbs: seq<bool>, nmaxpg: nat, ghost j: nat,
                 ghost pos: seq<nat>, ghost out: seq<Tick>)
    returns (sks': seq<Seek>, pgbs': seq<bool>)
    requires MidMerge(pages, strat, curr, sks, pgbs, pos, out) && Smallest(pages, sks, j)
    requires SeekOk(pages, pgbs, pos, sks[j])
    requires curr + 1 < |strat| && |strat[curr + 1].pgs| <= nmaxpg
    requires sks[j].si + 1 == |pages[sks[j].pg]| && left == Without(sks, j)
    requires (left == [] || sks[j].pg in strat[curr + 1].pgs)
    ensures |sks'| <= nmaxpg
    ensures MidMerge(pages, strat, curr + 1, sks', pgbs', After(pos, sks[j]), Grown(pages, out, sks[j]))
  {
    StepTracks(pages, sks, pgbs, pos, j);
    LeftoversMeet(pages, strat, curr, sks, pgbs, pos, out, j);
    sks', pgbs' := LoadRun(pages, strat[curr + 1], left, pgbs, nmaxpg, After(pos, sks[j]));
    Advanced(pages, strat, curr, sks, pgbs, pos, out, j, sks', pgbs');
  }

  /** How many ticks are left. */
  ghost function Left(pages: seq<Page>, pos: seq<nat>, n: nat): nat
    requires n <= |pages| == |pos| && forall q {:trigger pos[q]} :: 0 <= q < n ==> pos[q] <= |pages[q]|
  {
    if n == 0 then 0 else Left(pages, pos, n - 1) + (|pages[n - 1]| - pos[n - 1])
  }

  lemma {:induction false} LeftLess(pages: seq<Page>, pos: seq<nat>, q: nat, n: nat)
    requires n <= |pages| == |pos| && forall k {:trigger pos[k]} :: 0 <= k < n ==> pos[k] <= |pages[k]|
    requires q < |pages| && pos[q] < |pages[q]|
    ensures Left(pages, pos[q := pos[q] + 1], n) == Left(pages, pos, n) - if q < n then 1 else 0
    decreases n
  {
    if n > 0 {
      LeftLess(pages, pos, q, n - 1);
    }
  }

  /** The pages a strategy loads, with nothing in place of the others. */
  ghost function Loaded(pages: seq<Page>, strat: seq<Node>): (r: seq<Page>)
    ensures |r| == |pages|
    ensures forall q {:trigger r[q]} :: 0 <= q < |pages| ==> r[q] == if Reached(strat, |strat|, q) then pages[q] else []
  {
    seq(|pages|, q requires 0 <= q < |pages| => if Reached(strat, |strat|, q) then pages[q] else [])
  }

  /** With no seeks left everything on them is out. */
  lemma MergeDone(pages: seq<Page>, strat: seq<Node>, c: nat, pgbs: seq<bool>, pos: seq<nat>, out: seq<Tick>)
    requires Going(pages, strat, c, [], pgbs, pos, out)
    ensures multiset(out) == multiset(Flat(Loaded(pages, strat)))
  {
    var l := Loaded(pages, strat);
    forall q {:trigger pos[q]} | 0 <= q < |pages| ensures pos[q] <= |pages[q]| && pages[q][..pos[q]] == l[q] {
      assert PosOk(pages, [], pgbs, pos, q);
      assert Reached(strat, c, q) <==> Reached(strat, |strat|, q);
    }
    TakenAll(pages, pos, l, |pages|);
    assert l[..|pages|] == l;
  }

  /** Nothing is left to come, so what is spoilt is out of order. */
  lemma SpoiltShows(pages: seq<Page>, strat: seq<Node>, c: nat, pgbs: seq<bool>, pos: seq<nat>, out: seq<Tick>)
    requires MidMerge(pages, strat, c, [], pgbs, pos, out)
    ensures Sorted(TickKey(), out) <==> !OvertakenIn(strat, Ranges(pages))
  {
    if OvertakenIn(strat, Ranges(pages)) {
      var d: nat :| OvertakenAt(strat, Ranges(pages), d);
      assert Spoilt(pages, pgbs, pos, out);
      forall q: nat, i: nat {:trigger Missed(pages, pgbs, pos, out, q, i)}
        ensures !Missed(pages, pgbs, pos, out, q, i)
      {
        NoneMissed(pages, pgbs, pos, out, q, i);
      }
    }
  }

  lemma NoneMissed(pages: seq<Page>, pgbs: seq<bool>, pos: seq<nat>, out: seq<Tick>, q: nat, i: nat)
    requires Tracks(pages, [], pgbs, pos)
    ensures !Missed(pages, pgbs, pos, out, q, i)
  {
    if q < |pages| {
      assert PosOk(pages, [], pgbs, pos, q);
    }
  }

  /** The state before the first tick. */
  lemma MergeBegun(pages: seq<Page>, strat: seq<Node>, sks: seq<Seek>, pgbs: seq<bool>, pos: seq<nat>)
    requires PagesOk(pages) && Usable(strat, Ranges(pages)) && Tracks(pages, sks, pgbs, pos)
    requires forall q {:trigger pos[q]} :: 0 <= q < |pages| ==> pos[q] == 0
    requires forall q: nat {:trigger pgbs[q]} :: q < |pages| ==> (pgbs[q] <==> q in strat[0].pgs)
    requires forall i {:trigger sks[i]} :: 0 <= i < |sks| ==> sks[i].pg in strat[0].pgs
    ensures MidMerge(pages, strat, 0, sks, pgbs, pos, [])
  {
    var r := Ranges(pages);
    TakenNone(pages, pos, |pages|);
    forall q: nat {:trigger Reached(strat, 0, q)} | q < |pages| ensures pgbs[q] <==> Reached(strat, 0, q) {
      assert pgbs[q] <==> q in strat[0].pgs;
    }
    forall i: nat {:trigger Undone(pages, pos, strat[i].pg)} | |strat| > 1 && i < |strat|
      ensures Undone(pages, pos, strat[i].pg)
    {
      NodeOrder(strat, r, 0, i);
      assert PageOk(pages[strat[i].pg]) && pos[strat[i].pg] == 0;
    }
    if |strat| > 1 {
      var p := strat[0].pg;
      NodeOrder(strat, r, 0, 0);
      assert Undone(pages, pos, p) && p in strat[0].pgs && pgbs[p] && PosOk(pages, sks, pgbs, pos, p);
    }
    forall q: nat {:trigger InTurn(pages, pgbs, pos, [], q)} | q < |pages| ensures InTurn(pages, pgbs, pos, [], q) {
      assert pos[q] == 0;
    }
  }

  lemma NothingLoaded(pages: seq<Page>, pgbs: seq<bool>, pos: seq<nat>)
    requires |pgbs| == |pos| == |pages| && (forall q {:trigger pos[q]} :: 0 <= q < |pages| ==> pos[q] == 0)
    requires forall q {:trigger pgbs[q]} :: 0 <= q < |pages| ==> !pgbs[q]
    ensures Tracks(pages, [], pgbs, pos)
  {
    forall q: nat {:trigger PosOk(pages, [], pgbs, pos, q)} | q < |pages| ensures PosOk(pages, [], pgbs, pos, q) {
      assert pos[q] == 0 && !pgbs[q];
    }
    forall i, j {:trigger PagesDiffer([], i, j)} ensures PagesDiffer([], i, j) {}
  }

  /** The most pages in a node. */
  method MaxPages(strat: seq<Node>) returns (nmaxpg: nat)
    ensures forall c {:trigger strat[c]} :: 0 <= c < |strat| ==> |strat[c].pgs| <= nmaxpg
  {
    nmaxpg := 0;
    for c := 0 to |strat|
      invariant forall k {:trigger strat[k]} :: 0 <= k < c ==> |strat[k].pgs| <= nmaxpg
    {
      if |strat[c].pgs| > nmaxpg {
        nmaxpg := |strat[c].pgs|;
      }
    }
  }

  /** The seeks for the first node. */
  method FirstLoad(pages: seq<Page>, strat: seq<Node>, nmaxpg: nat)
    returns (sks: seq<Seek>, pgbs: seq<bool>, ghost pos: seq<nat>)
    requires PagesOk(pages) && Usable(strat, Ranges(pages)) && |strat[0].pgs| <= nmaxpg
    ensures MidMerge(pages, strat, 0, sks, pgbs, pos, []) && |sks| <= nmaxpg
  {
    sks, pgbs := [], seq(|pages|, _ => false);
    pos := seq(|pages|, _ => 0);
    NothingLoaded(pages, pgbs, pos);
    sks, pgbs := LoadRun(pages, strat[0], sks, pgbs, nmaxpg, pos);
    MergeBegun(pages, strat, sks, pgbs, pos);
  }

  /** ute_sort's main loop. */
  method MergePages(pages: seq<Page>, strat: seq<Node>) returns (out: seq<Tick>)
    requires PagesOk(pages) && KeysFit(pages) && Usable(strat, Ranges(pages))
    ensures multiset(out) == multiset(Flat(Loaded(pages, strat)))
    ensures Sorted(TickKey(), out) <==> !OvertakenIn(strat, Ranges(pages))
  {
    var nmaxpg := MaxPages(strat);
    var sks: seq<Seek>, pgbs: seq<bool>;
    ghost var pos: seq<nat>;
    sks, pgbs, pos := FirstLoad(pages, strat, nmaxpg);
    out := [];
    var curr: nat := 0;
    var j := MinRun(pages, sks, pgbs, pos);
    while j >= 0
      invariant MidMerge(pages, strat, curr, sks, pgbs, pos, out) && |sks| <= nmaxpg
      invariant -1 <= j < |sks| && (j == -1 <==> sks == []) && (j >= 0 ==> Smallest(pages, sks, j))
      decreases Left(pages, pos, |pages|)
    {
      curr, sks, pgbs, out, pos := EmitOne(pages, strat, curr, sks, pgbs, nmaxpg, j, pos, out);
      j := MinRun(pages, sks, pgbs, pos);
    }
    MergeDone(pages, strat, curr, pgbs, pos, out);
    SpoiltShows(pages, strat, curr, pgbs, pos, out);
  }

  /** ute_add_tick of the smallest tick, then step_run. */
  method EmitOne(pages: seq<Page>, strat: seq<Node>, curr: nat, sks: seq<Seek>, pgbs: seq<bool>, nmaxpg: nat, j: nat,
                 ghost pos: seq<nat>, out: seq<Tick>)
    returns (curr': nat, sks': seq<Seek>, pgbs': seq<bool>, out': seq<Tick>, ghost pos': seq<nat>)
    requires MidMerge(pages, strat, curr, sks, pgbs, pos, out) && Smallest(pages, sks, j)
    requires |sks| <= nmaxpg && forall c {:trigger strat[c]} :: 0 <= c < |strat| ==> |strat[c].pgs| <= nmaxpg
    ensures |sks'| <= nmaxpg && MidMerge(pages, strat, curr', sks', pgbs', pos', out')
    ensures Left(pages, pos', |pages|) < Left(pages, pos, |pages|)
  {
    assert SeekOk(pages, pgbs, pos, sks[j]);
    pos' := LeftStep(pages, pos, sks[j]);
    curr', sks', pgbs' := StepRun(pages, strat, curr, sks, pgbs, nmaxpg, j, pos, out);
    out' := Grown(pages, out, sks[j]);
  }

  lemma LeftStep(pages: seq<Page>, pos: seq<nat>, s: Seek) returns (pos': seq<nat>)
    requires |pages| == |pos| && forall k {:trigger pos[k]} :: 0 <= k < |pos| ==> pos[k] <= |pages[k]|
    requires s.pg < |pages| && s.si == pos[s.pg] < |pages[s.pg]|
    ensures pos' == After(pos, s) && forall k {:trigger pos'[k]} :: 0 <= k < |pos'| ==> pos'[k] <= |pages[k]|
    ensures Left(pages, pos', |pages|) < Left(pages, pos, |pages|)
  {
    LeftLess(pages, pos, s.pg, |pages|);
    pos' := After(pos, s);
  }

  // ---------------------------------------------------------------- what comes out

  ghost predicate NoneOnTop(r: seq<Range>) { forall q: nat {:trigger OnTop(r, q)} :: !OnTop(r, q) }

  /** Page q meets one that is on top, if there is any. */
  ghost predicate Touched(r: seq<Range>, q: nat) {
    q < |r| && (NoneOnTop(r) || exists k: nat {:trigger OnTop(r, k)} :: OnTop(r, k) && Meet(r[q], r[k]))
  }

  ghost predicate AllTouched(r: seq<Range>) { forall q: nat {:trigger Touched(r, q)} :: q < |r| ==> Touched(r, q) }

  /** The pages that meet one on top, with nothing in place of the others. */
  ghost function TouchedPages(pages: seq<Page>): (t: seq<Page>)
    requires PagesOk(pages)
    ensures |t| == |pages|
    ensures forall q {:trigger t[q]} :: 0 <= q < |pages| ==> t[q] == if Touched(Ranges(pages), q) then pages[q] else []
  {
    seq(|pages|, q requires 0 <= q < |pages| => if Touched(Ranges(pages), q) then pages[q] else [])
  }

  /** Pages within one on top meet it. */
  lemma CoveredIsTouched(r: seq<Range>)
    requires Covered(r) && forall q {:trigger r[q]} :: 0 <= q < |r| ==> r[q].lo <= r[q].hi
    ensures AllTouched(r)
  {
    forall q: nat {:trigger Touched(r, q)} | q < |r| ensures Touched(r, q) {
      assert Cover(r, q);
      var k: nat :| OnTop(r, k) && Within(r[q], r[k]);
      assert Meet(r[q], r[k]);
    }
  }

  lemma ReachedIsTouched(strat: seq<Node>, r: seq<Range>, q: nat)
    requires if NoneOnTop(r) then AllAtOnce(strat, r) else TopNodes(strat, r) && strat != []
    requires q < |r|
    ensures Reached(strat, |strat|, q) <==> Touched(r, q)
  {
    if NoneOnTop(r) {
      assert q in strat[0].pgs;
    } else {
      if Reached(strat, |strat|, q) {
        var k :| 0 <= k < |strat| && q in strat[k].pgs;
        assert NodeOk(strat[k], r);
      }
      if Touched(r, q) {
        var k: nat :| OnTop(r, k) && Meet(r[q], r[k]);
        assert HasNode(strat, k);
        var i :| 0 <= i < |strat| && strat[i].pg == k;
        assert NodeOk(strat[i], r);
      }
    }
  }

  /** Nothing is lost if and only if every page is touched. */
  lemma {:induction false} TouchedLength(pages: seq<Page>, t: seq<Page>)
    requires |t| == |pages|
    requires forall q {:trigger t[q]} {:trigger pages[q]} ::
              0 <= q < |pages| ==> pages[q] != [] && (t[q] == pages[q] || t[q] == [])
    ensures |Flat(t)| <= |Flat(pages)| && (|Flat(t)| == |Flat(pages)| <==> t == pages)
    decreases |pages|
  {
    if pages != [] {
      var p', t' := pages[1..], t[1..];
      forall q {:trigger t'[q]} {:trigger p'[q]} | 0 <= q < |t'|
        ensures p'[q] != [] && (t'[q] == p'[q] || t'[q] == [])
      {
        assert t'[q] == t[q + 1] && p'[q] == pages[q + 1];
      }
      TouchedLength(p', t');
      assert t == [t[0]] + t[1..] && pages == [pages[0]] + pages[1..];
    }
  }

  lemma LostIfUntouched(pages: seq<Page>, out: seq<Tick>)
    requires PagesOk(pages) && multiset(out) == multiset(Flat(TouchedPages(pages)))
    ensures multiset(out) == multiset(Flat(pages)) <==> AllTouched(Ranges(pages))
  {
    var t := TouchedPages(pages);
    forall q {:trigger t[q]} {:trigger pages[q]} | 0 <= q < |pages|
      ensures pages[q] != [] && (t[q] == pages[q] || t[q] == [])
    {
      assert PageOk(pages[q]);
    }
    TouchedLength(pages, t);
    if multiset(out) == multiset(Flat(pages)) {
      assert |multiset(Flat(t))| == |multiset(Flat(pages))|;
      forall q: nat {:trigger Touched(Ranges(pages), q)} | q < |pages| ensures Touched(Ranges(pages), q) {
        assert t[q] == pages[q] != [];
      }
    }
    if AllTouched(Ranges(pages)) {
      assert forall q {:trigger t[q]} :: 0 <= q < |pages| ==> Touched(Ranges(pages), q);
      assert t == pages;
    }
  }

  /** A page of two ticks of one sandwich each. */
  function TwoTicks(lo: nat, hi: nat): Page { [[Sndwch(lo, 0)], [Sndwch(hi, 0)]] }

  lemma TwoTicksOk(lo: nat, hi: nat)
    requires 0 < lo <= hi < 16
    ensures PageOk(TwoTicks(lo, hi)) && RangeOf(TwoTicks(lo, hi)) == Range(lo, hi)
  {
    var p := TwoTicks(lo, hi);
    assert p[1..] == [p[1]] && p[1..][1..] == [];
    assert Sorted(TickKey(), p[1..]);
  }

  /** Two wide pages with the same range keep each other off the top: their ticks are lost. */
  lemma TwinsUntouched()
    ensures var r := [Range(5, 10), Range(5, 10), Range(12, 15)]; !Touched(r, 0) && !Touched(r, 1) && Touched(r, 2)
  {
    var r := [Range(5, 10), Range(5, 10), Range(12, 15)];
    assert Within(r[0], r[1]) && Within(r[1], r[0]) && OnTop(r, 2) && Meet(r[2], r[2]);
  }

  function Twins(): seq<Page> { [TwoTicks(5, 10), TwoTicks(5, 10), TwoTicks(12, 15)] }

  lemma TwinsAreOk()
    ensures PagesOk(Twins()) && KeysFit(Twins())
    ensures Ranges(Twins()) == [Range(5, 10), Range(5, 10), Range(12, 15)]
  {
    TwoTicksOk(5, 10);
    TwoTicksOk(12, 15);
  }

  lemma TwinsNotTouched()
    ensures PagesOk(Twins()) && |Flat(TouchedPages(Twins()))| == 2 && |Flat(Twins())| == 6
  {
    TwinsAreOk();
    TwinsUntouched();
    var p, t := Twins(), TouchedPages(Twins());
    var r := Ranges(p);
    assert !Touched(r, 0) && !Touched(r, 1) && Touched(r, 2);
    assert |t| == 3 && t[0] == [] && t[1] == [] && t[2] == p[2];
    assert t == [[], [], p[2]];
    FlatThree([], [], p[2]);
    FlatThree(p[0], p[1], p[2]);
  }

  lemma FlatThree(a: Page, b: Page, c: Page)
    ensures |Flat([a, b, c])| == |a| + |b| + |c|
  {
    var p := [a, b, c];
    var q := p[1..];
    assert q == [b, c] && q[1..] == [c] && [c][1..] == [];
    assert Flat([c]) == c + Flat([c][1..]) == c;
    assert Flat(q) == b + Flat(q[1..]);
    assert Flat(p) == a + Flat(q);
  }

  /** Of these six ticks two come out. */
  method TwinsLost() returns (out: seq<Tick>)
    ensures |Flat(Twins())| == 6 && |out| == 2
  {
    TwinsAreOk();
    TwinsNotTouched();
    out := UteSort(Twins());
    SameCount(out, Flat(TouchedPages(Twins())));
  }

  lemma SameCount(a: seq<Tick>, b: seq<Tick>)
    requires multiset(a) == multiset(b)
    ensures |a| == |b|
  {
    assert |multiset(a)| == |a| && |multiset(b)| == |b|;
  }

  /** ute_sort. The ticks of the pages that meet one on top come out, each of them once, and all
      others are lost. They come out in order if and only if no page is loaded too late. */
  method UteSort(pages: seq<Page>) returns (out: seq<Tick>)
    requires PagesOk(pages) && KeysFit(pages) && |pages| < 0x1_0000_0000
    ensures multiset(out) == multiset(Flat(TouchedPages(pages)))
    ensures multiset(out) == multiset(Flat(pages)) <==> AllTouched(Ranges(pages))
    ensures Sorted(TickKey(), out) <==> !Overtaken(Ranges(pages))
  {
    var strat := SortStrat(pages);
    StrategyUsable(strat, Ranges(pages));
    OvertakenEither(strat, Ranges(pages));
    out := MergePages(pages, strat);
    LoadedIsTouched(pages, strat);
    LostIfUntouched(pages, out);
  }

  /** ute_sort is right on pages that each lie within one on top, as on pages with distinct
      ranges, and on pages none of which is. */
  lemma RightRanges(r: seq<Range>)
    requires Covered(r) || NoneOnTop(r)
    requires forall q {:trigger r[q]} :: 0 <= q < |r| ==> r[q].lo <= r[q].hi
    ensures AllTouched(r) && !Overtaken(r)
  {
    if Covered(r) {
      CoveredIsTouched(r);
      CoveredInTime(r);
    } else {
      assert forall q: nat {:trigger Touched(r, q)} :: q < |r| ==> Touched(r, q);
    }
  }

  /** Twins that reach into the gap between two pages on top overtake the second one. */
  lemma TwinsOvertake()
    ensures Overtaken([Range(3, 13), Range(3, 13), Range(1, 4), Range(8, 15)])
  {
    var r := [Range(3, 13), Range(3, 13), Range(1, 4), Range(8, 15)];
    assert Within(r[0], r[1]) && Within(r[1], r[0]);
    assert OnTop(r, 2) && OnTop(r, 3) && NextTop(r, 2, 3);
    assert Overtakes(r, 2, 3, 0, 3);
  }

  function Overtakers(): seq<Page> { [TwoTicks(3, 13), TwoTicks(3, 13), TwoTicks(1, 4), TwoTicks(8, 15)] }

  lemma OvertakersAreOk()
    ensures PagesOk(Overtakers()) && KeysFit(Overtakers())
    ensures Ranges(Overtakers()) == [Range(3, 13), Range(3, 13), Range(1, 4), Range(8, 15)]
  {
    TwoTicksOk(3, 13);
    TwoTicksOk(1, 4);
    TwoTicksOk(8, 15);
  }

  /** Such pages come out of order. */
  method TwinsDisordered() returns (out: seq<Tick>)
    ensures !Sorted(TickKey(), out)
  {
    OvertakersAreOk();
    TwinsOvertake();
    out := UteSort(Overtakers());
  }

  lemma LoadedIsTouched(pages: seq<Page>, strat: seq<Node>)
    requires PagesOk(pages)
    requires if NoneOnTop(Ranges(pages)) then AllAtOnce(strat, Ranges(pages))
          else TopNodes(strat, Ranges(pages)) && strat != []
    ensures Loaded(pages, strat) == TouchedPages(pages)
  {
    forall q: nat {:trigger Loaded(pages, strat)[q]} | q < |pages|
      ensures Loaded(pages, strat)[q] == TouchedPages(pages)[q]
    {
      ReachedIsTouched(strat, Ranges(pages), q);
    }
  }
}
