/** The double array of src/darray.c: two integer vectors BASE and CHECK whose free cells
    form a circular, doubly linked, ascending list threaded through the same cells. */
module DoubleArray {

  datatype Cell = Cell(base: int, check: int)

  const SIGNATURE: int := 0xDAFCDAFC - 0x1_0000_0000   // as a signed 32-bit value
  const INDEX_MAX: int := 0x7fffffff
  const INDEX_ERROR: int := 0
  const POOL_BEGIN: int := 3
  const FREE_LIST: int := 1
  const ROOT: int := 2
  const CHAR_MAX: int := 0xff

  /** No insertion grows the pool by more than this. */
  const STRIDE: int := 0x100

  /** An arc label: what a C char holds for the alphabet the trie maps its keys to. */
  type Sym = c: int | 0 <= c < 0x80

  /** The labels on the way from the root to a node. */
  type Label = seq<int>

  // ---------------------------------------------------------------- the free list

  ghost predicate Free(cs: seq<Cell>, i: int) {
    1 <= i < |cs| && cs[i].check < 0
  }

  /** Cell i names its two neighbours in the list, they name it back, and no free cell
      lies between i and its successor; the successor of the last cell is the list head. */
  ghost predicate Linked(cs: seq<Cell>, i: int)
    requires Free(cs, i)
  {
    var next, prev := -cs[i].check, -cs[i].base;
    && Free(cs, next) && cs[next].base == -i
    && Free(cs, prev) && cs[prev].check == -i
    && (next == FREE_LIST || i < next)
    && forall k :: Free(cs, k) ==> k <= i || (next != FREE_LIST && next <= k)
  }

  ghost predicate FreeListOk(cs: seq<Cell>) {
    && Free(cs, FREE_LIST)
    && forall i {:trigger Linked(cs, i)} :: Free(cs, i) ==> Linked(cs, i)
  }

  // ---------------------------------------------------------------- the nodes

  ghost predicate ChildOk(cs: seq<Cell>, path: map<int, Label>, n: int)
    requires n in path && 0 <= n < |cs|
  {
    var p := cs[n].check;
    && p in path && 0 <= p < |cs|
    && cs[p].base >= POOL_BEGIN
    && 0 <= n - cs[p].base < 0x80
    && path[n] == path[p] + [n - cs[p].base]
  }

  /** The cells with a non-negative CHECK are the nodes of one tree: `path` gives each its
      label sequence and `node` inverts it, so no two nodes share a label sequence. */
  ghost predicate NodesOk(cs: seq<Cell>, path: map<int, Label>, node: map<Label, int>) {
    && |cs| >= POOL_BEGIN
    && (forall i {:trigger i in path} :: i in path <==> 2 <= i < |cs| && cs[i].check >= 0)
    && (forall n {:trigger path[n]} :: n in path ==> path[n] in node && node[path[n]] == n)
    && (forall p {:trigger node[p]} :: p in node ==> node[p] in path && path[node[p]] == p)
    && ROOT in path && path[ROOT] == [] && cs[ROOT].check == 0
    && (forall n {:trigger ChildOk(cs, path, n)} :: n in path && n != ROOT ==> ChildOk(cs, path, n))
    && (forall n {:trigger cs[n].base} :: n in path ==> cs[n].base <= 0 || POOL_BEGIN <= cs[n].base <= |cs|)
  }

  ghost predicate Inv(cs: seq<Cell>, path: map<int, Label>, node: map<Label, int>) {
    && NodesOk(cs, path, node)
    && FreeListOk(cs)
    && |cs| <= INDEX_MAX
    && cs[0] == Cell(SIGNATURE, |cs|)
  }

  /** What a node tells the trie: a positive BASE leads to children, a negative one into the
      tails, and 0 marks a node about to be pruned. */
  datatype Kind = Branch | Separate(tail: int) | Dangling

  function KindOf(base: int): Kind {
    if base > 0 then Branch else if base < 0 then Separate(-base) else Dangling
  }

  /** The array as the trie sees it: label sequence -> kind. */
  ghost function Tree(cs: seq<Cell>, path: map<int, Label>, node: map<Label, int>): map<Label, Kind>
    requires NodesOk(cs, path, node)
  {
    map p | p in node :: KindOf(cs[node[p]].base)
  }

  ghost predicate SameNodes(cs: seq<Cell>, cs': seq<Cell>, path: map<int, Label>) {
    forall n {:trigger n in path} :: n in path ==> 0 <= n < |cs| && n < |cs'| && cs'[n] == cs[n]
  }

  /** CHECK leads to the node whose label is one shorter. */
  lemma Parent(cs: seq<Cell>, path: map<int, Label>, node: map<Label, int>, n: int)
    requires NodesOk(cs, path, node) && n in path && path[n] != []
    ensures n != ROOT && ChildOk(cs, path, n)
    ensures path[n][..|path[n]| - 1] in node && node[path[n][..|path[n]| - 1]] == cs[n].check
  {
    assert ChildOk(cs, path, n);
    var p := cs[n].check;
    assert path[n][..|path[n]| - 1] == path[p];
    assert node[path[p]] == p;
  }

  /** The pool may have grown, the nodes and the free cells are as before. */
  ghost predicate Grown(cs: seq<Cell>, cs': seq<Cell>, path: map<int, Label>) {
    && |cs| <= |cs'|
    && SameNodes(cs, cs', path)
    && forall i {:trigger Free(cs', i)} :: Free(cs, i) ==> Free(cs', i)
  }

  lemma GrownTree(cs: seq<Cell>, cs': seq<Cell>, path: map<int, Label>, node: map<Label, int>)
    requires NodesOk(cs, path, node) && NodesOk(cs', path, node) && Grown(cs, cs', path)
    ensures Tree(cs', path, node) == Tree(cs, path, node)
  {
    forall p {:trigger node[p]} | p in node ensures cs'[node[p]] == cs[node[p]] {
      assert node[p] in path;
    }
  }

  /** The children of s lie within one alphabet behind its BASE. */
  lemma ChildRange(cs: seq<Cell>, path: map<int, Label>, node: map<Label, int>, s: int)
    requires NodesOk(cs, path, node) && s in path
    ensures forall n {:trigger n in path} ::
              n in path && cs[n].check == s ==> cs[s].base >= POOL_BEGIN && 0 <= n - cs[s].base < 0x80
  {
    forall n {:trigger n in path} | n in path && cs[n].check == s
      ensures cs[s].base >= POOL_BEGIN && 0 <= n - cs[s].base < 0x80
    {
      assert n != ROOT;
      assert ChildOk(cs, path, n);
    }
  }

  /** An arc exists exactly where CHECK points back. */
  lemma ArcIff(cs: seq<Cell>, path: map<int, Label>, node: map<Label, int>, s: int, c: Sym)
    requires NodesOk(cs, path, node) && s in path && cs[s].base > 0
    ensures path[s] + [c] in node <==> (cs[s].base + c < |cs| && cs[cs[s].base + c].check == s)
    ensures path[s] + [c] in node ==> node[path[s] + [c]] == cs[s].base + c
  {
    var q := path[s] + [c];
    assert q[..|q| - 1] == path[s] && node[path[s]] == s;
    if q in node {
      Parent(cs, path, node, node[q]);
    }
    var n := cs[s].base + c;
    if n < |cs| && cs[n].check == s {
      assert n in path;
      assert ChildOk(cs, path, n);
    }
  }

  /** Separate nodes have no arcs. */
  lemma SeparateIsLeaf(cs: seq<Cell>, path: map<int, Label>, node: map<Label, int>, s: int, c: int)
    requires NodesOk(cs, path, node) && s in path && cs[s].base <= 0
    ensures path[s] + [c] !in node
  {
    var q := path[s] + [c];
    assert q[..|q| - 1] == path[s] && node[path[s]] == s;
    if q in node {
      Parent(cs, path, node, node[q]);
      assert false;
    }
  }

  /** A tree is closed under dropping the last label, and only branching nodes have children. */
  ghost predicate Shape(t: map<Label, Kind>) {
    && [] in t
    && forall p {:trigger UpOk(t, p)} :: UpOk(t, p)
  }

  ghost predicate UpOk(t: map<Label, Kind>, p: Label) {
    p in t && p != [] ==> p[..|p| - 1] in t && t[p[..|p| - 1]] == Branch
  }

  ghost predicate AllSyms(p: Label) {
    forall i :: 0 <= i < |p| ==> 0 <= p[i] < 0x80
  }

  lemma TreeShape(cs: seq<Cell>, path: map<int, Label>, node: map<Label, int>)
    requires NodesOk(cs, path, node)
    ensures Shape(Tree(cs, path, node))
  {
    assert node[path[ROOT]] == ROOT;
    forall p {:trigger UpOk(Tree(cs, path, node), p)} ensures UpOk(Tree(cs, path, node), p) {
      if p in node && p != [] {
        Parent(cs, path, node, node[p]);
      }
    }
  }

  // ---------------------------------------------------------------- cell updates

  function SetBase(cs: seq<Cell>, i: int, v: int): (r: seq<Cell>)
    requires 0 <= i
    ensures |r| == |cs|
  {
    if i < |cs| then cs[i := cs[i].(base := v)] else cs
  }

  function SetCheck(cs: seq<Cell>, i: int, v: int): (r: seq<Cell>)
    requires 0 <= i
    ensures |r| == |cs|
  {
    if i < |cs| then cs[i := cs[i].(check := v)] else cs
  }

  /** Cell i once `cell` has left the list: its neighbours are joined over it. */
  function Bridged(cs: seq<Cell>, cell: int, i: int): Cell
    requires 0 <= cell < |cs| && 0 <= i < |cs|
  {
    Cell(if i == -cs[cell].check then cs[cell].base else cs[i].base,
         if i == -cs[cell].base then cs[cell].check else cs[i].check)
  }

  /** Unlinking a free cell and giving it a non-negative CHECK leaves a good list without it. */
  lemma UnlinkKeepsList(cs: seq<Cell>, cell: int, cs': seq<Cell>)
    requires FreeListOk(cs) && Free(cs, cell) && cell != FREE_LIST
    requires |cs'| == |cs| && cs'[cell].check >= 0
    requires forall i {:trigger cs'[i]} :: 0 <= i < |cs| && i != cell ==> cs'[i] == Bridged(cs, cell, i)
    ensures FreeListOk(cs')
    ensures forall i {:trigger Free(cs', i)} :: Free(cs', i) <==> Free(cs, i) && i != cell
    ensures forall i {:trigger cs'[i]} :: 0 <= i < |cs| && cs[i].check >= 0 ==> cs'[i] == cs[i]
  {
    assert Linked(cs, cell);
    forall i {:trigger Linked(cs', i)} | Free(cs', i)
      ensures Linked(cs', i)
    {
      UnlinkKeepsLink(cs, cell, cs', i);
    }
  }

  lemma UnlinkKeepsLink(cs: seq<Cell>, cell: int, cs': seq<Cell>, i: int)
    requires FreeListOk(cs) && Free(cs, cell) && cell != FREE_LIST
    requires |cs'| == |cs| && cs'[cell].check >= 0
    requires forall i {:trigger cs'[i]} :: 0 <= i < |cs| && i != cell ==> cs'[i] == Bridged(cs, cell, i)
    requires Free(cs', i)
    ensures Linked(cs', i)
  {
    assert Linked(cs, cell);
    assert Free(cs, i) && Linked(cs, i);
    var next, prev := -cs'[i].check, -cs'[i].base;
    assert Linked(cs, -cs[i].check) && Linked(cs, -cs[i].base);
    assert Free(cs', next) && cs'[next].base == -i;
    assert Free(cs', prev) && cs'[prev].check == -i;
    forall k | Free(cs', k) ensures k <= i || (next != FREE_LIST && next <= k) {
      assert Free(cs, k) && k != cell;
    }
  }

  /** Cell i once `cell` stands between prev and next. */
  function Inserted(cs: seq<Cell>, cell: int, prev: int, next: int, i: int): Cell
    requires 0 <= i < |cs|
  {
    if i == cell then Cell(-prev, -next)
    else Cell(if i == next then -cell else cs[i].base, if i == prev then -cell else cs[i].check)
  }

  /** Putting a cell back between its free neighbours. */
  lemma RelinkKeepsList(cs: seq<Cell>, cell: int, prev: int, next: int, cs': seq<Cell>)
    requires FreeListOk(cs) && 1 < cell < |cs| && !Free(cs, cell)
    requires Free(cs, prev) && cs[prev].check == -next
    requires prev < cell && (next == FREE_LIST || cell < next)
    requires |cs'| == |cs|
    requires forall i {:trigger cs'[i]} :: 0 <= i < |cs| ==> cs'[i] == Inserted(cs, cell, prev, next, i)
    ensures FreeListOk(cs')
    ensures forall i {:trigger Free(cs', i)} :: Free(cs', i) <==> Free(cs, i) || i == cell
    ensures forall i {:trigger cs'[i]} :: 0 <= i < |cs| && !Free(cs, i) && i != cell ==> cs'[i] == cs[i]
  {
    assert Linked(cs, prev);
    forall i {:trigger Linked(cs', i)} | Free(cs', i)
      ensures Linked(cs', i)
    {
      RelinkKeepsLink(cs, cell, prev, next, cs', i);
    }
  }

  lemma RelinkKeepsLink(cs: seq<Cell>, cell: int, prev: int, next: int, cs': seq<Cell>, i: int)
    requires FreeListOk(cs) && 1 < cell < |cs| && !Free(cs, cell)
    requires Free(cs, prev) && cs[prev].check == -next
    requires prev < cell && (next == FREE_LIST || cell < next)
    requires |cs'| == |cs|
    requires forall i {:trigger cs'[i]} :: 0 <= i < |cs| ==> cs'[i] == Inserted(cs, cell, prev, next, i)
    requires Free(cs', i)
    ensures Linked(cs', i)
  {
    RelinkKeepsNeighbours(cs, cell, prev, next, cs', i);
    RelinkKeepsOrder(cs, cell, prev, next, cs', i);
  }

  lemma RelinkKeepsNeighbours(cs: seq<Cell>, cell: int, prev: int, next: int, cs': seq<Cell>, i: int)
    requires FreeListOk(cs) && 1 < cell < |cs| && !Free(cs, cell)
    requires Free(cs, prev) && cs[prev].check == -next
    requires prev < cell && (next == FREE_LIST || cell < next)
    requires |cs'| == |cs|
    requires forall i {:trigger cs'[i]} :: 0 <= i < |cs| ==> cs'[i] == Inserted(cs, cell, prev, next, i)
    requires Free(cs', i)
    ensures Free(cs', -cs'[i].check) && cs'[-cs'[i].check].base == -i
    ensures Free(cs', -cs'[i].base) && cs'[-cs'[i].base].check == -i
    ensures -cs'[i].check == FREE_LIST || i < -cs'[i].check
  {
    assert Linked(cs, prev) && Linked(cs, next);
    if i != cell {
      assert Free(cs, i) && Linked(cs, i);
      assert Linked(cs, -cs[i].check) && Linked(cs, -cs[i].base);
    }
  }

  lemma RelinkKeepsOrder(cs: seq<Cell>, cell: int, prev: int, next: int, cs': seq<Cell>, i: int)
    requires FreeListOk(cs) && 1 < cell < |cs| && !Free(cs, cell)
    requires Free(cs, prev) && cs[prev].check == -next
    requires prev < cell && (next == FREE_LIST || cell < next)
    requires |cs'| == |cs|
    requires forall i {:trigger cs'[i]} :: 0 <= i < |cs| ==> cs'[i] == Inserted(cs, cell, prev, next, i)
    requires Free(cs', i)
    ensures var succ := -cs'[i].check; forall k :: Free(cs', k) ==> k <= i || (succ != FREE_LIST && succ <= k)
  {
    assert Linked(cs, prev);
    var succ := -cs'[i].check;
    assert i != cell ==> Free(cs, i) && Linked(cs, i);
    forall k | Free(cs', k) ensures k <= i || (succ != FREE_LIST && succ <= k) {
      assert k == cell || Free(cs, k);
    }
  }

  lemma ExtendKeepsList(cs: seq<Cell>, tail: int, cs': seq<Cell>)
    requires FreeListOk(cs) && |cs| < |cs'| && tail == -cs[FREE_LIST].base
    requires forall i {:trigger cs'[i]} :: 0 < i < |cs'| ==> cs'[i] == Extended(cs, |cs'|, i)
    ensures FreeListOk(cs')
    ensures forall i {:trigger Free(cs', i)} :: Free(cs', i) <==> Free(cs, i) || |cs| <= i < |cs'|
  {
    assert Linked(cs, FREE_LIST);
    forall i {:trigger Linked(cs', i)} | Free(cs', i)
      ensures Linked(cs', i)
    {
      ExtendKeepsLink(cs, tail, cs', i);
    }
  }

  /** Cell i once the pool has grown to n cells. */
  function Extended(cs: seq<Cell>, n: int, i: int): Cell
    requires 0 < i < n && 1 < |cs| < n
  {
    var tail := -cs[FREE_LIST].base;
    if i < |cs| then Cell(if i == FREE_LIST then -(n - 1) else cs[i].base, if i == tail then -|cs| else cs[i].check)
    else Cell(if i == |cs| then -tail else -(i - 1), if i == n - 1 then -FREE_LIST else -(i + 1))
  }

  lemma ExtendKeepsLink(cs: seq<Cell>, tail: int, cs': seq<Cell>, i: int)
    requires FreeListOk(cs) && |cs| < |cs'| && tail == -cs[FREE_LIST].base
    requires forall i {:trigger cs'[i]} :: 0 < i < |cs'| ==> cs'[i] == Extended(cs, |cs'|, i)
    requires Free(cs', i)
    ensures Linked(cs', i)
  {
    ExtendKeepsNext(cs, tail, cs', i);
    ExtendKeepsPrev(cs, tail, cs', i);
    ExtendKeepsOrder(cs, tail, cs', i);
  }

  lemma ExtendKeepsNext(cs: seq<Cell>, tail: int, cs': seq<Cell>, i: int)
    requires FreeListOk(cs) && |cs| < |cs'| && tail == -cs[FREE_LIST].base
    requires forall i {:trigger cs'[i]} :: 0 < i < |cs'| ==> cs'[i] == Extended(cs, |cs'|, i)
    requires Free(cs', i)
    ensures var next := -cs'[i].check; Free(cs', next) && cs'[next].base == -i && (next == FREE_LIST || i < next)
  {
    assert Linked(cs, FREE_LIST) && Linked(cs, tail);
    if i < |cs| {
      assert Free(cs, i) && Linked(cs, i);
      assert Linked(cs, -cs[i].check);
    }
  }

  lemma ExtendKeepsPrev(cs: seq<Cell>, tail: int, cs': seq<Cell>, i: int)
    requires FreeListOk(cs) && |cs| < |cs'| && tail == -cs[FREE_LIST].base
    requires forall i {:trigger cs'[i]} :: 0 < i < |cs'| ==> cs'[i] == Extended(cs, |cs'|, i)
    requires Free(cs', i)
    ensures var prev := -cs'[i].base; Free(cs', prev) && cs'[prev].check == -i
  {
    assert Linked(cs, FREE_LIST) && Linked(cs, tail);
    if i < |cs| {
      assert Free(cs, i) && Linked(cs, i);
      assert Linked(cs, -cs[i].base);
    }
  }

  lemma ExtendKeepsOrder(cs: seq<Cell>, tail: int, cs': seq<Cell>, i: int)
    requires FreeListOk(cs) && |cs| < |cs'| && tail == -cs[FREE_LIST].base
    requires forall i {:trigger cs'[i]} :: 0 < i < |cs'| ==> cs'[i] == Extended(cs, |cs'|, i)
    requires Free(cs', i)
    ensures var next := -cs'[i].check; forall k :: Free(cs', k) ==> k <= i || (next != FREE_LIST && next <= k)
  {
    var next := -cs'[i].check;
    assert Linked(cs, FREE_LIST) && Linked(cs, tail);
    if i < |cs| {
      assert Free(cs, i) && Linked(cs, i);
    }
    forall k | Free(cs', k) ensures k <= i || (next != FREE_LIST && next <= k) {
      assert k >= |cs| || Free(cs, k);
    }
  }

  /** Rearranging free cells does not touch the tree. */
  lemma NodesCarry(cs: seq<Cell>, path: map<int, Label>, node: map<Label, int>, cs': seq<Cell>)
    requires NodesOk(cs, path, node) && |cs| <= |cs'|
    requires SameNodes(cs, cs', path)
    requires forall i {:trigger cs'[i]} :: 2 <= i < |cs'| && cs'[i].check >= 0 ==> i in path
    ensures NodesOk(cs', path, node) && Tree(cs', path, node) == Tree(cs, path, node)
  {
    forall n {:trigger ChildOk(cs', path, n)} | n in path && n != ROOT
      ensures ChildOk(cs', path, n)
    {
      assert ChildOk(cs, path, n);
    }
    forall i {:trigger i in path} | i in path ensures 2 <= i < |cs'| && cs'[i].check >= 0 {}
    forall p {:trigger node[p]} | p in node ensures cs'[node[p]] == cs[node[p]] {
      assert node[p] in path;
    }
  }

  // ---------------------------------------------------------------- relocating the children of a node

  /** Cell k of a node after the children of s named by `done` have moved from base ob to
      base nb: only a grandchild's CHECK changes. */
  function Reparented(cs: seq<Cell>, ob: int, nb: int, done: seq<Sym>, k: int): Cell
    requires 0 <= k < |cs|
  {
    if cs[k].check - ob in done then cs[k].(check := cs[k].check - ob + nb) else cs[k]
  }

  /** The children of s named by `done` have moved from base ob to base nb. */
  ghost predicate Relocating(cs0: seq<Cell>, cs: seq<Cell>, s: int, ob: int, nb: int, done: seq<Sym>) {
    && |cs| == |cs0| && 2 <= |cs0| && cs[0] == cs0[0]
    && FreeListOk(cs)
    && (forall k {:trigger Free(cs, k)} :: Free(cs, k) <==> (Free(cs0, k) && k - nb !in done) || k - ob in done)
    && (forall k {:trigger cs[k]} :: 2 <= k < |cs0| && cs0[k].check >= 0 && k - ob !in done ==>
          cs[k] == Reparented(cs0, ob, nb, done, k))
    && (forall c {:trigger MovedTo(cs0, cs, s, ob, nb, c)} :: c in done ==> MovedTo(cs0, cs, s, ob, nb, c))
  }

  ghost predicate MovedTo(cs0: seq<Cell>, cs: seq<Cell>, s: int, ob: int, nb: int, c: Sym) {
    && 0 <= ob + c < |cs0| && cs0[ob + c].check == s
    && 0 <= nb + c < |cs| && cs[nb + c] == Cell(cs0[ob + c].base, s)
  }

  /** The effect of moving one child on the cells of the nodes. */
  ghost predicate OneMoved(cs: seq<Cell>, cs': seq<Cell>, s: int, from: int, to: int)
    requires 0 <= from < |cs|
  {
    && |cs'| == |cs| && 0 <= to < |cs|
    && FreeListOk(cs')
    && (forall k {:trigger Free(cs', k)} :: Free(cs', k) <==> (Free(cs, k) && k != to) || k == from)
    && cs'[to] == Cell(cs[from].base, s)
    && (forall k {:trigger cs'[k]} :: 0 <= k < |cs| && cs[k].check >= 0 && k != from && k != to ==>
          cs'[k] == if cs[k].check == from then cs[k].(check := to) else cs[k])
  }

  lemma MoveOne(cs0: seq<Cell>, cs: seq<Cell>, cs': seq<Cell>, s: int, ob: int, nb: int, done: seq<Sym>, c: Sym)
    requires Relocating(cs0, cs, s, ob, nb, done) && s >= 2 && cs0[0].check == |cs0| && 2 <= ob + c < |cs0|
    requires OneMoved(cs, cs', s, ob + c, nb + c)
    requires c !in done && cs0[ob + c].check == s && s != ob + c && s - ob !in done
    requires AllFree(cs0, nb, done + [c])
    ensures Relocating(cs0, cs', s, ob, nb, done + [c])
  {
    var done' := done + [c];
    assert FreeAt(cs0, nb, c);
    assert cs[ob + c] == Reparented(cs0, ob, nb, done, ob + c);
    forall k {:trigger cs'[k]} | 2 <= k < |cs0| && cs0[k].check >= 0 && k - ob !in done'
      ensures cs'[k] == Reparented(cs0, ob, nb, done', k)
    {
      assert k - ob !in done && k != ob + c && k != nb + c;
      assert cs[k] == Reparented(cs0, ob, nb, done, k);
      if cs0[k].check - ob in done {
        assert FreeAt(cs0, nb, cs0[k].check - ob);
      }
    }
    forall d {:trigger MovedTo(cs0, cs', s, ob, nb, d)} | d in done'
      ensures MovedTo(cs0, cs', s, ob, nb, d)
    {
      if d != c {
        assert FreeAt(cs0, nb, d) && MovedTo(cs0, cs, s, ob, nb, d);
      }
    }
    forall k {:trigger Free(cs', k)}
      ensures Free(cs', k) <==> (Free(cs0, k) && k - nb !in done') || k - ob in done'
    {
      if k - ob in done {
        assert MovedTo(cs0, cs, s, ob, nb, k - ob);
      }
      assert k - ob in done' <==> k - ob in done || k == ob + c;
      assert k - nb in done' <==> k - nb in done || k == nb + c;
    }
    assert forall k {:trigger k - ob in done'} :: k - ob in done' <==> k - ob in done || k == ob + c;
    assert forall k {:trigger k - nb in done'} :: k - nb in done' <==> k - nb in done || k == nb + c;
  }

  /** The children of s, by their arc labels. */
  ghost predicate Arcs(cs: seq<Cell>, path: map<int, Label>, s: int, syms: seq<Sym>) {
    && s in path && 0 <= s < |cs|
    && (forall n {:trigger n in path} :: n in path && 0 <= n < |cs| && cs[n].check == s ==> n - cs[s].base in syms)
    && (forall c {:trigger ArcTo(cs, path, s, c)} :: c in syms ==> ArcTo(cs, path, s, c))
  }

  ghost predicate ArcTo(cs: seq<Cell>, path: map<int, Label>, s: int, c: Sym)
    requires 0 <= s < |cs|
  {
    var n := cs[s].base + c;
    n in path && 0 <= n < |cs| && cs[n].check == s
  }

  /** Symbol c has a free cell behind base b. */
  ghost predicate FreeAt(cs: seq<Cell>, b: int, c: Sym) {
    Free(cs, b + c)
  }

  ghost predicate AllFree(cs: seq<Cell>, b: int, syms: seq<Sym>) {
    forall c {:trigger FreeAt(cs, b, c)} :: c in syms ==> FreeAt(cs, b, c)
  }

  /** Where node n goes when the children of s move from base ob to base nb. */
  function NewHome(ob: int, nb: int, syms: seq<Sym>, n: int): int {
    if n - ob in syms then n - ob + nb else n
  }

  /** The nodes keep their place in the tree but may live in other cells: `ren` and its
      inverse `inv` say which. */
  ghost predicate Renames(cs: seq<Cell>, path: map<int, Label>, cs': seq<Cell>, ren: map<int, int>, inv: map<int, int>)
    requires forall n :: n in path ==> 0 <= n < |cs|
  {
    && (forall m {:trigger m in inv} :: m in inv <==> 2 <= m < |cs'| && cs'[m].check >= 0)
    && (forall n {:trigger ren[n]} :: n in path ==> n in ren && ren[n] in inv && inv[ren[n]] == n)
    && (forall m {:trigger inv[m]} :: m in inv ==> inv[m] in path && inv[m] in ren && ren[inv[m]] == m)
    && (forall n {:trigger RenamedCell(cs, path, cs', ren, n)} :: n in path && n in ren ==>
          RenamedCell(cs, path, cs', ren, n))
  }

  ghost predicate RenamedCell(cs: seq<Cell>, path: map<int, Label>, cs': seq<Cell>, ren: map<int, int>, n: int)
    requires n in path && 0 <= n < |cs| && n in ren
  {
    var n', p := ren[n], cs[n].check;
    && 0 <= n' < |cs'|
    && KindOf(cs'[n'].base) == KindOf(cs[n].base)
    && (cs'[n'].base >= POOL_BEGIN <==> cs[n].base >= POOL_BEGIN)
    && (cs'[n'].base <= 0 || POOL_BEGIN <= cs'[n'].base <= |cs'|)
    && if n == ROOT then n' == ROOT && cs'[n'].check == 0
       else p in ren && 0 <= p < |cs| && 0 <= ren[p] < |cs'| && cs'[n'].check == ren[p] &&
            n' - cs'[ren[p]].base == n - cs[p].base
  }

  function RenPath(path: map<int, Label>, inv: map<int, int>): map<int, Label>
    requires forall m {:trigger inv[m]} :: m in inv ==> inv[m] in path
  {
    map m | m in inv :: path[inv[m]]
  }

  function RenNode(node: map<Label, int>, ren: map<int, int>): map<Label, int>
    requires forall p {:trigger node[p]} :: p in node ==> node[p] in ren
  {
    map p | p in node :: ren[node[p]]
  }

  /** Renaming cells keeps the tree: the same label sequences with the same kinds. */
  lemma RenamedTree(cs: seq<Cell>, path: map<int, Label>, node: map<Label, int>, cs': seq<Cell>, ren: map<int, int>,
                    inv: map<int, int>)
    requires NodesOk(cs, path, node) && |cs'| >= POOL_BEGIN && Renames(cs, path, cs', ren, inv)
    requires forall p {:trigger node[p]} :: p in node ==> node[p] in ren
    ensures NodesOk(cs', RenPath(path, inv), RenNode(node, ren))
    ensures Tree(cs', RenPath(path, inv), RenNode(node, ren)) == Tree(cs, path, node)
  {
    var path', node' := RenPath(path, inv), RenNode(node, ren);
    forall m {:trigger ChildOk(cs', path', m)} | m in path' && m != ROOT
      ensures ChildOk(cs', path', m)
    {
      var n := inv[m];
      assert RenamedCell(cs, path, cs', ren, n) && RenamedCell(cs, path, cs', ren, ROOT);
      assert ChildOk(cs, path, n);
      assert RenamedCell(cs, path, cs', ren, cs[n].check);
    }
    assert RenamedCell(cs, path, cs', ren, ROOT);
    forall m {:trigger path'[m]} | m in path'
      ensures path'[m] in node' && node'[path'[m]] == m
    {
      var n := inv[m];
      assert n in path;
      assert path[n] in node && node[path[n]] == n;
    }
    forall m {:trigger cs'[m].base} | m in path'
      ensures cs'[m].base <= 0 || POOL_BEGIN <= cs'[m].base <= |cs'|
    {
      assert RenamedCell(cs, path, cs', ren, inv[m]);
    }
    forall p {:trigger node'[p]} | p in node'
      ensures node'[p] in path' && path'[node'[p]] == p && KindOf(cs'[node'[p]].base) == KindOf(cs[node[p]].base)
    {
      assert RenamedCell(cs, path, cs', ren, node[p]);
    }
  }

  /** What holds when the children `syms` of s have been moved from base ob to base nb. */
  ghost predicate Relocated(cs0: seq<Cell>, cs: seq<Cell>, path: map<int, Label>, s: int, nb: int, syms: seq<Sym>) {
    && Arcs(cs0, path, s, syms) && 2 <= s && cs0[s].base >= POOL_BEGIN && cs0[s].check >= 0
    && POOL_BEGIN <= nb <= |cs0| && AllFree(cs0, nb, syms)
    && Relocating(cs0, cs, s, cs0[s].base, nb, syms)
    && s - cs0[s].base !in syms && ROOT - cs0[s].base !in syms && cs0[s].check - cs0[s].base !in syms
  }

  function RenMap(path: map<int, Label>, ob: int, nb: int, syms: seq<Sym>): map<int, int> {
    map n | n in path :: NewHome(ob, nb, syms, n)
  }

  function InvMap(cs: seq<Cell>, ob: int, nb: int, syms: seq<Sym>): map<int, int> {
    map m | 2 <= m < |cs| && cs[m].check >= 0 :: if m - nb in syms then m - nb + ob else m
  }

  /** The renaming that goes with a relocation. */
  lemma RelocationRenames(cs0: seq<Cell>, cs: seq<Cell>, path: map<int, Label>, node: map<Label, int>,
                          s: int, nb: int, syms: seq<Sym>, ren: map<int, int>, inv: map<int, int>)
    requires NodesOk(cs0, path, node) && Relocated(cs0, cs, path, s, nb, syms)
    requires ren == RenMap(path, cs0[s].base, nb, syms) && inv == InvMap(SetBase(cs, s, nb), cs0[s].base, nb, syms)
    ensures Renames(cs0, path, SetBase(cs, s, nb), ren, inv)
  {
    var cs' := SetBase(cs, s, nb);
    forall n {:trigger ren[n]} | n in path
      ensures n in ren && ren[n] in inv && inv[ren[n]] == n
    {
      RelocatedThere(cs0, cs, path, node, s, nb, syms, ren, inv, n);
    }
    forall m {:trigger inv[m]} | m in inv
      ensures inv[m] in path && inv[m] in ren && ren[inv[m]] == m
    {
      RelocatedBack(cs0, cs, path, node, s, nb, syms, ren, inv, m);
    }
    forall n {:trigger RenamedCell(cs0, path, cs', ren, n)} | n in path && n in ren
      ensures RenamedCell(cs0, path, cs', ren, n)
    {
      RelocatedRenamed(cs0, cs, path, node, s, nb, syms, ren, n);
    }
  }

  lemma RelocatedThere(cs0: seq<Cell>, cs: seq<Cell>, path: map<int, Label>, node: map<Label, int>,
                       s: int, nb: int, syms: seq<Sym>, ren: map<int, int>, inv: map<int, int>, n: int)
    requires NodesOk(cs0, path, node) && Relocated(cs0, cs, path, s, nb, syms) && n in path
    requires ren == RenMap(path, cs0[s].base, nb, syms) && inv == InvMap(SetBase(cs, s, nb), cs0[s].base, nb, syms)
    ensures n in ren && ren[n] in inv && inv[ren[n]] == n
  {
    var ob := cs0[s].base;
    RelocatedCell(cs0, cs, path, s, nb, syms, n);
    var m := ren[n];
    assert m in inv by {
      assert NewHome(ob, nb, syms, cs0[n].check) >= 0;
    }
    if m - nb in syms {
      assert FreeAt(cs0, nb, m - nb);
    }
  }

  lemma RelocatedBack(cs0: seq<Cell>, cs: seq<Cell>, path: map<int, Label>, node: map<Label, int>,
                      s: int, nb: int, syms: seq<Sym>, ren: map<int, int>, inv: map<int, int>, m: int)
    requires NodesOk(cs0, path, node) && Relocated(cs0, cs, path, s, nb, syms) && m in inv
    requires ren == RenMap(path, cs0[s].base, nb, syms) && inv == InvMap(SetBase(cs, s, nb), cs0[s].base, nb, syms)
    ensures inv[m] in path && inv[m] in ren && ren[inv[m]] == m
  {
    var ob := cs0[s].base;
    assert cs[m].check >= 0 && !Free(cs, m);
    if m - nb in syms {
      assert ArcTo(cs0, path, s, m - nb);
    } else {
      assert !Free(cs0, m) && m - ob !in syms;
    }
  }

  lemma RelocatedRenamed(cs0: seq<Cell>, cs: seq<Cell>, path: map<int, Label>, node: map<Label, int>,
                         s: int, nb: int, syms: seq<Sym>, ren: map<int, int>, n: int)
    requires NodesOk(cs0, path, node) && Relocated(cs0, cs, path, s, nb, syms) && n in path
    requires ren == RenMap(path, cs0[s].base, nb, syms)
    ensures RenamedCell(cs0, path, SetBase(cs, s, nb), ren, n)
  {
    RelocatedCell(cs0, cs, path, s, nb, syms, n);
    if n != ROOT {
      assert ChildOk(cs0, path, n);
      var p := cs0[n].check;
      RelocatedCell(cs0, cs, path, s, nb, syms, p);
      if n - cs0[s].base in syms {
        assert ArcTo(cs0, path, s, n - cs0[s].base);
        assert p == s && p - cs0[s].base !in syms;
      } else if p == s {
        assert false;
      }
    }
  }

  lemma RelocatedCell(cs0: seq<Cell>, cs: seq<Cell>, path: map<int, Label>, s: int, nb: int, syms: seq<Sym>, n: int)
    requires Relocated(cs0, cs, path, s, nb, syms)
    requires n in path && 2 <= n < |cs0| && cs0[n].check >= 0
    ensures var ob := cs0[s].base; var n' := NewHome(ob, nb, syms, n);
            && 2 <= n' < |cs|
            && SetBase(cs, s, nb)[n'] == Cell(if n == s then nb else cs0[n].base, NewHome(ob, nb, syms, cs0[n].check))
  {
    var ob := cs0[s].base;
    if n - ob in syms {
      assert ArcTo(cs0, path, s, n - ob) && MovedTo(cs0, cs, s, ob, nb, n - ob) && FreeAt(cs0, nb, n - ob);
    } else {
      assert cs[n] == Reparented(cs0, ob, nb, syms, n);
    }
  }

  // ---------------------------------------------------------------- adding and removing one node

  /** A node and its parent are neither of them among the node's children. */
  lemma NoCycle(cs: seq<Cell>, path: map<int, Label>, node: map<Label, int>, s: int, n: int)
    requires NodesOk(cs, path, node) && s in path && n in path && cs[n].check == s
    ensures n != s && n != ROOT && n != cs[s].check
  {
    assert ChildOk(cs, path, n);
    if s != ROOT {
      assert ChildOk(cs, path, s);
    }
  }

  /** A free cell next to base nb of s becomes the child of s along c. */
  lemma AddedNode(cs: seq<Cell>, path: map<int, Label>, node: map<Label, int>, cs': seq<Cell>, s: int, c: Sym, nb: int)
    requires NodesOk(cs, path, node) && s in path && path[s] + [c] !in node
    requires nb >= POOL_BEGIN && (cs[s].base == nb || cs[s].base <= 0)
    requires |cs'| == |cs| && nb + c < |cs| && nb + c !in path && cs'[nb + c].check == s && cs'[nb + c].base <= 0
    requires forall i {:trigger cs'[i]} :: 2 <= i < |cs'| && cs'[i].check >= 0 ==> i in path || i == nb + c
    requires forall n {:trigger n in path} :: n in path && n != s ==> cs'[n] == cs[n]
    requires cs'[s] == Cell(nb, cs[s].check)
    ensures var path', node' := path[nb + c := path[s] + [c]], node[path[s] + [c] := nb + c];
            NodesOk(cs', path', node') &&
            Tree(cs', path', node')
            == Tree(cs, path, node)[path[s] := Branch][path[s] + [c] := KindOf(cs'[nb + c].base)]
  {
    var next, q := nb + c, path[s] + [c];
    var path', node' := path[next := q], node[q := next];
    forall n {:trigger ChildOk(cs', path', n)} | n in path' && n != ROOT
      ensures ChildOk(cs', path', n)
    {
      if n != next {
        assert ChildOk(cs, path, n);
        if cs[n].check == s && cs[s].base <= 0 {
          assert false;
        }
      }
    }
    forall p {:trigger node'[p]} | p in node'
      ensures node'[p] in path' && path'[node'[p]] == p
    {
      if p != q { assert node[p] in path; }
    }
    forall p {:trigger node[p]} | p in node && p != path[s]
      ensures cs'[node[p]] == cs[node[p]]
    {
      assert node[p] in path && node[path[s]] == s;
    }
  }

  lemma Attached(cs: seq<Cell>, path: map<int, Label>, node: map<Label, int>, cs': seq<Cell>, s: int, c: Sym, next: int)
    requires Inv(cs, path, node) && s in path && path[s] + [c] !in node
    requires next - c >= POOL_BEGIN && (cs[s].base == next - c || cs[s].base <= 0) && FreeAt(cs, next - c, c)
    requires FreeListOk(cs') && |cs'| == |cs| && cs'[next].check == s && cs'[next].base < 0
    requires forall i {:trigger cs'[i]} :: 0 <= i < |cs| && i != next ==> (cs'[i].check < 0 <==> cs[i].check < 0)
    requires forall i {:trigger cs'[i]} :: 0 <= i < |cs| && cs[i].check >= 0 ==> cs'[i] == SetBase(cs, s, next - c)[i]
    ensures var path', node' := path[next := path[s] + [c]], node[path[s] + [c] := next];
            Inv(cs', path', node') &&
            BranchAdded(Tree(cs, path, node), path[s], c, cs', path', Tree(cs', path', node'), s, next)
  {
    AddedNode(cs, path, node, cs', s, c, next - c);
  }

  /** A childless node leaves the tree. */
  lemma RemovedNode(cs: seq<Cell>, path: map<int, Label>, node: map<Label, int>, cs': seq<Cell>, s: int)
    requires NodesOk(cs, path, node) && s in path && s != ROOT
    requires forall n {:trigger n in path} :: n in path ==> cs[n].check != s
    requires |cs'| == |cs| && cs'[s].check < 0
    requires forall i {:trigger cs'[i]} :: 2 <= i < |cs'| && cs'[i].check >= 0 ==> i in path
    requires forall n {:trigger n in path} :: n in path && n != s ==> cs'[n] == cs[n]
    ensures NodesOk(cs', path - {s}, node - {path[s]})
    ensures Tree(cs', path - {s}, node - {path[s]}) == Tree(cs, path, node) - {path[s]}
  {
    var path', node' := path - {s}, node - {path[s]};
    forall n {:trigger ChildOk(cs', path', n)} | n in path' && n != ROOT
      ensures ChildOk(cs', path', n)
    {
      assert ChildOk(cs, path, n);
    }
    forall n {:trigger path'[n]} | n in path'
      ensures path'[n] in node' && node'[path'[n]] == n
    {
      assert node[path[n]] == n && node[path[s]] == s;
    }
    forall p {:trigger node'[p]} | p in node'
      ensures node'[p] in path' && path'[node'[p]] == p && cs'[node'[p]] == cs[node[p]]
    {
      assert node[p] in path && path[node[p]] == p;
    }
  }

  lemma FreeListSame(cs: seq<Cell>, cs': seq<Cell>)
    requires FreeListOk(cs) && |cs'| == |cs|
    requires forall i {:trigger cs'[i]} ::
              0 <= i < |cs| ==> (cs'[i].check < 0 <==> cs[i].check < 0) && (cs[i].check < 0 ==> cs'[i] == cs[i])
    ensures FreeListOk(cs')
    ensures forall i {:trigger Free(cs', i)} :: Free(cs', i) <==> Free(cs, i)
  {
    assert forall k {:trigger Free(cs', k)} :: Free(cs', k) ==> Free(cs, k);
    forall i {:trigger Linked(cs', i)} | Free(cs', i)
      ensures Linked(cs', i)
    {
      assert Free(cs, i) && Linked(cs, i);
    }
  }

  /** The arcs of s are the label sequences one longer than its own. */
  lemma ArcsAreLabels(cs: seq<Cell>, path: map<int, Label>, node: map<Label, int>, s: int, syms: seq<Sym>)
    requires NodesOk(cs, path, node) && Arcs(cs, path, s, syms) && cs[s].base > 0
    ensures forall c: Sym {:trigger c in syms} :: c in syms <==> path[s] + [c] in node
    ensures s - cs[s].base !in syms && ROOT - cs[s].base !in syms && cs[s].check - cs[s].base !in syms
  {
    forall c: Sym {:trigger c in syms} ensures c in syms <==> path[s] + [c] in node {
      ArcIff(cs, path, node, s, c);
      if c in syms { assert ArcTo(cs, path, s, c); }
    }
    forall c {:trigger c in syms} | c in syms
      ensures cs[s].base + c != s && cs[s].base + c != ROOT && cs[s].base + c != cs[s].check
    {
      assert ArcTo(cs, path, s, c);
      NoCycle(cs, path, node, s, cs[s].base + c);
    }
  }

  lemma StillAChild(cs0: seq<Cell>, cs: seq<Cell>, path: map<int, Label>, node: map<Label, int>,
                    s: int, nb: int, done: seq<Sym>, from: int, k: int)
    requires NodesOk(cs0, path, node) && s in path && cs0[0].check == |cs0|
    requires AllFree(cs0, nb, done) && Relocating(cs0, cs, s, cs0[s].base, nb, done)
    requires from in path && from - cs0[s].base !in done && from != s && cs[from].base == cs0[from].base
    requires 0 <= k < |cs| && cs[k].check == from
    ensures cs[from].base > 0 && 0 <= k - cs[from].base < 0x80
  {
    assert k >= 2 && !Free(cs, k);
    assert k - nb in done ==> MovedTo(cs0, cs, s, cs0[s].base, nb, k - nb);
    assert cs[k] == Reparented(cs0, cs0[s].base, nb, done, k);
    assert cs0[k].check - cs0[s].base in done ==> FreeAt(cs0, nb, cs0[k].check - cs0[s].base);
    assert k in path && k != ROOT;
    assert ChildOk(cs0, path, k);
  }

  /** In the middle of a relocation the next child is still where it was, with all its children. */
  lemma BeforeMove(cs0: seq<Cell>, cs: seq<Cell>, path: map<int, Label>, node: map<Label, int>,
                   s: int, nb: int, syms: seq<Sym>, i: int)
    requires NodesOk(cs0, path, node) && Arcs(cs0, path, s, syms) && cs0[s].base > 0 && StrictlyUp(syms)
    requires 0 <= i < |syms|
    requires nb >= POOL_BEGIN && AllFree(cs0, nb, syms) && cs0[0].check == |cs0|
    requires s - cs0[s].base !in syms
    requires Relocating(cs0, cs, s, cs0[s].base, nb, syms[..i])
    ensures var from, to := cs0[s].base + syms[i], nb + syms[i];
            && Free(cs, to) && to != FREE_LIST && syms[i] !in syms[..i] && s - cs0[s].base !in syms[..i]
            && 2 <= from < |cs| && cs0[from].check == s && cs[from].check == s && from != s
            && AllFree(cs0, nb, syms[..i] + [syms[i]])
            && forall k {:trigger cs[k]} :: 0 <= k < |cs| && cs[k].check == from ==>
                  cs[from].base > 0 && 0 <= k - cs[from].base < 0x80
  {
    var ob, done, c := cs0[s].base, syms[..i], syms[i];
    var from := ob + c;
    assert c in syms && ArcTo(cs0, path, s, c) && FreeAt(cs0, nb, c);
    assert c !in done;
    assert forall d {:trigger d in done} :: d in done ==> d in syms;
    assert cs[from] == Reparented(cs0, ob, nb, done, from);
    forall k {:trigger cs[k]} | 0 <= k < |cs| && cs[k].check == from
      ensures cs[from].base > 0 && 0 <= k - cs[from].base < 0x80
    {
      StillAChild(cs0, cs, path, node, s, nb, done, from, k);
    }
    assert forall d: Sym {:trigger FreeAt(cs0, nb, d)} :: d in done + [c] ==> d in syms;
  }

  /** A finished relocation: the invariant and the tree are back. */
  lemma RelocationDone(cs0: seq<Cell>, cs: seq<Cell>, path: map<int, Label>, node: map<Label, int>, s: int, nb: int,
                       syms: seq<Sym>, ren: map<int, int>, inv: map<int, int>)
    requires Inv(cs0, path, node) && Relocated(cs0, cs, path, s, nb, syms)
    requires ren == RenMap(path, cs0[s].base, nb, syms) && inv == InvMap(SetBase(cs, s, nb), cs0[s].base, nb, syms)
    ensures Renames(cs0, path, SetBase(cs, s, nb), ren, inv)
    ensures Inv(SetBase(cs, s, nb), RenPath(path, inv), RenNode(node, ren))
    ensures Tree(SetBase(cs, s, nb), RenPath(path, inv), RenNode(node, ren)) == Tree(cs0, path, node)
  {
    RelocationRenames(cs0, cs, path, node, s, nb, syms, ren, inv);
    RelocatedFreeList(cs0, cs, path, s, nb, syms);
    RenamedTree(cs0, path, node, SetBase(cs, s, nb), ren, inv);
  }

  /** The same with what it leaves alone. */
  lemma RelocationEnds(cs0: seq<Cell>, cs: seq<Cell>, path: map<int, Label>, node: map<Label, int>, s: int, nb: int,
                       syms: seq<Sym>)
    returns (path': map<int, Label>, node': map<Label, int>)
    requires Inv(cs0, path, node) && Relocated(cs0, cs, path, s, nb, syms)
    ensures Inv(SetBase(cs, s, nb), path', node') && Tree(SetBase(cs, s, nb), path', node') == Tree(cs0, path, node)
    ensures s in path' && SetBase(cs, s, nb)[s].base == nb && Handles(path, path', cs0, s) && node'.Keys == node.Keys
    ensures forall c: Sym {:trigger FreeAt(SetBase(cs, s, nb), nb, c)} ::
              FreeAt(cs0, nb, c) && c !in syms ==> FreeAt(SetBase(cs, s, nb), nb, c)
  {
    var ren, inv := RenMap(path, cs0[s].base, nb, syms), InvMap(SetBase(cs, s, nb), cs0[s].base, nb, syms);
    RelocationDone(cs0, cs, path, node, s, nb, syms, ren, inv);
    RelocationFrame(cs0, cs, path, s, nb, syms, ren, inv);
    RelocatedFreeList(cs0, cs, path, s, nb, syms);
    path', node' := RenPath(path, inv), RenNode(node, ren);
  }

  lemma RelocatedFreeList(cs0: seq<Cell>, cs: seq<Cell>, path: map<int, Label>, s: int, nb: int, syms: seq<Sym>)
    requires Relocated(cs0, cs, path, s, nb, syms)
    ensures FreeListOk(SetBase(cs, s, nb)) && SetBase(cs, s, nb)[0] == cs0[0] && SetBase(cs, s, nb)[s].base == nb
  {
    assert cs[s] == Reparented(cs0, cs0[s].base, nb, syms, s);
    FreeListSame(cs, SetBase(cs, s, nb));
  }

  /** It moves only children of s, and the rest of the free cells stay free. */
  lemma RelocationFrame(cs0: seq<Cell>, cs: seq<Cell>, path: map<int, Label>, s: int, nb: int,
                        syms: seq<Sym>, ren: map<int, int>, inv: map<int, int>)
    requires Relocated(cs0, cs, path, s, nb, syms)
    requires forall n {:trigger n in path} :: n in path ==> 0 <= n < |cs0|
    requires Renames(cs0, path, SetBase(cs, s, nb), ren, inv)
    requires ren == RenMap(path, cs0[s].base, nb, syms)
    ensures Handles(path, RenPath(path, inv), cs0, s)
    ensures forall c: Sym {:trigger FreeAt(SetBase(cs, s, nb), nb, c)} ::
              FreeAt(cs0, nb, c) && c !in syms ==> FreeAt(SetBase(cs, s, nb), nb, c)
  {
    forall n {:trigger n in path} | n in path && (cs0[n].check != s || n == s)
      ensures n in inv && inv[n] == n
    {
      assert n - cs0[s].base in syms ==> ArcTo(cs0, path, s, n - cs0[s].base);
      assert ren[n] == n;
    }
    forall c: Sym {:trigger FreeAt(SetBase(cs, s, nb), nb, c)} | FreeAt(cs0, nb, c) && c !in syms
      ensures FreeAt(SetBase(cs, s, nb), nb, c)
    {
      assert Free(cs, nb + c);
    }
  }

  /** Every node that is not a child of s keeps its cell. */
  ghost predicate Handles(path: map<int, Label>, path': map<int, Label>, cs: seq<Cell>, s: int) {
    forall n {:trigger n in path'} {:trigger n in path} ::
      n in path && 0 <= n < |cs| && (cs[n].check != s || n == s) ==> n in path' && path'[n] == path[n]
  }

  /** Node `next` is new below s along c, still marked separate; else the tree is as it was. */
  ghost predicate BranchAdded(t: map<Label, Kind>, ls: Label, c: Sym, cs': seq<Cell>, path': map<int, Label>,
                              t': map<Label, Kind>,
                              s: int, next: int)
  {
    && next in path' && path'[next] == ls + [c] && 0 <= next < |cs'| && cs'[next].base < 0
    && s in path' && path'[s] == ls && 0 <= s < |cs'| && cs'[s].base > 0
    && t' == t[ls := Branch][ls + [c] := Separate(-cs'[next].base)]
  }

  lemma LeafSet(cs: seq<Cell>, path: map<int, Label>, node: map<Label, int>, n: int, v: int)
    requires NodesOk(cs, path, node) && n in path && v <= 0
    requires forall m {:trigger m in path} :: m in path ==> cs[m].check != n
    ensures NodesOk(SetBase(cs, n, v), path, node)
    ensures Tree(SetBase(cs, n, v), path, node) == Tree(cs, path, node)[path[n] := KindOf(v)]
  {
    var cs' := SetBase(cs, n, v);
    forall m {:trigger ChildOk(cs', path, m)} | m in path && m != ROOT
      ensures ChildOk(cs', path, m)
    {
      assert ChildOk(cs, path, m);
    }
    forall p {:trigger node[p]} | p in node && p != path[n]
      ensures cs'[node[p]] == cs[node[p]]
    {
      assert node[p] in path && node[path[n]] == n;
    }
  }

  class DArray {
    var cells: seq<Cell>
    ghost var path: map<int, Label>
    ghost var node: map<Label, int>

    ghost predicate Valid()
      reads this
    {
      Inv(cells, path, node)
    }

    ghost function Contents(): map<Label, Kind>
      requires Valid()
      reads this
    {
      Tree(cells, path, node)
    }

    constructor ()
      ensures Valid() && Contents() == map[[] := Branch]
      ensures |cells| == POOL_BEGIN
    {
      cells := [Cell(SIGNATURE, POOL_BEGIN), Cell(-1, -1), Cell(POOL_BEGIN, 0)];
      path := map[ROOT := []];
      node := map[[] := ROOT];
      new;
      assert Linked(cells, 1);
    }

    /** What darray_fmread leaves: cells taken as they are. */
    constructor FromCells(cs: seq<Cell>, ghost path: map<int, Label>, ghost node: map<Label, int>)
      requires Inv(cs, path, node)
      ensures cells == cs && this.path == path && this.node == node
    {
      cells := cs;
      this.path := path;
      this.node := node;
    }

    function GetBase(s: int): int
      requires 0 <= s
      reads this
    {
      if s < |cells| then cells[s].base else INDEX_ERROR
    }

    function GetCheck(s: int): int
      requires 0 <= s
      reads this
    {
      if s < |cells| then cells[s].check else INDEX_ERROR
    }

    /** One step along the arc labelled c. */
    method Walk(s: int, c: Sym) returns (ok: bool, next: int)
      requires Valid() && s in path && cells[s].base > 0
      ensures ok <==> path[s] + [c] in node
      ensures next == if ok then node[path[s] + [c]] else s
    {
      ArcIff(cells, path, node, s, c);
      next := GetBase(s) + c;
      if GetCheck(next) == s {
        return true, next;
      }
      return false, s;
    }

    method ExtendPool(toIndex: int) returns (ok: bool)
      requires Valid()
      modifies this`cells
      ensures Valid()
      ensures ok <==> 0 < toIndex < INDEX_MAX
      ensures |cells| == if ok && toIndex >= old(|cells|) then toIndex + 1 else old(|cells|)
      ensures SameNodes(old(cells), cells, path)
      ensures forall i {:trigger Free(cells, i)} ::
                Free(cells, i) <==> Free(old(cells), i) || old(|cells|) <= i < |cells|
    {
      if toIndex <= 0 || INDEX_MAX <= toIndex {
        return false;
      }
      if toIndex < |cells| {
        return true;
      }
      var newBegin := |cells|;
      ChainNewCells(toIndex);
      assert Linked(old(cells), FREE_LIST);
      MergeNewCells(old(cells), newBegin, toIndex);
      ExtendKeepsList(old(cells), -old(cells)[FREE_LIST].base, cells);
      NodesCarry(old(cells), path, node, cells);
      return true;
    }

    /** The first half of growing the pool: the new cells become a chain of their own. */
    method ChainNewCells(toIndex: int)
      requires 0 < |cells| <= toIndex
      modifies this`cells
      ensures |cells| == toIndex + 1 && cells[..old(|cells|)] == old(cells)
      ensures forall k {:trigger cells[k]} :: old(|cells|) <= k < toIndex ==> cells[k].check == -(k + 1)
      ensures forall k {:trigger cells[k]} :: old(|cells|) < k <= toIndex ==> cells[k].base == -(k - 1)
    {
      // the grown part starts out with arbitrary contents, here zeros
      var newBegin := |cells|;
      cells := cells + seq(toIndex + 1 - newBegin, _ => Cell(0, 0));
      for i := newBegin to toIndex
        invariant |cells| == toIndex + 1 && cells[..newBegin] == old(cells)
        invariant forall k {:trigger cells[k]} :: newBegin <= k < i ==> cells[k].check == -(k + 1)
        invariant forall k {:trigger cells[k]} :: newBegin < k <= i ==> cells[k].base == -(k - 1)
      {
        cells := SetCheck(cells, i, -(i + 1));
        cells := SetBase(cells, i + 1, -i);
      }
    }

    /** The second half: the chain is spliced in between the last free cell and the list head. */
    method MergeNewCells(ghost cs: seq<Cell>, newBegin: int, toIndex: int)
      requires newBegin == |cs| && 1 < |cs| <= toIndex && |cells| == toIndex + 1 && cells[..|cs|] == cs
      requires 0 < -cs[FREE_LIST].base < |cs|
      requires forall k {:trigger cells[k]} :: |cs| <= k < toIndex ==> cells[k].check == -(k + 1)
      requires forall k {:trigger cells[k]} :: |cs| < k <= toIndex ==> cells[k].base == -(k - 1)
      modifies this`cells
      ensures |cells| == toIndex + 1 && cells[0] == cs[0].(check := |cells|)
      ensures forall i {:trigger cells[i]} :: 0 < i < |cells| ==> cells[i] == Extended(cs, |cells|, i)
    {
      var freeTail := -GetBase(FREE_LIST);
      cells := SetCheck(cells, freeTail, -newBegin);
      cells := SetBase(cells, newBegin, -freeTail);
      cells := SetCheck(cells, toIndex, -FREE_LIST);
      cells := SetBase(cells, FREE_LIST, -toIndex);
      cells := cells[0 := cells[0].(check := |cells|)];
    }

    /** Takes a cell out of the free list; its own two words still hold the old links. */
    method AllocCell(cell: int)
      requires FreeListOk(cells) && Free(cells, cell) && cell != FREE_LIST
      modifies this`cells
      ensures |cells| == old(|cells|)
      ensures forall i {:trigger cells[i]} :: 0 <= i < |cells| ==> cells[i] == Bridged(old(cells), cell, i)
      ensures cells[cell] == old(cells)[cell]
    {
      assert Linked(cells, cell);
      var prev, next := -GetBase(cell), -GetCheck(cell);
      cells := SetCheck(cells, prev, -next);
      cells := SetBase(cells, next, -prev);
    }

    /** Puts a cell back into the free list at its place. */
    method FreeCell(cell: int)
      requires FreeListOk(cells) && 1 < cell < |cells| && !Free(cells, cell)
      modifies this`cells
      ensures FreeListOk(cells) && |cells| == old(|cells|)
      ensures forall i {:trigger Free(cells, i)} :: Free(cells, i) <==> Free(old(cells), i) || i == cell
      ensures forall i {:trigger cells[i]} ::
                0 <= i < |cells| && !Free(old(cells), i) && i != cell ==> cells[i] == old(cells)[i]
    {
      var i := FindFreeSlot(cell);
      var prev := -GetBase(i);
      cells := SetCheck(cells, cell, -i);
      cells := SetBase(cells, cell, -prev);
      cells := SetCheck(cells, prev, -cell);
      cells := SetBase(cells, i, -cell);
      RelinkKeepsList(old(cells), cell, prev, i, cells);
    }

    /** The first free cell behind a used one, or the head of the list if there is none. */
    method FindFreeSlot(cell: int) returns (i: int)
      requires FreeListOk(cells) && 1 < cell < |cells| && !Free(cells, cell)
      ensures Free(cells, i) && Free(cells, -cells[i].base) && cells[-cells[i].base].check == -i
      ensures -cells[i].base < cell && (i == FREE_LIST || cell < i)
    {
      assert Linked(cells, FREE_LIST);
      i := -GetCheck(FREE_LIST);
      ghost var p := FREE_LIST;
      while i != FREE_LIST && i < cell
        invariant Free(cells, i) && Free(cells, p) && cells[p].check == -i && p < cell
        invariant i == FREE_LIST || p < i
        decreases if i == FREE_LIST then 0 else |cells| - i
      {
        assert Linked(cells, i);
        p := i;
        i := -GetCheck(i);
      }
      assert Linked(cells, p);
    }

    /** Whether any arc leaves s. */
    method HasChildren(s: int) returns (r: bool)
      requires Valid() && s in path
      ensures r <==> exists n :: n in path && cells[n].check == s
    {
      ChildRange(cells, path, node, s);
      var base := GetBase(s);
      if base == INDEX_ERROR || base < 0 {
        return false;
      }
      var maxC := if INDEX_MAX - base < CHAR_MAX then INDEX_MAX - base else CHAR_MAX;
      var c := 0;
      while c < maxC
        invariant 0 <= c
        invariant forall n {:trigger n in path} :: n in path && cells[n].check == s ==> c <= n - base
      {
        if GetCheck(base + c) == s {
          assert base + c in path;
          return true;
        }
        c := c + 1;
      }
      return false;
    }

    /** The labels of the arcs that leave s, in ascending order. */
    method OutputSymbols(s: int) returns (syms: seq<Sym>)
      requires Valid() && s in path && cells[s].base > 0
      ensures Arcs(cells, path, s, syms) && StrictlyUp(syms)
    {
      ChildRange(cells, path, node, s);
      syms := [];
      var base := GetBase(s);
      var maxC := if INDEX_MAX - base < CHAR_MAX then INDEX_MAX - base else CHAR_MAX;
      var c := 0;
      while c < maxC
        invariant 0 <= c && StrictlyUp(syms)
        invariant forall d {:trigger ArcTo(cells, path, s, d)} :: d in syms ==> ArcTo(cells, path, s, d)
        invariant forall d :: d in syms ==> d < c
        invariant forall n {:trigger n in path} :: n in path && cells[n].check == s && n - base < c ==> n - base in syms
      {
        if GetCheck(base + c) == s {
          assert base + c in path;
          ghost var was := syms;
          syms := AppendSym(syms, c);
        }
        c := c + 1;
      }
    }

    /** Whether all of base + symbols are free, growing the pool as far as that needs. */
    method FitSymbols(base: int, symbols: seq<Sym>) returns (ok: bool)
      requires Valid() && base >= POOL_BEGIN
      modifies this`cells
      ensures Valid() && Grown(old(cells), cells, path)
      ensures ok ==> AllFree(cells, base, symbols)
      ensures |cells| <= old(|cells|) || |cells| <= base + 0x80
      ensures !ok ==> base + 0x80 >= INDEX_MAX || exists c {:trigger c in symbols} :: c in symbols && base + c in path
    {
      for i := 0 to |symbols|
        invariant Valid() && Grown(old(cells), cells, path)
        invariant |cells| <= old(|cells|) || |cells| <= base + 0x80
        invariant forall j {:trigger symbols[j]} :: 0 <= j < i ==> FreeAt(cells, base, symbols[j])
      {
        var sym := symbols[i];
        if base > INDEX_MAX - sym {
          return false;
        }
        var grown := ExtendPool(base + sym);
        if !grown || GetCheck(base + sym) >= 0 {
          assert sym in symbols && (grown ==> base + sym in path);
          return false;
        }
      }
      return true;
    }

    /** The first free cell beyond the first symbol, growing the pool when there is none. */
    method StartCell(firstSym: Sym) returns (ok: bool, s: int)
      requires Valid()
      modifies this`cells
      ensures Valid() && Grown(old(cells), cells, path)
      ensures !ok ==> |cells| == INDEX_MAX
      ensures ok ==> Free(cells, s) && s >= firstSym + POOL_BEGIN
      ensures s < old(|cells|) + 0x80 && |cells| <= old(|cells|) + 0x80
    {
      assert Linked(cells, FREE_LIST);
      s := -GetCheck(FREE_LIST);
      while s != FREE_LIST && s < firstSym + POOL_BEGIN
        invariant Free(cells, s)
        decreases if s == FREE_LIST then 0 else |cells| - s
      {
        assert Linked(cells, s);
        s := -GetCheck(s);
      }
      if s != FREE_LIST {
        return true, s;
      }
      s := firstSym + POOL_BEGIN;
      while true
        invariant s >= firstSym + POOL_BEGIN && (s <= |cells| || s == firstSym + POOL_BEGIN)
        invariant |cells| <= old(|cells|) + 0x80
        invariant s < old(|cells|) + 0x80
        invariant forall n {:trigger n in path} :: n in path ==> n < old(|cells|)
        invariant Valid() && Grown(old(cells), cells, path)
        decreases INDEX_MAX - s
      {
        ok := ExtendPool(s);
        if !ok {
          return false, s;
        }
        if GetCheck(s) < 0 {
          return true, s;
        }
        assert s in path;
        s := s + 1;
      }
    }

    /** Makes newNext the parent of what oldNext was the parent of. */
    method ReparentChildren(base: int, oldNext: int, newNext: int)
      requires base >= 0 && oldNext >= 0 && newNext >= 0 && oldNext != newNext && |cells| <= INDEX_MAX
      modifies this`cells
      ensures |cells| == old(|cells|)
      ensures forall k {:trigger cells[k]} :: 0 <= k < |cells| ==>
                cells[k] == if base <= k < base + CHAR_MAX && old(cells)[k].check == oldNext
                      then old(cells)[k].(check := newNext)
                            else old(cells)[k]
    {
      var maxC := if INDEX_MAX - base < CHAR_MAX then INDEX_MAX - base else CHAR_MAX;
      var c := 0;
      while c < maxC
        invariant 0 <= c && |cells| == old(|cells|) && (0 <= maxC ==> c <= maxC)
        invariant forall k {:trigger cells[k]} :: 0 <= k < |cells| ==>
                    cells[k] == if base <= k < base + c && old(cells)[k].check == oldNext
                          then old(cells)[k].(check := newNext)
                                else old(cells)[k]
      {
        if GetCheck(base + c) == oldNext {
          cells := SetCheck(cells, base + c, newNext);
        }
        c := c + 1;
      }
    }

    /** Moves one child of s from the cell oldNext to the free cell newNext. */
    method MoveChild(s: int, oldNext: int, newNext: int)
      requires FreeListOk(cells) && Free(cells, newNext) && newNext != FREE_LIST && |cells| <= INDEX_MAX
      requires 2 <= oldNext < |cells| && cells[oldNext].check >= 0 && 2 <= s && s != oldNext
      requires cells[0].check == |cells|
      requires forall k {:trigger cells[k]} :: 0 <= k < |cells| && cells[k].check == oldNext ==>
                 cells[oldNext].base > 0 && 0 <= k - cells[oldNext].base < 0x80
      modifies this`cells
      ensures OneMoved(old(cells), cells, s, oldNext, newNext) && cells[0] == old(cells)[0]
    {
      var base := GetBase(oldNext);
      AllocCell(newNext);
      cells := SetCheck(cells, newNext, s);
      cells := SetBase(cells, newNext, base);
      UnlinkKeepsList(old(cells), newNext, cells);
      ghost var cs1 := cells;
      if base > 0 {
        ReparentChildren(base, oldNext, newNext);
      }
      ghost var cs2 := cells;
      FreeListSame(cs1, cs2);
      FreeCell(oldNext);
      forall k {:trigger cells[k]} | 0 <= k < |cells| && old(cells)[k].check >= 0 && k != oldNext && k != newNext
        ensures cells[k] == if old(cells)[k].check == oldNext then old(cells)[k].(check := newNext) else old(cells)[k]
      {
        assert cs1[k] == old(cells)[k];
        assert !Free(cs2, k);
      }
    }

    /** A base at which all the symbols fall on free cells, or INDEX_ERROR when the pool is exhausted. */
    method FindFreeBase(symbols: seq<Sym>) returns (r: int)
      requires Valid() && |symbols| > 0 && StrictlyUp(symbols)
      modifies this`cells
      ensures Valid() && Grown(old(cells), cells, path)
      ensures r == INDEX_ERROR || r >= POOL_BEGIN
      ensures r == INDEX_ERROR ==> |cells| == INDEX_MAX
      ensures r != INDEX_ERROR ==> AllFree(cells, r, symbols) && r <= |cells|
      ensures old(|cells|) + STRIDE < INDEX_MAX ==> r != INDEX_ERROR && |cells| <= old(|cells|) + STRIDE
    {
      ghost var n0 := |cells|;
      var ok, s, fits := FirstTry(symbols);
      while ok && !fits
        invariant Valid() && Grown(old(cells), cells, path)
        invariant ok ==> Free(cells, s) && s >= symbols[0] + POOL_BEGIN
        invariant n0 + STRIDE < INDEX_MAX ==> ok && s < n0 + 0x80 && |cells| <= n0 + STRIDE && (!fits ==> s < n0)
        invariant ok && fits ==> AllFree(cells, s - symbols[0], symbols)
        invariant !ok ==> |cells| == INDEX_MAX
        decreases ok, INDEX_MAX - s, !fits
      {
        ok, s, fits := TryNext(s, symbols, n0);
      }
      return if ok then s - symbols[0] else INDEX_ERROR;
    }

    /** Tries the symbols at the first free cell that is far enough in. */
    method FirstTry(symbols: seq<Sym>) returns (ok: bool, s: int, fits: bool)
      requires Valid() && |symbols| > 0 && StrictlyUp(symbols)
      modifies this`cells
      ensures Valid() && Grown(old(cells), cells, path)
      ensures ok ==> Free(cells, s) && s >= symbols[0] + POOL_BEGIN
      ensures ok && fits ==> AllFree(cells, s - symbols[0], symbols)
      ensures !ok ==> |cells| == INDEX_MAX
      ensures old(|cells|) + STRIDE < INDEX_MAX ==>
                ok && s < old(|cells|) + 0x80 && |cells| <= old(|cells|) + STRIDE && (!fits ==> s < old(|cells|))
    {
      ok, s := StartCell(symbols[0]);
      fits := false;
      if ok {
        assert forall n {:trigger n in path} :: n in path ==> n < old(|cells|);
        fits := FitSymbols(s - symbols[0], symbols);
      }
    }

    /** Goes to the next free cell and tries the symbols there. Beyond the last node, at n0 or
        above, everything is free and they fit. */
    method TryNext(s: int, symbols: seq<Sym>, ghost n0: int) returns (ok: bool, next: int, fits: bool)
      requires Valid() && |symbols| > 0 && StrictlyUp(symbols)
      requires Free(cells, s) && s >= symbols[0] + POOL_BEGIN
      requires forall n {:trigger n in path} :: n in path ==> n < n0
      modifies this`cells
      ensures Valid() && Grown(old(cells), cells, path)
      ensures ok ==> Free(cells, next) && s < next
      ensures ok && fits ==> AllFree(cells, next - symbols[0], symbols)
      ensures !ok ==> |cells| == INDEX_MAX
      ensures n0 + STRIDE < INDEX_MAX && s < n0 <= |old(cells)| <= n0 + STRIDE ==>
                ok && next <= n0 && |cells| <= n0 + STRIDE && (!fits ==> next < n0)
    {
      ok, next := NextFree(s);
      if !ok {
        return false, s, false;
      }
      assert n0 !in path;
      assert s < n0 < |cells| ==> Free(cells, n0);
      fits := FitSymbols(next - symbols[0], symbols);
    }

    /** The next free cell; the pool grows by one before it is exhausted. */
    method NextFree(s: int) returns (ok: bool, next: int)
      requires Valid() && Free(cells, s) && s != FREE_LIST
      modifies this`cells
      ensures Valid() && Grown(old(cells), cells, path)
      ensures ok ==> Free(cells, next) && s < next
      ensures ok ==> forall k {:trigger Free(cells, k)} :: Free(cells, k) ==> k <= s || next <= k
      ensures !ok ==> |cells| == INDEX_MAX
      ensures |cells| == old(|cells|) || (ok && |cells| == old(|cells|) + 1 && next == old(|cells|))
    {
      assert Linked(cells, s);
      if -GetCheck(s) == FREE_LIST {
        ghost var last := |cells|;
        ok := ExtendPool(|cells|);
        if !ok {
          return false, s;
        }
        assert Free(cells, last) && Linked(cells, s);
      }
      return true, -GetCheck(s);
    }

    /** The loop of the relocation: one child after the other. */
    method MoveChildren(s: int, oldBase: int, newBase: int, symbols: seq<Sym>)
      requires NodesOk(cells, path, node) && Arcs(cells, path, s, symbols) && StrictlyUp(symbols)
      requires FreeListOk(cells) && |cells| <= INDEX_MAX && cells[0].check == |cells|
      requires oldBase == cells[s].base > 0 && POOL_BEGIN <= newBase <= |cells| && AllFree(cells, newBase, symbols)
      requires s - oldBase !in symbols
      modifies this`cells
      ensures Relocating(old(cells), cells, s, oldBase, newBase, symbols)
    {
      ghost var cs0 := cells;
      for i := 0 to |symbols|
        invariant Relocating(cs0, cells, s, oldBase, newBase, symbols[..i])
      {
        MoveNth(cs0, s, oldBase, newBase, symbols, i);
      }
      assert symbols[..|symbols|] == symbols;
    }

    method MoveNth(ghost cs0: seq<Cell>, s: int, oldBase: int, newBase: int, symbols: seq<Sym>, i: int)
      requires NodesOk(cs0, path, node) && Arcs(cs0, path, s, symbols) && StrictlyUp(symbols) && 0 <= i < |symbols|
      requires |cs0| <= INDEX_MAX && cs0[0].check == |cs0|
      requires oldBase == cs0[s].base > 0 && newBase >= POOL_BEGIN && AllFree(cs0, newBase, symbols)
      requires s - oldBase !in symbols
      requires Relocating(cs0, cells, s, oldBase, newBase, symbols[..i])
      modifies this`cells
      ensures Relocating(cs0, cells, s, oldBase, newBase, symbols[..i + 1])
    {
      var oldNext, newNext := oldBase + symbols[i], newBase + symbols[i];
      assert symbols[i] in symbols;
      BeforeMove(cs0, cells, path, node, s, newBase, symbols, i);
      ghost var cs := cells;
      MoveChild(s, oldNext, newNext);
      MoveOne(cs0, cs, cells, s, oldBase, newBase, symbols[..i], symbols[i]);
      assert symbols[..i] + [symbols[i]] == symbols[..i + 1];
    }

    /** Moves the children of s to newBase, where all their cells are free. */
    method RelocateBase(s: int, newBase: int)
      requires Valid() && s in path && cells[s].base > 0 && POOL_BEGIN <= newBase <= |cells|
      requires forall c: Sym {:trigger FreeAt(cells, newBase, c)} :: path[s] + [c] in node ==> FreeAt(cells, newBase, c)
      modifies this`cells, this`path, this`node
      ensures Valid() && Contents() == old(Contents()) && |cells| == old(|cells|)
      ensures s in path && cells[s].base == newBase && Handles(old(path), path, old(cells), s)
      ensures node.Keys == old(node).Keys
      ensures forall c: Sym {:trigger FreeAt(cells, newBase, c)} ::
                FreeAt(old(cells), newBase, c) && old(path)[s] + [c] !in old(node) ==> FreeAt(cells, newBase, c)
    {
      var oldBase := GetBase(s);
      var symbols := OutputSymbols(s);
      ghost var cs0 := cells;
      ArcsAreLabels(cells, path, node, s, symbols);
      MoveChildren(s, oldBase, newBase, symbols);
      FinishRelocation(cs0, s, newBase, symbols);
    }

    /** Finally BASE of s points to the new base. */
    method FinishRelocation(ghost cs0: seq<Cell>, s: int, newBase: int, ghost symbols: seq<Sym>)
      requires Inv(cs0, path, node) && Relocated(cs0, cells, path, s, newBase, symbols)
      modifies this`cells, this`path, this`node
      ensures Inv(cells, path, node) && Tree(cells, path, node) == Tree(cs0, old(path), old(node)) && |cells| == |cs0|
      ensures s in path && cells[s].base == newBase && Handles(old(path), path, cs0, s)
      ensures node.Keys == old(node).Keys
      ensures forall c: Sym {:trigger FreeAt(cells, newBase, c)} ::
                FreeAt(cs0, newBase, c) && c !in symbols ==> FreeAt(cells, newBase, c)
    {
      ghost var path', node' := RelocationEnds(cs0, cells, path, node, s, newBase, symbols);
      cells := SetBase(cells, s, newBase);
      path, node := path', node';
    }

    /** Links the free cell next = BASE[s] + c in as a child of s. */
    method Attach(ghost cs: seq<Cell>, s: int, c: Sym, next: int)
      requires Inv(cs, path, node) && s in path && path[s] + [c] !in node
      requires next - c >= POOL_BEGIN && (cs[s].base == next - c || cs[s].base <= 0)
      requires FreeAt(cs, next - c, c) && cells == SetBase(cs, s, next - c)
      modifies this`cells, this`path, this`node
      ensures Valid()
      ensures |cells| == |cs|
      ensures path == old(path)[next := old(path)[s] + [c]] && node == old(node)[old(path)[s] + [c] := next]
      ensures BranchAdded(Tree(cs, old(path), old(node)), old(path)[s], c, cells, path, Contents(), s, next)
    {
      FreeListSame(cs, cells);
      TakeCell(next, s);
      Attached(cs, path, node, cells, s, c, next);
      path, node := path[next := path[s] + [c]], node[path[s] + [c] := next];
    }

    /** A free cell becomes a node below s, its BASE still holding the old link. */
    method TakeCell(cell: int, s: int)
      requires FreeListOk(cells) && Free(cells, cell) && cell != FREE_LIST && s >= 0
      modifies this`cells
      ensures FreeListOk(cells) && |cells| == old(|cells|)
      ensures cells[cell].check == s && cells[cell].base < 0
      ensures forall i {:trigger cells[i]} ::
                0 <= i < |cells| && i != cell ==> (cells[i].check < 0 <==> old(cells)[i].check < 0)
      ensures forall i {:trigger cells[i]} :: 0 <= i < |cells| && old(cells)[i].check >= 0 ==> cells[i] == old(cells)[i]
    {
      assert Linked(cells, cell);
      AllocCell(cell);
      cells := SetCheck(cells, cell, s);
      UnlinkKeepsList(old(cells), cell, cells);
      forall i {:trigger cells[i]} | 0 < i < |cells| && i != cell
        ensures cells[i].check < 0 <==> old(cells)[i].check < 0
      {
        assert Free(cells, i) <==> Free(old(cells), i);
      }
    }

    /** Inserts an arc labelled c from s and returns the cell of the new node, which is still
        marked separate; INDEX_ERROR when the pool is exhausted, with the tree as it was. */
    method InsertBranch(s: int, c: Sym) returns (next: int)
      requires Valid() && s in path
      modifies this`cells, this`path, this`node
      ensures Valid() && Handles(old(path), path, old(cells), s)
      ensures old(path[s] + [c] in node) ==>
                next == old(node[path[s] + [c]]) && cells == old(cells) && path == old(path) && node == old(node)
      ensures old(|cells|) + STRIDE < INDEX_MAX ==> next != INDEX_ERROR && |cells| <= old(|cells|) + STRIDE
      ensures next == INDEX_ERROR ==> Contents() == old(Contents()) && |cells| == INDEX_MAX
      ensures next != INDEX_ERROR && old(path[s] + [c] !in node) ==>
                BranchAdded(old(Contents()), old(path)[s], c, cells, path, Contents(), s, next)
    {
      var base := GetBase(s);
      if base > 0 {
        next := base + c;
        ArcIff(cells, path, node, s, c);
        if GetCheck(next) == s {
          return;
        }
        var free := false;
        if base <= INDEX_MAX - c {
          free := CheckFreeCell(next);
        }
        if free {
          Attach(cells, s, c, next);
        } else {
          next := RelocateAndInsert(s, c);
        }
      } else {
        SeparateIsLeaf(cells, path, node, s, c);
        next := InsertFirst(s, c);
      }
    }

    /** The branch of da_insert_branch for a node that does not branch yet. */
    method InsertFirst(s: int, c: Sym) returns (next: int)
      requires Valid() && s in path && cells[s].base <= 0 && path[s] + [c] !in node
      modifies this`cells, this`path, this`node
      ensures Valid() && Handles(old(path), path, old(cells), s)
      ensures old(|cells|) + STRIDE < INDEX_MAX ==> next != INDEX_ERROR && |cells| <= old(|cells|) + STRIDE
      ensures next == INDEX_ERROR ==> Contents() == old(Contents()) && |cells| == INDEX_MAX
      ensures next != INDEX_ERROR ==> BranchAdded(old(Contents()), old(path)[s], c, cells, path, Contents(), s, next)
    {
      var newBase := FindFreeBase([c]);
      GrownTree(old(cells), cells, path, node);
      if newBase == INDEX_ERROR {
        return INDEX_ERROR;
      }
      assert c in [c] && FreeAt(cells, newBase, c);
      ghost var cs := cells;
      cells := SetBase(cells, s, newBase);
      next := newBase + c;
      Attach(cs, s, c, next);
    }

    /** Whether a cell can be had, growing the pool as far as that needs. */
    method CheckFreeCell(s: int) returns (r: bool)
      requires Valid() && s > FREE_LIST
      modifies this`cells
      ensures Valid() && Grown(old(cells), cells, path) && Contents() == old(Contents())
      ensures |cells| == old(|cells|) || (r && |cells| == s + 1)
      ensures r ==> Free(cells, s)
    {
      var ok := ExtendPool(s);
      GrownTree(old(cells), cells, path, node);
      assert ok && GetCheck(s) >= 0 ==> s in path;
      return ok && GetCheck(s) < 0;
    }

    /** The branch of da_insert_branch that finds the cell taken: all children of s move. */
    method RelocateAndInsert(s: int, c: Sym) returns (next: int)
      requires Valid() && s in path && cells[s].base > 0 && path[s] + [c] !in node
      modifies this`cells, this`path, this`node
      ensures Valid() && Handles(old(path), path, old(cells), s)
      ensures old(|cells|) + STRIDE < INDEX_MAX ==> next != INDEX_ERROR && |cells| <= old(|cells|) + STRIDE
      ensures next == INDEX_ERROR ==> Contents() == old(Contents()) && |cells| == INDEX_MAX
      ensures next != INDEX_ERROR ==> BranchAdded(old(Contents()), old(path)[s], c, cells, path, Contents(), s, next)
    {
      var newBase := MakeRoom(s, c);
      if newBase == INDEX_ERROR {
        return INDEX_ERROR;
      }
      next := newBase + c;
      Attach(cells, s, c, next);
    }

    /** Moves the children of s to a base behind which c is free as well. */
    method MakeRoom(s: int, c: Sym) returns (newBase: int)
      requires Valid() && s in path && cells[s].base > 0 && path[s] + [c] !in node
      modifies this`cells, this`path, this`node
      ensures Valid() && Handles(old(path), path, old(cells), s) && Contents() == old(Contents())
      ensures newBase != INDEX_ERROR ==> newBase >= POOL_BEGIN && cells[s].base == newBase && FreeAt(cells, newBase, c)
      ensures old(|cells|) + STRIDE < INDEX_MAX ==> newBase != INDEX_ERROR && |cells| <= old(|cells|) + STRIDE
      ensures newBase == INDEX_ERROR ==> |cells| == INDEX_MAX
      ensures node.Keys == old(node).Keys
    {
      var symbols := OutputSymbols(s);
      ArcsAreLabels(cells, path, node, s, symbols);
      symbols := SymbolsAdd(symbols, c);
      newBase := FindFreeBase(symbols);
      GrownTree(old(cells), cells, path, node);
      if newBase != INDEX_ERROR {
        assert FreeAt(cells, newBase, c);
        RelocateBase(s, newBase);
      }
    }

    /** Marks a childless node as separate with tail index -v, or as dangling for v == 0. */
    method SetLeaf(n: int, v: int)
      requires Valid() && n in path && v <= 0
      requires forall m {:trigger m in path} :: m in path ==> cells[m].check != n
      modifies this`cells
      ensures Valid() && Contents() == old(Contents())[path[n] := KindOf(v)]
      ensures cells == old(cells)[n := old(cells)[n].(base := v)]
    {
      cells := SetBase(cells, n, v);
      FreeListSame(old(cells), cells);
      LeafSet(old(cells), path, node, n, v);
    }

    /** Removes s and those of its ancestors below p that have no other children; `stop` is the
        label sequence of the first node that stays. */
    method PruneUpto(p: int, s: int) returns (ghost stop: Label)
      requires Valid() && p in path && s in path && path[p] <= path[s]
      modifies this`cells, this`path, this`node
      ensures Valid() && old(path)[p] <= stop <= old(path)[s] && |cells| == |old(cells)|
      ensures Contents() == Pruned(old(Contents()), stop, old(path)[s])
      ensures forall n {:trigger n in path} :: n in path ==> n in old(path) && path[n] == old(path)[n]
      ensures p in path
      ensures stop == old(path)[p] || exists n :: n in path && cells[n].check in path && path[cells[n].check] == stop
      ensures p != s && (forall n :: n in old(path) ==> old(cells)[n].check != s) ==> stop < old(path)[s]
    {
      ghost var start := path[s];
      var cur := s;
      stop := start;
      PrunedNothing(Contents(), start);
      while true
        invariant |cells| == |old(cells)|
        invariant Valid() && p in path && cur in path && path[cur] == stop && path[p] == old(path)[p] <= stop <= start
        invariant Contents() == Pruned(old(Contents()), stop, start)
        invariant forall n {:trigger n in path} :: n in path ==> n in old(path) && path[n] == old(path)[n]
        invariant (cur == s && cells == old(cells) && path == old(path)) || stop < start
        decreases |stop|
      {
        if p == cur {
          return;
        }
        var has := HasChildren(cur);
        if has {
          ghost var n :| n in path && cells[n].check == cur;
          return;
        }
        var parent := GetCheck(cur);
        assert node[path[p]] == p && node[path[cur]] == cur;
        ProperPrefix(path[p], stop, start);
        Parent(cells, path, node, cur);
        PrunedMore(old(Contents()), stop, start);
        RemoveLeaf(cur);
        stop := stop[..|stop| - 1];
        cur := parent;
      }
    }

    method RemoveLeaf(s: int)
      requires Valid() && s in path && s != ROOT && forall n {:trigger n in path} :: n in path ==> cells[n].check != s
      modifies this`cells, this`path, this`node
      ensures Valid() && Contents() == old(Contents()) - {old(path)[s]} && |cells| == |old(cells)|
      ensures path == old(path) - {s} && node == old(node) - {old(path)[s]}
      ensures forall n {:trigger n in path} :: n in path ==> n < |old(cells)| && cells[n] == old(cells)[n]
    {
      FreeCell(s);
      assert Free(cells, s);
      forall i {:trigger cells[i]} | 2 <= i < |cells| && cells[i].check >= 0 ensures i in path {
        assert !Free(cells, i) && !Free(old(cells), i);
      }
      RemovedNode(old(cells), path, node, cells, s);
      node := node - {path[s]};
      path := path - {s};
    }
  }

  /** The tree without the label sequences between stop (which stays) and s (which goes). */
  function Pruned<T>(t: map<Label, T>, stop: Label, s: Label): map<Label, T> {
    map q | q in t && !(stop < q <= s) :: t[q]
  }

  lemma ProperPrefix(a: Label, b: Label, c: Label)
    requires a <= b <= c && a != b
    ensures b != [] && a <= b[..|b| - 1] <= c && b[..|b| - 1] < c
  {
    assert a == b[..|a|] && b == b[..|b|];
  }

  lemma PrunedNothing<T>(t: map<Label, T>, s: Label)
    ensures Pruned(t, s, s) == t
  {
  }

  lemma PrunedMore<T>(t: map<Label, T>, stop: Label, s: Label)
    requires stop != [] && stop <= s
    ensures Pruned(t, stop, s) - {stop} == Pruned(t, stop[..|stop| - 1], s)
  {
    var up := stop[..|stop| - 1];
    forall q {:trigger q in t} | q in t ensures up < q <= s <==> q == stop || stop < q <= s {
      if up < q <= s && !(stop < q) {
        assert |q| <= |stop|;
        assert q == s[..|q|] && stop == s[..|stop|];
      }
    }
  }

  /** symbols_add_fast: append a label known to be the largest so far. */
  function AppendSym(syms: seq<Sym>, c: int): (r: seq<Sym>)
    requires 0 <= c < 0x80
    requires StrictlyUp(syms) && forall d :: d in syms ==> d < c
    ensures StrictlyUp(r) && forall d: Sym {:trigger d in r} :: d in r <==> d in syms || d == c
  {
    var s: Sym := c;
    var r := syms + [s];
    assert forall i {:trigger r[i]} :: 0 <= i < |syms| ==> r[i] == syms[i] && syms[i] in syms;
    assert forall d: Sym {:trigger d in r} :: d in r <==> d in syms || d == s;
    r
  }

  predicate StrictlyUp(s: seq<int>) {
    forall i, j :: 0 <= i < j < |s| ==> s[i] < s[j]
  }

  /** symbols_add: insertion into a sorted set of labels by binary search. */
  method SymbolsAdd(syms: seq<Sym>, c: Sym) returns (r: seq<Sym>)
    requires StrictlyUp(syms)
    ensures StrictlyUp(r) && |r| > 0
    ensures forall d: Sym {:trigger d in r} :: d in r <==> d in syms || d == c
  {
    var lower, upper := 0, |syms|;
    while lower < upper
      invariant 0 <= lower <= upper <= |syms|
      invariant forall i :: 0 <= i < lower ==> syms[i] < c
      invariant forall i :: upper <= i < |syms| ==> c < syms[i]
    {
      var middle := (lower + upper) / 2;
      if c > syms[middle] {
        lower := middle + 1;
      } else if c < syms[middle] {
        upper := middle;
      } else {
        return syms;
      }
    }
    r := syms[..lower] + [c] + syms[lower..];
    forall d: Sym {:trigger d in r} ensures d in r <==> d in syms || d == c {
      assert syms == syms[..lower] + syms[lower..];
    }
  }
}
