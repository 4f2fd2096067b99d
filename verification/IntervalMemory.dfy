/** How linked nodes in memory make up a red-black interval tree. A pointer is an index into
    the memory; 0 is the shared nil node, 1 the root sentinel whose left child is the tree. */
module IntervalMemory {
  import opened IntervalTheory

  const MAX_KEY: nat := 0xffff_ffff_ffff_ffff

  datatype Node = Node(lo: nat, hi: nat, data: int, mh: nat, red: bool, left: nat, right: nat, parent: nat)

  type Memory = seq<Node>

  function ChildOf(n: Node, s: Side): nat { if s == Left then n.left else n.right }

  function SetChild(n: Node, s: Side, q: nat): Node {
    if s == Left then n.(left := q) else n.(right := q)
  }

  function NodeOf(v: Val, left: nat, right: nat, parent: nat): Node {
    Node(v.it.lo, v.it.hi, v.it.data, v.mh, v.red, left, right, parent)
  }

  function Nil0(parent: nat): Node { Node(MIN_KEY, MIN_KEY, 0, MIN_KEY, false, NIL, NIL, parent) }

  function RootNode(left: nat): Node { Node(MAX_KEY, MAX_KEY, 0, MAX_KEY, false, left, NIL, NIL) }

  function Ptrs(t: RB): set<nat> {
    if t.Nil? then {} else Ptrs(t.left) + {t.v.it.p} + Ptrs(t.right)
  }

  function CtxPtrs(c: Ctx): set<nat> {
    if c.Top? then {} else CtxPtrs(c.up) + {c.v.it.p} + Ptrs(c.sib)
  }

  ghost predicate Shape(mem: Memory, t: RB, parent: nat) {
    t.Nd? ==>
      && ROOT < t.v.it.p < |mem|
      && mem[t.v.it.p] == NodeOf(t.v, Root(t.left), Root(t.right), parent)
      && Shape(mem, t.left, t.v.it.p) && Shape(mem, t.right, t.v.it.p)
  }

  /** The frames of c, with q where the hole is. */
  ghost predicate CtxShape(mem: Memory, c: Ctx, q: nat) {
    match c
    case Top => |mem| > ROOT && mem[ROOT] == RootNode(q)
    case At(side, v, sib, up) =>
      && ROOT < v.it.p < |mem|
      && mem[v.it.p] == NodeAt(side, v, q, Root(sib), ParentOf(up))
      && Shape(mem, sib, v.it.p) && CtxShape(mem, up, v.it.p)
  }

  ghost predicate NilOk(mem: Memory) {
    |mem| > ROOT && mem[NIL] == Nil0(mem[NIL].parent)
  }

  /** The memory holds tree t in place of the hole of c. */
  ghost predicate Linked(mem: Memory, c: Ctx, t: RB) {
    && NilOk(mem) && CtxShape(mem, c, Root(t)) && Shape(mem, t, ParentOf(c))
    && Distinct(Items(Plug(c, t)))
  }

  /** Moving the focus of attention does not change what the memory holds. */
  lemma Refocus(mem: Memory, side: Side, t: RB, v: Val, sib: RB, up: Ctx)
    ensures Linked(mem, At(side, v, sib, up), t) <==> Linked(mem, up, Join(side, t, v, sib))
  {
  }

  lemma {:induction false} FocusTop(mem: Memory, c: Ctx, t: RB)
    ensures Linked(mem, c, t) <==> Linked(mem, Top, Plug(c, t))
    decreases c
  {
    if c.At? {
      Refocus(mem, c.side, t, c.v, c.sib, c.up);
      FocusTop(mem, c.up, Join(c.side, t, c.v, c.sib));
    }
  }

  // ---------------------------------------------------------------- who is where

  ghost predicate Has(s: seq<Item>, p: nat) {
    exists i :: 0 <= i < |s| && s[i].p == p
  }

  lemma HasConcat(a: seq<Item>, b: seq<Item>, p: nat)
    ensures Has(a + b, p) <==> Has(a, p) || Has(b, p)
  {
    if Has(a, p) {
      var i :| 0 <= i < |a| && a[i].p == p;
      assert (a + b)[i].p == p;
    }
    if Has(b, p) {
      var i :| 0 <= i < |b| && b[i].p == p;
      assert (a + b)[|a| + i].p == p;
    }
  }

  lemma {:induction false} PtrsAreItems(t: RB, p: nat)
    ensures p in Ptrs(t) <==> Has(Items(t), p)
    decreases t
  {
    if t.Nd? {
      PtrsAreItems(t.left, p);
      PtrsAreItems(t.right, p);
      HasConcat(Items(t.left) + [t.v.it], Items(t.right), p);
      HasConcat(Items(t.left), [t.v.it], p);
      assert Has([t.v.it], p) <==> t.v.it.p == p by { assert [t.v.it][0] == t.v.it; }
    }
  }

  lemma {:induction false} CtxPtrsAreItems(c: Ctx, p: nat)
    ensures p in CtxPtrs(c) <==> Has(Lower(c), p) || Has(Upper(c), p)
    decreases c
  {
    if c.At? {
      CtxPtrsAreItems(c.up, p);
      PtrsAreItems(c.sib, p);
      assert Has([c.v.it], p) <==> c.v.it.p == p by { assert [c.v.it][0] == c.v.it; }
      HasConcat(Lower(c.up) + Items(c.sib), [c.v.it], p);
      HasConcat(Lower(c.up), Items(c.sib), p);
      HasConcat([c.v.it] + Items(c.sib), Upper(c.up), p);
      HasConcat([c.v.it], Items(c.sib), p);
    }
  }

  lemma DistinctParts(a: seq<Item>, b: seq<Item>)
    requires Distinct(a + b)
    ensures Distinct(a) && Distinct(b) && forall p {:trigger Has(a, p)} :: Has(a, p) ==> !Has(b, p)
  {
    var s := a + b;
    forall i, j {:trigger Differ(a, i, j)} ensures Differ(a, i, j) { assert Differ(s, i, j); }
    forall i, j {:trigger Differ(b, i, j)} ensures Differ(b, i, j) { assert Differ(s, |a| + i, |a| + j); }
    forall p {:trigger Has(a, p)} | Has(a, p) ensures !Has(b, p) {
      var i :| 0 <= i < |a| && a[i].p == p;
      forall j | 0 <= j < |b| ensures b[j].p != p {
        assert Differ(s, i, |a| + j);
      }
    }
  }

  /** A tree and its context share no node. */
  lemma Apart(c: Ctx, t: RB)
    requires Distinct(Items(Plug(c, t)))
    ensures Ptrs(t) !! CtxPtrs(c) && Distinct(Items(t))
  {
    PlugItems(c, t);
    DistinctParts(Lower(c) + Items(t), Upper(c));
    DistinctParts(Lower(c), Items(t));
    forall p | p in Ptrs(t) ensures p !in CtxPtrs(c) {
      PtrsAreItems(t, p);
      CtxPtrsAreItems(c, p);
      HasConcat(Lower(c), Items(t), p);
      assert Has(Lower(c) + Items(t), p) && !Has(Upper(c), p);
    }
  }

  /** Neither do a node and its two subtrees. */
  lemma ApartNode(t: RB)
    requires t.Nd? && Distinct(Items(t))
    ensures Ptrs(t.left) !! Ptrs(t.right) && t.v.it.p !in Ptrs(t.left) && t.v.it.p !in Ptrs(t.right)
    ensures Distinct(Items(t.left)) && Distinct(Items(t.right))
  {
    Apart(At(Left, t.v, t.right, Top), t.left);
    Apart(At(Right, t.v, t.left, Top), t.right);
  }

  lemma ApartJoin(s: Side, a: RB, v: Val, b: RB)
    requires Distinct(Items(Join(s, a, v, b)))
    ensures Ptrs(a) !! Ptrs(b) && v.it.p !in Ptrs(a) && v.it.p !in Ptrs(b) && Distinct(Items(a)) && Distinct(Items(b))
  {
    ApartNode(Join(s, a, v, b));
  }

  /** What Join means in memory. */
  lemma ShapeJoin(mem: Memory, s: Side, a: RB, v: Val, b: RB, parent: nat)
    ensures Shape(mem, Join(s, a, v, b), parent) <==>
              && ROOT < v.it.p < |mem|
              && mem[v.it.p] == NodeAt(s, v, Root(a), Root(b), parent)
              && Shape(mem, a, v.it.p) && Shape(mem, b, v.it.p)
    ensures Root(Join(s, a, v, b)) == v.it.p && Ptrs(Join(s, a, v, b)) == Ptrs(a) + {v.it.p} + Ptrs(b)
  {
  }

  /** Node v with one child on side s and the other across. */
  function NodeAt(s: Side, v: Val, near: nat, far: nat, parent: nat): Node {
    if s == Left then NodeOf(v, near, far, parent) else NodeOf(v, far, near, parent)
  }

  lemma RootInPtrs(t: RB)
    ensures t.Nd? ==> Root(t) in Ptrs(t)
  {
  }

  lemma {:induction false} PtrsInMemory(mem: Memory, t: RB, parent: nat)
    requires Shape(mem, t, parent)
    ensures forall p :: p in Ptrs(t) ==> ROOT < p < |mem|
    decreases t
  {
    if t.Nd? {
      PtrsInMemory(mem, t.left, t.v.it.p);
      PtrsInMemory(mem, t.right, t.v.it.p);
    }
  }

  lemma {:induction false} CtxPtrsInMemory(mem: Memory, c: Ctx, q: nat)
    requires CtxShape(mem, c, q)
    ensures forall p :: p in CtxPtrs(c) ==> ROOT < p < |mem|
    decreases c
  {
    if c.At? {
      CtxPtrsInMemory(mem, c.up, c.v.it.p);
      PtrsInMemory(mem, c.sib, c.v.it.p);
    }
  }

  // ---------------------------------------------------------------- writes elsewhere

  lemma {:induction false} FrameTree(mem: Memory, mem': Memory, t: RB, parent: nat)
    requires Shape(mem, t, parent) && |mem| <= |mem'|
    requires forall p :: p in Ptrs(t) && p < |mem| ==> mem'[p] == mem[p]
    ensures Shape(mem', t, parent)
    decreases t
  {
    if t.Nd? {
      FrameTree(mem, mem', t.left, t.v.it.p);
      FrameTree(mem, mem', t.right, t.v.it.p);
    }
  }

  lemma {:induction false} FrameCtx(mem: Memory, mem': Memory, c: Ctx, q: nat)
    requires CtxShape(mem, c, q) && |mem| <= |mem'| && mem'[ROOT] == mem[ROOT]
    requires forall p :: p in CtxPtrs(c) && p < |mem| ==> mem'[p] == mem[p]
    ensures CtxShape(mem', c, q)
    decreases c
  {
    if c.At? {
      FrameCtx(mem, mem', c.up, c.v.it.p);
      FrameTree(mem, mem', c.sib, c.v.it.p);
    }
  }

  /** The root of t has a new parent. */
  lemma Reparent(mem: Memory, mem': Memory, t: RB, parent: nat, parent': nat)
    requires Shape(mem, t, parent) && |mem| <= |mem'| && Distinct(Items(t))
    requires forall p :: p in Ptrs(t) && p < |mem| && p != Root(t) ==> mem'[p] == mem[p]
    requires t.Nd? ==> mem'[Root(t)] == mem[Root(t)].(parent := parent')
    ensures Shape(mem', t, parent')
  {
    if t.Nd? {
      ApartNode(t);
      FrameTree(mem, mem', t.left, t.v.it.p);
      FrameTree(mem, mem', t.right, t.v.it.p);
    }
  }

  /** The side of its parent that the hole is on. */
  function Hole(c: Ctx): Side { if c.Top? then Left else c.side }

  /** Something else hangs where the hole is. */
  lemma Rehang(mem: Memory, mem': Memory, c: Ctx, q: nat, q': nat)
    requires CtxShape(mem, c, q) && |mem| <= |mem'| && Distinct(Items(Plug(c, Nil)))
    requires mem'[ParentOf(c)] == SetChild(mem[ParentOf(c)], Hole(c), q')
    requires c.At? ==> mem'[ROOT] == mem[ROOT]
    requires forall p :: p in CtxPtrs(c) && p < |mem| && p != ParentOf(c) ==> mem'[p] == mem[p]
    ensures CtxShape(mem', c, q')
  {
    if c.At? {
      Apart(c.up, Join(c.side, Nil, c.v, c.sib));
      ApartNode(Join(c.side, Nil, c.v, c.sib));
      FrameCtx(mem, mem', c.up, c.v.it.p);
      FrameTree(mem, mem', c.sib, c.v.it.p);
    }
  }

  lemma DistinctHole(c: Ctx, t: RB)
    requires Distinct(Items(Plug(c, t)))
    ensures Distinct(Items(Plug(c, Nil)))
  {
    PlugItems(c, t);
    PlugItems(c, Nil);
    var a, m, b := Lower(c), Items(t), Upper(c);
    var s, s' := a + m + b, a + [] + b;
    forall i, j {:trigger Differ(s', i, j)} ensures Differ(s', i, j) {
      var i' := if i < |a| then i else i + |m|;
      var j' := if j < |a| then j else j + |m|;
      assert Differ(s, i', j');
      assert 0 <= i < j < |s'| ==> s[i'] == s'[i] && s[j'] == s'[j];
    }
  }

  // ---------------------------------------------------------------- new nodes

  function Leaf(z: nat, lo: nat, hi: nat, data: int): RB {
    Nd(Nil, Val(Item(z, lo, hi, data), false, hi), Nil)
  }

  /** Memory beyond the tree does not matter to it. */
  lemma Allocated(mem: Memory, n: Node, t: RB)
    requires Linked(mem, Top, t)
    ensures Linked(mem + [n], Top, t) && |mem| !in Ptrs(t)
  {
    FrameTree(mem, mem + [n], t, ROOT);
    PtrsInMemory(mem, t, ROOT);
  }

  /** A new node hangs in an empty place. */
  lemma Attached(mem: Memory, mem': Memory, c: Ctx, z: nat, lo: nat, hi: nat, data: int)
    requires Linked(mem, c, Nil) && |mem'| == |mem| && ROOT < z < |mem| && z !in CtxPtrs(c)
    requires mem'[z] == Node(lo, hi, data, hi, false, NIL, NIL, ParentOf(c))
    requires ParentOf(c) < |mem| && mem'[ParentOf(c)] == SetChild(mem[ParentOf(c)], Hole(c), z)
    requires forall i :: 0 <= i < |mem| && i != z && i != ParentOf(c) ==> mem'[i] == mem[i]
    ensures Linked(mem', c, Leaf(z, lo, hi, data))
  {
    CtxPtrsInMemory(mem, c, NIL);
    assert c.At? ==> ParentOf(c) in CtxPtrs(c);
    Rehang(mem, mem', c, NIL, z);
    var it := Item(z, lo, hi, data);
    PlugItems(c, Nil);
    PlugItems(c, Leaf(z, lo, hi, data));
    CtxPtrsAreItems(c, z);
    assert Lower(c) + [] + Upper(c) == Lower(c) + Upper(c);
    DistinctMore(Lower(c), Upper(c), it);
    assert Items(Leaf(z, lo, hi, data)) == [it];
  }

  lemma DistinctMore(a: seq<Item>, b: seq<Item>, it: Item)
    requires Distinct(a + b) && !Has(a, it.p) && !Has(b, it.p)
    ensures Distinct(a + [it] + b)
  {
    var s, s' := a + b, a + [it] + b;
    forall i, j {:trigger Differ(s', i, j)} ensures Differ(s', i, j) {
      assert Differ(s, if i <= |a| then i else i - 1, if j <= |a| then j else j - 1);
      assert 0 <= i < |s'| && i != |a| ==> s'[i] == s[if i < |a| then i else i - 1];
      assert 0 <= j < |s'| && j != |a| ==> s'[j] == s[if j < |a| then j else j - 1];
      assert 0 <= i < |a| ==> s[i] == a[i];
      assert |a| < j < |s'| ==> s[j - 1] == b[j - 1 - |a|];
    }
  }

  // ---------------------------------------------------------------- nodes leaving their place

  lemma FocusUnder(mem: Memory, a: Ctx, b: Ctx, t: RB)
    ensures Linked(mem, Under(a, b), t) <==> Linked(mem, b, Plug(a, t))
  {
    PlugUnder(a, b, t);
    FocusTop(mem, Under(a, b), t);
    FocusTop(mem, b, Plug(a, t));
  }

  lemma DistinctLess(a: seq<Item>, it: Item, b: seq<Item>)
    requires Distinct(a + [it] + b)
    ensures Distinct(a + b) && !Has(a + b, it.p)
  {
    var s, s' := a + [it] + b, a + b;
    forall i, j {:trigger Differ(s', i, j)} ensures Differ(s', i, j) {
      assert Differ(s, if i < |a| then i else i + 1, if j < |a| then j else j + 1);
    }
    forall i | 0 <= i < |s'| ensures s'[i].p != it.p {
      assert Differ(s, i, |a|) && Differ(s, |a|, i + 1);
      assert s'[i] == if i < |a| then s[i] else s[i + 1];
    }
  }

  /** A node with at most one child gives its place to it. */
  lemma Spliced(mem: Memory, mem': Memory, c: Ctx, t: RB)
    requires Linked(mem, c, t) && t.Nd? && (t.left.Nil? || t.right.Nil?)
    requires |mem'| == |mem| && Root(OnlyChild(t)) < |mem| && ParentOf(c) < |mem|
    requires mem'[ParentOf(c)] == SetChild(mem[ParentOf(c)], Hole(c), Root(OnlyChild(t)))
    requires mem'[Root(OnlyChild(t))] == mem[Root(OnlyChild(t))].(parent := ParentOf(c))
    requires forall i :: 0 <= i < |mem| && i != ParentOf(c) && i != Root(OnlyChild(t)) ==> mem'[i] == mem[i]
    ensures Linked(mem', c, OnlyChild(t))
  {
    var s := OnlyChild(t);
    Apart(c, t);
    ApartNode(t);
    RootInPtrs(s);
    CtxPtrsInMemory(mem, c, Root(t));
    PtrsInMemory(mem, t, ParentOf(c));
    assert c.At? ==> ParentOf(c) in CtxPtrs(c);
    Reparent(mem, mem', s, Root(t), ParentOf(c));
    DistinctHole(c, t);
    Rehang(mem, mem', c, Root(t), Root(s));
    SplicedItems(c, t);
    DistinctLess(Lower(c) + Items(t.left), t.v.it, Items(t.right) + Upper(c));
  }

  lemma SplicedItems(c: Ctx, t: RB)
    requires t.Nd? && (t.left.Nil? || t.right.Nil?)
    ensures Items(Plug(c, t)) == Lower(c) + Items(t.left) + [t.v.it] + (Items(t.right) + Upper(c))
    ensures Items(Plug(c, OnlyChild(t))) == Lower(c) + Items(t.left) + (Items(t.right) + Upper(c))
  {
    Around(c, t);
    PlugItems(c, OnlyChild(t));
    TwoSides(Lower(c), Items(t.left), Items(t.right), Upper(c));
    assert Items(OnlyChild(t)) == Items(t.left) + Items(t.right) by {
      assert t.left.Nil? ==> [] + Items(t.right) == Items(t.right);
      assert t.right.Nil? ==> Items(t.left) + [] == Items(t.left);
    }
  }

  lemma TwoSides(a: seq<Item>, l: seq<Item>, r: seq<Item>, b: seq<Item>)
    ensures a + (l + r) + b == a + l + (r + b)
  {
  }

  /** Node y takes the place of the root of t. */
  lemma Transplanted(mem: Memory, mem': Memory, c: Ctx, t: RB, v: Val)
    requires Linked(mem, c, t) && t.Nd? && ParentOf(c) < |mem| && |mem'| == |mem|
    requires ROOT < v.it.p < |mem| && v.it.p !in Ptrs(t) && v.it.p !in CtxPtrs(c)
    requires mem'[v.it.p] == NodeOf(v, Root(t.left), Root(t.right), ParentOf(c))
    requires mem'[ParentOf(c)] == SetChild(mem[ParentOf(c)], Hole(c), v.it.p)
    requires Root(t.left) < |mem| && Root(t.right) < |mem|
    requires t.left.Nd? ==> mem'[Root(t.left)] == mem[Root(t.left)].(parent := v.it.p)
    requires t.right.Nd? ==> mem'[Root(t.right)] == mem[Root(t.right)].(parent := v.it.p)
    requires forall i ::
              0 < i < |mem| && i != v.it.p && i != ParentOf(c) && i != Root(t.left) && i != Root(t.right) ==>
                    mem'[i] == mem[i]
    requires NilOk(mem')
    ensures Linked(mem', c, t.(v := v))
  {
    Apart(c, t);
    ApartNode(t);
    RootInPtrs(t.left);
    RootInPtrs(t.right);
    CtxPtrsInMemory(mem, c, Root(t));
    PtrsInMemory(mem, t, ParentOf(c));
    assert c.At? ==> ParentOf(c) in CtxPtrs(c);
    Reparent(mem, mem', t.left, Root(t), v.it.p);
    Reparent(mem, mem', t.right, Root(t), v.it.p);
    DistinctHole(c, t);
    Rehang(mem, mem', c, Root(t), v.it.p);
    ReplacedItems(c, t, v);
  }

  lemma ReplacedItems(c: Ctx, t: RB, v: Val)
    requires t.Nd? && Distinct(Items(Plug(c, t))) && v.it.p !in Ptrs(t) && v.it.p !in CtxPtrs(c)
    ensures Distinct(Items(Plug(c, t.(v := v))))
    ensures Items(Plug(c, t)) == Lower(c) + Items(t.left) + [t.v.it] + (Items(t.right) + Upper(c))
    ensures Items(Plug(c, t.(v := v))) == Lower(c) + Items(t.left) + [v.it] + (Items(t.right) + Upper(c))
  {
    Around(c, t);
    Around(c, t.(v := v));
    var a, b := Lower(c) + Items(t.left), Items(t.right) + Upper(c);
    DistinctLess(a, t.v.it, b);
    PtrsAreItems(t.left, v.it.p);
    PtrsAreItems(t.right, v.it.p);
    CtxPtrsAreItems(c, v.it.p);
    HasConcat(Lower(c), Items(t.left), v.it.p);
    HasConcat(Items(t.right), Upper(c), v.it.p);
    DistinctMore(a, b, v.it);
  }
}
