/** The red-black interval tree of src/intvtree.c: insertion and deletion. */
module IntervalTree {
  import opened IntervalTheory
  import opened IntervalMemory

  // ---------------------------------------------------------------- views of a linked tree

  /** The nodes in order are the same, and max_high is as right as it was. */
  ghost predicate Keeps(c: Ctx, t: RB, c': Ctx, t': RB) {
    && Items(Plug(c', t')) == Items(Plug(c, t))
    && (MaxOk(Plug(c, t)) ==> MaxOk(Plug(c', t')))
  }

  lemma KeepsInside(c: Ctx, t: RB, t': RB)
    requires Items(t') == Items(t) && (MaxOk(t) ==> MaxOk(t') && MH(t') == MH(t))
    ensures Keeps(c, t, c, t')
  {
    PlugItems(c, t);
    PlugItems(c, t');
    PlugMax(c, t);
    PlugMax(c, t');
  }

  lemma ColouredKeeps(c: Ctx, t: RB, red: bool)
    requires t.Nd?
    ensures Keeps(c, t, c, Coloured(t, red))
  {
    KeepsInside(c, t, Coloured(t, red));
  }

  /** The other child of the parent as the one in focus. */
  lemma LookAcross(mem: Memory, c: Ctx, t: RB)
    requires c.At?
    ensures Linked(mem, c, t) <==> Linked(mem, At(Other(c.side), c.v, t, c.up), c.sib)
    ensures Plug(c, t) == Plug(At(Other(c.side), c.v, t, c.up), c.sib)
  {
    Refocus(mem, c.side, t, c.v, c.sib, c.up);
    Refocus(mem, Other(c.side), c.sib, c.v, t, c.up);
  }

  /** What the links around the hole read. */
  lemma LookUp(mem: Memory, c: Ctx, t: RB)
    requires Linked(mem, c, t)
    ensures ROOT <= ParentOf(c) < |mem| && Root(t) < |mem|
    ensures ChildOf(mem[ParentOf(c)], Hole(c)) == Root(t)
    ensures mem[ParentOf(c)].red == FrameRed(c)
    ensures mem[Root(t)].red == Red(t) && mem[Root(t)].mh == MH(t)
    ensures t.Nd? ==> mem[Root(t)] == NodeOf(t.v, Root(t.left), Root(t.right), ParentOf(c))
    ensures c.At? ==> ParentOf(c) != ROOT && mem[ParentOf(c)].parent == ParentOf(c.up)
    ensures c.At? ==> ChildOf(mem[ParentOf(c)], Other(c.side)) == Root(c.sib) < |mem|
    ensures c.At? ==> mem[Root(c.sib)].red == Red(c.sib) && mem[Root(c.sib)].mh == MH(c.sib)
    ensures c.At? && (t.Nd? || c.sib.Nd?) ==> Root(t) != Root(c.sib)
    ensures c.Top? && t.Nd? ==> mem[ROOT].right != Root(t)
  {
    if c.At? {
      var u := Join(c.side, t, c.v, c.sib);
      Apart(c.up, u);
      ApartNode(u);
      RootInPtrs(t);
      RootInPtrs(c.sib);
    }
  }

  // ---------------------------------------------------------------- writes to one node

  lemma Revalued(mem: Memory, c: Ctx, t: RB, v: Val)
    requires Linked(mem, c, t) && t.Nd? && v.it == t.v.it
    ensures ROOT < Root(t) < |mem|
    ensures Linked(mem[Root(t) := NodeOf(v, Root(t.left), Root(t.right), ParentOf(c))], c, t.(v := v))
  {
    var mem' := mem[Root(t) := NodeOf(v, Root(t.left), Root(t.right), ParentOf(c))];
    Apart(c, t);
    ApartNode(t);
    FrameTree(mem, mem', t.left, Root(t));
    FrameTree(mem, mem', t.right, Root(t));
    FrameCtx(mem, mem', c, Root(t));
    PlugItems(c, t);
    PlugItems(c, t.(v := v));
  }

  // ---------------------------------------------------------------- rotation in memory

  /** The cells around node p, whose child away from s is y; the subtrees are at pa, pb and pz. */
  datatype Pivot = Pivot(s: Side, hole: Side, p: nat, y: nat, pa: nat, pb: nat, pz: nat, up: nat)

  ghost predicate Ready(mem: Memory, k: Pivot, vp: Val, vy: Val) {
    && k.p < |mem| && k.y < |mem| && k.pa < |mem| && k.pb < |mem| && k.pz < |mem| && k.up < |mem|
    && k.p != k.y && k.p != k.up && k.y != k.up && k.p != NIL && k.y != NIL && k.up != NIL
    && k.pa != k.p && k.pa != k.y && k.pb != k.p && k.pb != k.y && k.pb != k.up && k.pz != k.p && k.pz != k.y
    && mem[k.p] == NodeAt(k.s, vp, k.pa, k.y, k.up) && mem[k.y] == NodeAt(k.s, vy, k.pb, k.pz, k.p)
    && (mem[k.up].left == k.p <==> k.hole == Left)
  }

  /** The memory after the turn. */
  ghost predicate Turned(mem: Memory, mem': Memory, k: Pivot, vp: Val, vy: Val) {
    && |mem'| == |mem| && k.p < |mem| && k.y < |mem| && k.up < |mem| && k.pb < |mem|
    && mem'[k.p] == NodeAt(k.s, vp, k.pa, k.pb, k.y)
    && mem'[k.y] == NodeAt(k.s, vy, k.p, k.pz, k.up)
    && mem'[k.up] == SetChild(mem[k.up], k.hole, k.y)
    && (k.pb != NIL ==> mem'[k.pb] == mem[k.pb].(parent := k.p))
    && forall i :: 0 <= i < |mem| && i != k.p && i != k.y && i != k.up && (i != k.pb || k.pb == NIL) ==>
          mem'[i] == mem[i]
  }

  /** What max_high is set to at a node. */
  lemma RemaxIs(mem: Memory, x: nat, s: Side, v: Val, a: nat, b: nat, up: nat)
    requires x < |mem| && a < |mem| && b < |mem| && mem[x] == NodeAt(s, v, a, b, up)
    ensures mem[x].left < |mem| && mem[x].right < |mem|
    ensures Max(mem[x].hi, Max(mem[mem[x].left].mh, mem[mem[x].right].mh)) == Best(v, mem[a].mh, mem[b].mh)
  {
  }

  /** A turn leaves the upper ends of the subtrees alone. */
  lemma SubtreesKept(m0: Memory, m1: Memory, k: Pivot, vp: Val, vy: Val)
    requires Ready(m0, k, vp, vy) && Turned(m0, m1, k, vp, vy)
    ensures m1[k.pa].mh == m0[k.pa].mh && m1[k.pb].mh == m0[k.pb].mh && m1[k.pz].mh == m0[k.pz].mh
  {
  }

  /** Setting the upper ends of the two nodes turned. */
  lemma RemaxedTurn(m0: Memory, m1: Memory, m2: Memory, k: Pivot, vp: Val, vy: Val, mp: nat, my: nat)
    requires Ready(m0, k, vp, vy) && Turned(m0, m1, k, vp, vy)
    requires m2 == m1[k.p := m1[k.p].(mh := mp)][k.y := m1[k.y].(mh := my)]
    ensures Turned(m0, m2, k, vp.(mh := mp), vy.(mh := my))
  {
  }

  function PivotOf(s: Side, c: Ctx, a: RB, vp: Val, b: RB, vy: Val, z: RB): Pivot {
    Pivot(s, Hole(c), vp.it.p, vy.it.p, Root(a), Root(b), Root(z), ParentOf(c))
  }

  lemma PivotReady(mem: Memory, s: Side, c: Ctx, a: RB, vp: Val, b: RB, vy: Val, z: RB)
    requires Linked(mem, c, Join(s, a, vp, Join(s, b, vy, z)))
    ensures Ready(mem, PivotOf(s, c, a, vp, b, vy, z), vp, vy)
    ensures mem[Root(a)].mh == MH(a) && mem[Root(b)].mh == MH(b) && mem[Root(z)].mh == MH(z)
  {
    var t, p := Join(s, a, vp, Join(s, b, vy, z)), vp.it.p;
    ApartTurn(s, c, a, vp, b, vy, z);
    ShapeJoin(mem, s, a, vp, Join(s, b, vy, z), ParentOf(c));
    ShapeJoin(mem, s, b, vy, z, p);
    RootInPtrs(a);
    RootInPtrs(b);
    RootInPtrs(z);
    CtxPtrsInMemory(mem, c, p);
    LookUp(mem, c, t);
    RootNotUp(c, a, p);
    RootNotUp(c, b, p);
    RootNotUp(c, z, p);
  }

  lemma RootNotUp(c: Ctx, t: RB, p: nat)
    requires Ptrs(t) !! CtxPtrs(c) && p !in CtxPtrs(c)
    ensures c.At? ==> Root(t) != ParentOf(c) || Root(t) == NIL
    ensures c.At? ==> p != ParentOf(c)
  {
    RootInPtrs(t);
  }

  /** p with subtree a, its other child y with subtrees b and z: who is not where. */
  lemma ApartTurn(s: Side, c: Ctx, a: RB, vp: Val, b: RB, vy: Val, z: RB)
    requires Distinct(Items(Plug(c, Join(s, a, vp, Join(s, b, vy, z)))))
    ensures AllApart(Ptrs(a), vp.it.p, Ptrs(b), vy.it.p, Ptrs(z), CtxPtrs(c)) && Distinct(Items(b))
  {
    var y := Join(s, b, vy, z);
    Apart(c, Join(s, a, vp, y));
    ApartJoin(s, a, vp, y);
    ApartJoin(s, b, vy, z);
    ShapeJoin([], s, a, vp, y, 0);
    ShapeJoin([], s, b, vy, z, 0);
    SetsApart(Ptrs(a), vp.it.p, Ptrs(b), vy.it.p, Ptrs(z), CtxPtrs(c));
  }

  ghost predicate AllApart(a: set<nat>, p: nat, b: set<nat>, y: nat, z: set<nat>, c: set<nat>) {
    && a !! b && a !! z && b !! z && a !! c && b !! c && z !! c && p != y
    && p !in a && p !in b && p !in z && p !in c && y !in a && y !in b && y !in z && y !in c
  }

  lemma SetsApart(a: set<nat>, p: nat, b: set<nat>, y: nat, z: set<nat>, c: set<nat>)
    requires a + {p} + (b + {y} + z) !! c && a !! b + {y} + z && p !in a && p !in b + {y} + z
    requires b !! z && y !in b && y !in z
    ensures AllApart(a, p, b, y, z, c)
  {
    assert forall q :: q in a || q in b || q in z || q == p || q == y ==> q in a + {p} + (b + {y} + z);
    assert forall q :: q in b || q in z || q == y ==> q in b + {y} + z;
  }

  lemma TurnedLinked(mem: Memory, mem': Memory, s: Side, c: Ctx, a: RB, vp: Val, b: RB, vy: Val, z: RB, vp': Val,
                     vy': Val)
    requires Linked(mem, c, Join(s, a, vp, Join(s, b, vy, z))) && vp'.it == vp.it && vy'.it == vy.it
    requires Turned(mem, mem', PivotOf(s, c, a, vp, b, vy, z), vp', vy')
    requires Items(Join(s, Join(s, a, vp', b), vy', z)) == Items(Join(s, a, vp, Join(s, b, vy, z)))
    ensures Linked(mem', c, Join(s, Join(s, a, vp', b), vy', z)) && mem'[NIL] == mem[NIL]
  {
    var t, r := Join(s, a, vp, Join(s, b, vy, z)), Join(s, Join(s, a, vp', b), vy', z);
    ApartTurn(s, c, a, vp, b, vy, z);
    TurnedSubtrees(mem, mem', s, c, a, vp, b, vy, z, vp', vy');
    TurnedHole(mem, mem', s, c, a, vp, b, vy, z, vp', vy');
    TurnedShape(mem', s, c, a, vp', b, vy', z);
    PlugItems(c, t);
    PlugItems(c, r);
  }

  lemma {:induction false} TurnedSubtrees(mem: Memory, mem': Memory, s: Side, c: Ctx, a: RB, vp: Val, b: RB, vy: Val,
                                          z: RB, vp': Val, vy': Val)
    requires Linked(mem, c, Join(s, a, vp, Join(s, b, vy, z))) && vp'.it == vp.it && vy'.it == vy.it
    requires Turned(mem, mem', PivotOf(s, c, a, vp, b, vy, z), vp', vy')
    requires AllApart(Ptrs(a), vp.it.p, Ptrs(b), vy.it.p, Ptrs(z), CtxPtrs(c)) && Distinct(Items(b))
    ensures ROOT < vp.it.p < |mem'| && ROOT < vy.it.p < |mem'|
    ensures Shape(mem', a, vp.it.p) && Shape(mem', b, vp.it.p) && Shape(mem', z, vy.it.p)
  {
    var p, y := vp.it.p, vy.it.p;
    ShapeJoin(mem, s, a, vp, Join(s, b, vy, z), ParentOf(c));
    ShapeJoin(mem, s, b, vy, z, p);
    RootInPtrs(b);
    PtrsInMemory(mem, Join(s, a, vp, Join(s, b, vy, z)), ParentOf(c));
    assert ParentOf(c) == ROOT || ParentOf(c) in CtxPtrs(c);
    FrameTree(mem, mem', a, p);
    Reparent(mem, mem', b, y, p);
    FrameTree(mem, mem', z, y);
  }

  lemma {:induction false} TurnedHole(mem: Memory, mem': Memory, s: Side, c: Ctx, a: RB, vp: Val, b: RB, vy: Val,
                                      z: RB, vp': Val, vy': Val)
    requires Linked(mem, c, Join(s, a, vp, Join(s, b, vy, z))) && vp'.it == vp.it && vy'.it == vy.it
    requires Turned(mem, mem', PivotOf(s, c, a, vp, b, vy, z), vp', vy')
    requires AllApart(Ptrs(a), vp.it.p, Ptrs(b), vy.it.p, Ptrs(z), CtxPtrs(c))
    ensures NilOk(mem') && mem'[NIL] == mem[NIL] && CtxShape(mem', c, vy.it.p)
  {
    var p, y := vp.it.p, vy.it.p;
    var t := Join(s, a, vp, Join(s, b, vy, z));
    ShapeJoin(mem, s, a, vp, Join(s, b, vy, z), ParentOf(c));
    ShapeJoin(mem, s, b, vy, z, p);
    RootInPtrs(b);
    CtxPtrsInMemory(mem, c, p);
    PtrsInMemory(mem, t, ParentOf(c));
    assert ParentOf(c) == ROOT || ParentOf(c) in CtxPtrs(c);
    DistinctHole(c, t);
    Rehang(mem, mem', c, p, y);
  }

  lemma {:induction false} TurnedShape(mem: Memory, s: Side, c: Ctx, a: RB, vp: Val, b: RB, vy: Val, z: RB)
    requires ROOT < vp.it.p < |mem| && mem[vp.it.p] == NodeAt(s, vp, Root(a), Root(b), vy.it.p)
    requires ROOT < vy.it.p < |mem| && mem[vy.it.p] == NodeAt(s, vy, vp.it.p, Root(z), ParentOf(c))
    requires Shape(mem, a, vp.it.p) && Shape(mem, b, vp.it.p) && Shape(mem, z, vy.it.p)
    ensures Shape(mem, Join(s, Join(s, a, vp, b), vy, z), ParentOf(c))
  {
    ShapeJoin(mem, s, a, vp, b, vy.it.p);
    ShapeJoin(mem, s, Join(s, a, vp, b), vy, z, ParentOf(c));
  }

  class Tree {
    var mem: Memory
    ghost var tree: RB

    ghost predicate Valid()
      reads this
    {
      Linked(mem, Top, tree) && RedBlack(tree) && MaxOk(tree) && ByLow(Items(tree))
    }

    /** The nodes in ascending order of their lower ends. */
    ghost function Contents(): seq<Item>
      reads this
    {
      Items(tree)
    }

    constructor ()
      ensures Valid() && Contents() == []
    {
      mem := [Nil0(NIL), RootNode(NIL)];
      tree := Nil;
    }

    method SetRed(p: nat, red: bool, ghost c: Ctx, ghost t: RB)
      requires Linked(mem, c, t) && t.Nd? && p == Root(t)
      modifies this`mem
      ensures Linked(mem, c, Coloured(t, red)) && Keeps(c, t, c, Coloured(t, red))
      ensures mem[NIL] == old(mem)[NIL] && |mem| == |old(mem)|
    {
      Revalued(mem, c, t, t.v.(red := red));
      LookUp(mem, c, t);
      ColouredKeeps(c, t, red);
      mem := mem[p := mem[p].(red := red)];
    }

    method SetRedParent(p: nat, red: bool, ghost c: Ctx, ghost t: RB)
      requires Linked(mem, c, t) && c.At? && p == ParentOf(c)
      modifies this`mem
      ensures Linked(mem, c.(v := c.v.(red := red)), t) && Keeps(c, t, c.(v := c.v.(red := red)), t)
      ensures mem[NIL] == old(mem)[NIL] && |mem| == |old(mem)|
    {
      SetRed(p, red, c.up, Join(c.side, t, c.v, c.sib));
    }

    method SetRedSibling(p: nat, red: bool, ghost c: Ctx, ghost t: RB)
      requires Linked(mem, c, t) && c.At? && c.sib.Nd? && p == Root(c.sib)
      modifies this`mem
      ensures Linked(mem, c.(sib := Coloured(c.sib, red)), t) && Keeps(c, t, c.(sib := Coloured(c.sib, red)), t)
      ensures mem[NIL] == old(mem)[NIL] && |mem| == |old(mem)|
    {
      LookAcross(mem, c, t);
      SetRed(p, red, At(Other(c.side), c.v, t, c.up), c.sib);
      LookAcross(mem, c.(sib := Coloured(c.sib, red)), t);
    }

    /** The part of a rotation that sets links. */
    method Relink(s: Side, p: nat, y: nat, ghost k: Pivot, ghost vp: Val, ghost vy: Val)
      requires Ready(mem, k, vp, vy) && s == k.s && p == k.p && y == k.y
      modifies this`mem
      ensures Turned(old(mem), mem, k, vp, vy)
    {
      ghost var m0 := mem;
      PassInner(s, p, y, k, vp, vy);
      ghost var m1 := mem;
      var up := mem[p].parent;
      mem := mem[y := mem[y].(parent := up)];
      Hang(p, y, up, k.hole);
      assert mem[p] == m1[p] && mem[y] == NodeAt(s, vy, k.pb, k.pz, k.up);
      mem := mem[y := SetChild(mem[y], s, p)];
      mem := mem[p := mem[p].(parent := y)];
    }

    /** The inner subtree changes hands. */
    method PassInner(s: Side, p: nat, y: nat, ghost k: Pivot, ghost vp: Val, ghost vy: Val)
      requires Ready(mem, k, vp, vy) && s == k.s && p == k.p && y == k.y
      modifies this`mem
      ensures |mem| == |old(mem)| && mem[p] == NodeAt(s, vp, k.pa, k.pb, k.up)
      ensures k.pb != NIL ==> mem[k.pb] == old(mem)[k.pb].(parent := p)
      ensures forall i :: 0 <= i < |mem| && i != p && (i != k.pb || k.pb == NIL) ==> mem[i] == old(mem)[i]
    {
      var inner := ChildOf(mem[y], s);
      mem := mem[p := SetChild(mem[p], Other(s), inner)];
      if inner != NIL {
        mem := mem[inner := mem[inner].(parent := p)];
      }
    }

    /** The link of `up` that leads to p leads to y. */
    method Hang(p: nat, y: nat, up: nat, ghost hole: Side)
      requires up < |mem| && (mem[up].left == p <==> hole == Left)
      modifies this`mem
      ensures mem == old(mem)[up := SetChild(old(mem)[up], hole, y)]
    {
      if p == mem[up].left {
        mem := mem[up := mem[up].(left := y)];
      } else {
        mem := mem[up := mem[up].(right := y)];
      }
    }

    /** itree_rot_left for s == Left, itree_rot_right for s == Right. */
    method Rotate(s: Side, p: nat, ghost c: Ctx, ghost t: RB)
      requires Linked(mem, c, t) && CanRotate(s, t) && p == Root(t)
      modifies this`mem
      ensures Linked(mem, c, Rotated(s, t)) && Keeps(c, t, c, Rotated(s, t))
      ensures mem[NIL] == old(mem)[NIL] && |mem| == |old(mem)|
    {
      ghost var y := Child(t, Other(s));
      ghost var a, b, z := Child(t, s), Child(y, s), Child(y, Other(s));
      assert t == Join(s, a, t.v, Join(s, b, y.v, z));
      PivotReady(mem, s, c, a, t.v, b, y.v, z);
      ghost var k := PivotOf(s, c, a, t.v, b, y.v, z);
      RotateCells(s, p, k, t.v, y.v);
      RotatedItems(s, t);
      TurnedLinked(old(mem), mem, s, c, a, t.v, b, y.v, z, Child(Rotated(s, t), s).v, Rotated(s, t).v);
      if MaxOk(t) {
        RotatedMax(s, t);
      }
      KeepsInside(c, t, Rotated(s, t));
    }

    method RotateCells(s: Side, p: nat, ghost k: Pivot, ghost vp: Val, ghost vy: Val)
      requires Ready(mem, k, vp, vy) && s == k.s && p == k.p
      modifies this`mem
      ensures var mp := Best(vp, old(mem)[k.pa].mh, old(mem)[k.pb].mh);
              Turned(old(mem), mem, k, vp.(mh := mp), vy.(mh := Best(vy, mp, old(mem)[k.pz].mh)))
    {
      var y := ChildOf(mem[p], Other(s));
      ghost var m0 := mem;
      Relink(s, p, y, k, vp, vy);
      ghost var m1 := mem;
      SubtreesKept(m0, m1, k, vp, vy);
      RemaxIs(mem, p, s, vp, k.pa, k.pb, y);
      ghost var mp := Best(vp, m0[k.pa].mh, m0[k.pb].mh);
      Remax(p);
      RemaxIs(mem, y, s, vy, p, k.pz, k.up);
      Remax(y);
      RemaxedTurn(m0, m1, mem, k, vp, vy, mp, Best(vy, mp, m0[k.pz].mh));
    }

    /** Sets max_high of a node from its own upper end and its children. */
    method Remax(x: nat)
      requires x < |mem| && mem[x].left < |mem| && mem[x].right < |mem|
      modifies this`mem
      ensures mem == old(mem)[x := old(mem)[x].(mh := Max(old(mem)[x].hi, Max(old(mem)[old(mem)[x].left].mh,
            old(mem)[old(mem)[x].right].mh)))]
    {
      mem := mem[x := mem[x].(mh := Max(mem[x].hi, Max(mem[mem[x].left].mh, mem[mem[x].right].mh)))];
    }

    /** itree_fixup_max_high from the parent of t on. */
    method FixupMaxHigh(x0: nat, ghost c: Ctx, ghost t: RB)
      requires Linked(mem, c, t) && x0 == ParentOf(c)
      modifies this`mem
      ensures Linked(mem, Raised(c, MH(t)), t)
      ensures mem[NIL] == old(mem)[NIL] && |mem| == |old(mem)|
    {
      ghost var goal := Plug(Raised(c, MH(t)), t);
      ghost var up, s := c, t;
      var x := x0;
      while x != ROOT
        invariant Linked(mem, up, s) && x == ParentOf(up)
        invariant Plug(Raised(up, MH(s)), s) == goal
        invariant mem[NIL] == old(mem)[NIL] && |mem| == |old(mem)|
        decreases up
      {
        LookUp(mem, up, s);
        ghost var v := up.v.(mh := Best(up.v, MH(s), MH(up.sib)));
        Refocus(mem, up.side, s, up.v, up.sib, up.up);
        Revalued(mem, up.up, Join(up.side, s, up.v, up.sib), v);
        Remax(x);
        x := mem[x].parent;
        up, s := up.up, Join(up.side, s, v, up.sib);
      }
      LookUp(mem, up, s);
      FocusTop(mem, Raised(c, MH(t)), t);
    }

    // ---------------------------------------------------------------- insertion

    /** The descent of itree_ins_help: the parent of the empty place a new key goes to. */
    method FindPlace(lo: nat) returns (y: nat, ghost c: Ctx)
      requires Linked(mem, Top, tree) && ByLow(Items(tree))
      ensures Linked(mem, c, Nil) && Plug(c, Nil) == tree && y == ParentOf(c)
      ensures LowsUpto(Lower(c), lo) && LowsFrom(Upper(c), lo + 1)
      ensures c.At? ==> (c.side == Left <==> c.v.it.lo > lo)
    {
      ghost var t := tree;
      c := Top;
      y := ROOT;
      var x := mem[ROOT].left;
      while x != NIL
        invariant Linked(mem, c, t) && Plug(c, t) == tree && y == ParentOf(c) && x == Root(t)
        invariant LowsUpto(Lower(c), lo) && LowsFrom(Upper(c), lo + 1)
        invariant c.At? ==> (c.side == Left <==> c.v.it.lo > lo)
        decreases t
      {
        LookUp(mem, c, t);
        Around(c, t);
        SortedSplit(Lower(c) + Items(t.left), t.v.it, Items(t.right) + Upper(c));
        UptoParts(Lower(c), Items(t.left), t.v.it.lo);
        FromParts(Items(t.right), Upper(c), t.v.it.lo);
        y := x;
        if mem[x].lo > lo {
          x := mem[x].left;
          Refocus(mem, Left, t.left, t.v, t.right, c);
          c, t := At(Left, t.v, t.right, c), t.left;
        } else {
          x := mem[x].right;
          Refocus(mem, Right, t.right, t.v, t.left, c);
          c, t := At(Right, t.v, t.left, c), t.right;
        }
      }
    }

    /** itree_ins_help: hangs the node z, which is in no tree yet, where its key belongs. */
    method InsHelp(z: nat, ghost hi: nat, ghost data: int) returns (ghost c: Ctx)
      requires Linked(mem, Top, tree) && ByLow(Items(tree))
      requires ROOT < z < |mem| && z !in Ptrs(tree) && mem[z] == Node(mem[z].lo, hi, data, hi, false, NIL, NIL, NIL)
      modifies this`mem
      ensures Plug(c, Nil) == tree && Linked(mem, c, Leaf(z, old(mem)[z].lo, hi, data))
      ensures LowsUpto(Lower(c), old(mem)[z].lo) && LowsFrom(Upper(c), old(mem)[z].lo + 1)
    {
      mem := mem[z := mem[z].(left := NIL, right := NIL)];
      assert mem == old(mem);
      var y;
      y, c := FindPlace(mem[z].lo);
      PlugPtrs(c, Nil);
      CtxPtrsInMemory(mem, c, NIL);
      LookUp(mem, c, Nil);
      ghost var was := mem;
      mem := mem[z := mem[z].(parent := y)];
      if y == ROOT || mem[y].lo > mem[z].lo {
        mem := mem[y := mem[y].(left := z)];
      } else {
        mem := mem[y := mem[y].(right := z)];
      }
      Attached(was, mem, c, z, was[z].lo, hi, data);
    }

    /** The new node's parent and uncle are red: colours only, then on to the grandparent. */
    method RecolourUp(x: nat, y: nat, ghost c: Ctx, ghost t: RB, ghost h: int)
      returns (x': nat, ghost c': Ctx, ghost t': RB)
      requires Linked(mem, c, t) && InsOk(c, t, h) && FrameRed(c) && Red(c.up.sib) && x == Root(t)
      requires y == Root(c.up.sib)
      modifies this`mem
      ensures Linked(mem, c', t') && InsOk(c', t', h + 1) && x' == Root(t') && Depth(c') < Depth(c)
      ensures Keeps(c, t, c', t')
    {
      LookUp(mem, c, t);
      SetRedParent(mem[x].parent, false, c, t);
      ghost var c1 := c.(v := Painted(c.v, false));
      LookUp(mem, c1, t);
      ghost var t1 := Join(c1.side, t, c1.v, c1.sib);
      Refocus(mem, c1.side, t, c1.v, c1.sib, c1.up);
      SetRedSibling(y, false, c1.up, t1);
      ghost var c2 := c1.up.(sib := Coloured(c1.up.sib, false));
      LookUp(mem, c2, t1);
      assert mem[x].parent == Root(t1) by { LookUp(mem, c1.(up := c2), t); }
      x' := mem[mem[x].parent].parent;
      SetRedParent(x', true, c2, t1);
      c' := c2.up;
      t' := Join(c2.side, t1, Painted(c2.v, true), c2.sib);
      RecolouredOk(c, t, h);
    }

    /** A black uncle on the far side of an inner grandchild: itree_rot of the parent. */
    method Straighten(x: nat, ghost c: Ctx, ghost t: RB, ghost h: int) returns (x': nat, ghost c': Ctx, ghost t': RB)
      requires Linked(mem, c, t) && InsOk(c, t, h) && FrameRed(c) && !Red(c.up.sib) && c.side == Other(c.up.side)
      requires x == Root(t)
      modifies this`mem
      ensures Linked(mem, c', t') && InsOk(c', t', h) && x' == Root(t') && Depth(c') == Depth(c)
      ensures FrameRed(c') && !Red(c'.up.sib) && c'.side == c'.up.side && c'.up == c.up && Keeps(c, t, c', t')
    {
      LookUp(mem, c, t);
      ghost var s := c.up.side;
      ghost var p := Join(c.side, t, c.v, c.sib);
      x' := mem[x].parent;
      var y := mem[x'].parent;
      LookUp(mem, c.up, p);
      Rotate(if x' == mem[y].left then Left else Right, x', c.up, p);
      ghost var r := Rotated(s, p);
      c' := At(s, r.v, Child(r, Other(s)), c.up);
      t' := Child(r, s);
      StraightOk(c, t, h, t'.v.mh, r.v.mh);
    }

    /** A black uncle of an outer grandchild: parent and grandparent swap colours and places. */
    method TurnUp(x: nat, ghost c: Ctx, ghost t: RB, ghost h: int) returns (ghost c': Ctx)
      requires Linked(mem, c, t) && InsOk(c, t, h) && FrameRed(c) && !Red(c.up.sib) && c.side == c.up.side
      requires x == Root(t)
      modifies this`mem
      ensures Linked(mem, c', t) && InsOk(c', t, h) && Depth(c') < Depth(c) && Keeps(c, t, c', t)
    {
      LookUp(mem, c, t);
      SetRedParent(mem[x].parent, false, c, t);
      ghost var c1 := c.(v := Painted(c.v, false));
      LookUp(mem, c1, t);
      ghost var p1 := Join(c1.side, t, c1.v, c1.sib);
      Refocus(mem, c1.side, t, c1.v, c1.sib, c1.up);
      SetRedParent(mem[mem[x].parent].parent, true, c1.up, p1);
      ghost var c2 := c1.(up := c1.up.(v := Painted(c1.up.v, true)));
      LookUp(mem, c2, t);
      LookUp(mem, c2.up, p1);
      ghost var g := Join(c2.up.side, p1, c2.up.v, c2.up.sib);
      var gp := mem[mem[x].parent].parent;
      Rotate(if mem[x].parent == mem[gp].left then Right else Left, gp, c2.up.up, g);
      ghost var r := Rotated(Other(c.side), g);
      c' := At(c.side, r.v, Child(r, Other(c.side)), c2.up.up);
      TurnedOk(c, t, h, Child(r, Other(c.side)).v.mh, r.v.mh);
    }

    /** The loop of itree_add. */
    method InsFixup(x0: nat, ghost c0: Ctx, ghost t0: RB, ghost h0: int) returns (ghost r: RB)
      requires Linked(mem, c0, t0) && InsOk(c0, t0, h0) && x0 == Root(t0) && MaxOk(Plug(c0, t0))
      modifies this`mem
      ensures Linked(mem, Top, r) && RedBlack(r) && MaxOk(r) && Items(r) == Items(Plug(c0, t0))
    {
      ghost var c, t, h := c0, t0, h0;
      var x := x0;
      LookUp(mem, c, t);
      while mem[mem[x].parent].red
        invariant Linked(mem, c, t) && InsOk(c, t, h) && x == Root(t) && Keeps(c0, t0, c, t)
        invariant x < |mem| && mem[x].parent < |mem| && mem[mem[x].parent].red == FrameRed(c)
        decreases Depth(c)
      {
        LookUp(mem, c, t);
        Refocus(mem, c.side, t, c.v, c.sib, c.up);
        LookUp(mem, c.up, Join(c.side, t, c.v, c.sib));
        var p := mem[x].parent;
        var g := mem[p].parent;
        var side := if p == mem[g].left then Left else Right;
        var y := ChildOf(mem[g], Other(side));
        if mem[y].red {
          x, c, t := RecolourUp(x, y, c, t, h);
          h := h + 1;
        } else {
          if x == ChildOf(mem[p], Other(side)) {
            x, c, t := Straighten(x, c, t, h);
          }
          c := TurnUp(x, c, t, h);
        }
        LookUp(mem, c, t);
      }
      r := Blacken(c, t, h);
    }

    /** The root of the tree goes black at the end. */
    method Blacken(ghost c: Ctx, ghost t: RB, ghost h: int) returns (ghost r: RB)
      requires Linked(mem, c, t) && InsOk(c, t, h) && !FrameRed(c)
      modifies this`mem
      ensures Linked(mem, Top, r) && RedBlack(r) && Items(r) == Items(Plug(c, t)) && (MaxOk(Plug(c, t)) ==> MaxOk(r))
    {
      r := Plug(c, t);
      FocusTop(mem, c, t);
      LookUp(mem, Top, r);
      BlackIsBH(t, h);
      if c.At? {
        PlugColours(c, t, h);
      }
      PlugItems(c, t);
      var x := mem[ROOT].left;
      if x != NIL {
        BlackenedRoot(r);
        SetRed(x, false, Top, r);
        r := Coloured(r, false);
      }
    }

    method Add(lo: nat, hi: nat, data: int) returns (z: nat)
      requires Valid()
      modifies this
      ensures Valid() && !Has(old(Contents()), z)
      ensures Contents() == Inserted(old(Contents()), Item(z, lo, hi, data))
    {
      z := |mem|;
      Allocated(mem, Node(lo, hi, data, hi, false, NIL, NIL, NIL), tree);
      PtrsAreItems(tree, z);
      mem := mem + [Node(lo, hi, data, hi, false, NIL, NIL, NIL)];
      ghost var c := InsHelp(z, hi, data);
      ghost var leaf := Leaf(z, lo, hi, data);
      LookUp(mem, c, leaf);
      FixupMaxHigh(mem[z].parent, c, leaf);
      ghost var c1 := Raised(c, hi);
      SetRed(z, true, c1, leaf);
      ReadyToFix(tree, c, leaf);
      tree := InsFixup(z, c1, Coloured(leaf, true), 0);
      InsertedBetween(Lower(c), Upper(c), leaf.v.it);
      InsertedSorted(Lower(c), Upper(c), leaf.v.it);
    }

    // ---------------------------------------------------------------- deletion: colours

    /** A red sibling: colours and a rotation give x a black one. */
    method SiblingRed(side: Side, p: nat, w: nat, ghost c: Ctx, ghost t: RB, ghost h: int) returns (ghost c': Ctx)
      requires Linked(mem, c, t) && DelOk(c, t, h) && c.At? && Red(c.sib) && side == c.side && p == ParentOf(c)
      requires w == Root(c.sib)
      modifies this`mem
      ensures Linked(mem, c', t) && DelOk(c', t, h) && Keeps(c, t, c', t) && mem[NIL] == old(mem)[NIL]
      ensures FrameRed(c') && c'.side == side && ParentOf(c') == p && !Red(c'.sib) && c'.up.At?
      ensures Depth(c'.up) == Depth(c)
    {
      SetRedSibling(w, false, c, t);
      ghost var c1 := c.(sib := Coloured(c.sib, false));
      SetRedParent(p, true, c1, t);
      ghost var c2 := c1.(v := Painted(c1.v, true));
      ghost var g := Join(side, t, c2.v, c2.sib);
      Refocus(mem, side, t, c2.v, c2.sib, c2.up);
      Rotate(side, p, c2.up, g);
      ghost var r := Rotated(side, g);
      ghost var q := Child(r, side);
      c' := At(side, q.v, Child(q, Other(side)), At(side, r.v, Child(r, Other(side)), c.up));
      Refocus(mem, side, q, r.v, Child(r, Other(side)), c.up);
      Refocus(mem, side, t, q.v, Child(q, Other(side)), c'.up);
      SiblingRedOk(c, t, h, q.v.mh, r.v.mh);
    }

    /** The far nephew is black, the near one red: turning the sibling makes the far one red. */
    method FarRed(side: Side, p: nat, w: nat, ghost c: Ctx, ghost t: RB, ghost h: int) returns (w': nat, ghost c': Ctx)
      requires Linked(mem, c, t) && DelOk(c, t, h) && c.At? && side == c.side && p == ParentOf(c) && w == Root(c.sib)
      requires c.sib.Nd? && !Red(c.sib) && Red(Child(c.sib, side)) && !Red(Child(c.sib, Other(side)))
      modifies this`mem
      ensures Linked(mem, c', t) && DelOk(c', t, h) && Keeps(c, t, c', t) && mem[NIL] == old(mem)[NIL]
      ensures c'.At? && c' == c.(sib := c'.sib) && c'.sib.Nd? && !Red(c'.sib) && Red(Child(c'.sib, Other(side)))
      ensures w' == Root(c'.sib)
    {
      var o := Other(side);
      LookAcross(mem, c, t);
      ghost var across := At(o, c.v, t, c.up);
      ghost var near, far := Child(c.sib, side), Child(c.sib, o);
      LookUp(mem, across, c.sib);
      Refocus(mem, side, near, c.sib.v, far, across);
      SetRed(ChildOf(mem[w], side), false, At(side, c.sib.v, far, across), near);
      ghost var s1 := Join(side, Coloured(near, false), c.sib.v, far);
      SetRed(w, true, across, s1);
      ghost var s2 := Coloured(s1, true);
      Rotate(o, w, across, s2);
      ghost var s3 := Rotated(o, s2);
      c' := c.(sib := s3);
      LookAcross(mem, c', t);
      LookUp(mem, across, s3);
      LookUp(mem, c', t);
      FarRedOk(c, t, h, Child(s3, o).v.mh, s3.v.mh);
      w' := ChildOf(mem[p], o);
    }

    /** The far nephew is red: the last rotation. */
    method LastTurn(side: Side, p: nat, w: nat, ghost c: Ctx, ghost t: RB, ghost h: int) returns (ghost c': Ctx)
      requires Linked(mem, c, t) && DelOk(c, t, h) && c.At? && side == c.side && p == ParentOf(c) && w == Root(c.sib)
      requires !Red(t) && c.sib.Nd? && !Red(c.sib) && Red(Child(c.sib, Other(side)))
      modifies this`mem
      ensures Linked(mem, c', t) && Keeps(c, t, c', t) && RedBlack(Plug(c', t)) && mem[NIL] == old(mem)[NIL]
    {
      var o := Other(side);
      ghost var near, far := Child(c.sib, side), Child(c.sib, o);
      LookUp(mem, c, t);
      SetRedSibling(w, mem[p].red, c, t);
      ghost var c1 := c.(sib := Coloured(c.sib, c.v.red));
      SetRedParent(p, false, c1, t);
      ghost var c2 := c1.(v := Painted(c1.v, false));
      LookAcross(mem, c2, t);
      ghost var across := At(o, c2.v, t, c2.up);
      LookUp(mem, across, c2.sib);
      Refocus(mem, o, far, c2.sib.v, near, across);
      SetRed(ChildOf(mem[w], o), false, At(o, c2.sib.v, near, across), far);
      ghost var s3 := Join(side, near, c2.sib.v, Coloured(far, false));
      ghost var c3 := c2.(sib := s3);
      LookAcross(mem, c3, t);
      ghost var g := Join(side, t, c3.v, s3);
      Refocus(mem, side, t, c3.v, s3, c3.up);
      Rotate(side, p, c3.up, g);
      ghost var r := Rotated(side, g);
      ghost var q := Child(r, side);
      c' := At(side, q.v, near, At(side, r.v, Coloured(far, false), c.up));
      Refocus(mem, side, q, r.v, Coloured(far, false), c.up);
      Refocus(mem, side, t, q.v, near, c'.up);
      LastTurnOk(c, t, h, q.v.mh, r.v.mh);
    }

    /** One round of itree_del_fixup at a black x that is not the root. */
    method DelStep(x: nat, ghost c: Ctx, ghost t: RB, ghost h: int)
      returns (done: bool, x': nat, ghost c': Ctx, ghost t': RB, ghost h': int)
      requires Linked(mem, c, t) && DelOk(c, t, h) && c.At? && !Red(t) && x == Root(t) && x < |mem|
      requires mem[x].parent == ParentOf(c)
      modifies this`mem
      ensures Linked(mem, c', t') && Keeps(c, t, c', t') && x' == Root(t') && x' < |mem|
      ensures done ==> !Red(t') && RedBlack(Plug(c', t'))
      ensures !done ==> DelOk(c', t', h') && (Red(t') || Depth(c') < Depth(c)) && mem[x'].parent == ParentOf(c')
      ensures !done && !Red(t') ==> Root(Plug(c', t')) == Root(Plug(c, t))
    {
      c', t', h' := c, t, h;
      SiblingThere(c, t, h);
      LookUp(mem, c, t);
      var p := mem[x].parent;
      var side := if x == mem[p].left then Left else Right;
      var w := ChildOf(mem[p], Other(side));
      if mem[w].red {
        c' := SiblingRed(side, p, w, c, t, h);
        SiblingThere(c', t, h);
        LookUp(mem, c', t);
        w := ChildOf(mem[p], Other(side));
      }
      ghost var c1 := c';
      done, c', t', h' := BlackSibling(side, p, w, c1, t, h);
      if !done {
        RootFar(c1.up, Join(side, t, c1.v, c1.sib), t');
      }
      x' := if done then x else p;
      LookUp(mem, c', t');
    }

    /** The rest of the round, with a black sibling. */
    method BlackSibling(side: Side, p: nat, w0: nat, ghost c: Ctx, ghost t: RB, ghost h: int)
      returns (done: bool, ghost c': Ctx, ghost t': RB, ghost h': int)
      requires Linked(mem, c, t) && DelOk(c, t, h) && c.At? && !Red(t) && side == c.side && p == ParentOf(c)
      requires c.sib.Nd? && !Red(c.sib) && w0 == Root(c.sib)
      modifies this`mem
      ensures Linked(mem, c', t') && Keeps(c, t, c', t')
      ensures done ==> t' == t && RedBlack(Plug(c', t'))
      ensures !done ==>
                DelOk(c', t', h') && c' == c.up && t' == Join(side, t, c.v, Coloured(c.sib, true)) && p < |mem|
                      && mem[p].parent == ParentOf(c')
    {
      var w := w0;
      NephewsRead(mem, c, t, side);
      if !mem[mem[w].right].red && !mem[mem[w].left].red {
        SetRedSibling(w, true, c, t);
        SiblingPaintedOk(c, t, h);
        ghost var s1 := Coloured(c.sib, true);
        Refocus(mem, side, t, c.v, s1, c.up);
        LookUp(mem, c.(sib := s1), t);
        done, c', t', h' := false, c.up, Join(side, t, c.v, s1), h + Unit(c.v);
        return;
      }
      c' := c;
      if !mem[ChildOf(mem[w], Other(side))].red {
        w, c' := FarRed(side, p, w, c, t, h);
      }
      c' := LastTurn(side, p, w, c', t, h);
      done, t', h' := true, t, h;
    }

    /** itree_del_fixup: x carries one black too few. */
    method DelFixup(x0: nat, ghost c0: Ctx, ghost t0: RB, ghost h0: int) returns (ghost r: RB)
      requires Linked(mem, c0, t0) && DelOk(c0, t0, h0) && x0 == Root(t0) && x0 < |mem|
      requires mem[x0].parent == ParentOf(c0)
      modifies this`mem
      ensures Linked(mem, Top, r) && RedBlack(r) && Items(r) == Items(Plug(c0, t0))
      ensures (MaxOk(Plug(c0, t0)) ==> MaxOk(r))
    {
      ghost var c, t, h := c0, t0, h0;
      var x := x0;
      FocusTop(mem, c, t);
      LookUp(mem, Top, Plug(c, t));
      var rl := mem[ROOT].left;
      var done := false;
      LookUp(mem, c, t);
      RootAbove(mem, c, t);
      while !mem[x].red && rl != x
        invariant Linked(mem, c, t) && Keeps(c0, t0, c, t) && DelOk(c, t, h)
        invariant x == Root(t) && x < |mem| && mem[x].parent == ParentOf(c) && mem[x].red == Red(t)
        invariant Red(t) || rl == Root(Plug(c, t))
        invariant !Red(t) && c.At? ==> Root(Plug(c, t)) != Root(t)
        decreases if Red(t) then 0 else 1 + Depth(c)
      {
        done, x, c, t, h := DelStep(x, c, t, h);
        LookUp(mem, c, t);
        RootAbove(mem, c, t);
        if done {
          break;
        }
      }
      r := Finish(x, c, t, h, done);
    }

    /** x goes black at the end. */
    method Finish(x: nat, ghost c: Ctx, ghost t: RB, ghost h: int, ghost done: bool) returns (ghost r: RB)
      requires Linked(mem, c, t) && x == Root(t) && x < |mem|
      requires if done then !Red(t) && RedBlack(Plug(c, t)) else DelOk(c, t, h) && (Red(t) || c.Top?)
      modifies this`mem
      ensures Linked(mem, Top, r) && RedBlack(r) && Items(r) == Items(Plug(c, t)) && (MaxOk(Plug(c, t)) ==> MaxOk(r))
    {
      LookUp(mem, c, t);
      ghost var b := Blackened(t);
      r := Plug(c, b);
      if done {
        assert b == t;
      } else {
        DelDone(c, t, h);
      }
      ghost var m := mem[x := mem[x].(red := false)];
      if Red(t) {
        ColouredKeeps(c, t, false);
        Revalued(mem, c, t, Painted(t.v, false));
        assert Linked(m, c, b);
      } else {
        assert m == mem && b == t;
      }
      mem := mem[x := mem[x].(red := false)];
      FocusTop(mem, c, b);
    }

    // ---------------------------------------------------------------- deletion: links

    /** Node y, which lacks a child, gives its place to the other one. */
    method SpliceOut(y: nat, ghost c: Ctx, ghost t: RB) returns (x: nat)
      requires Linked(mem, c, t) && t.Nd? && (t.left.Nil? || t.right.Nil?) && y == Root(t)
      modifies this`mem
      ensures Linked(mem, c, OnlyChild(t)) && x == Root(OnlyChild(t)) && |mem| == |old(mem)|
      ensures x < |mem| && mem[x].parent == ParentOf(c) && y < |mem| && mem[y] == old(mem)[y]
    {
      ghost var s := OnlyChild(t);
      LookUp(mem, c, t);
      Apart(c, t);
      ApartNode(t);
      RootInPtrs(s);
      CtxPtrsInMemory(mem, c, y);
      PtrsInMemory(mem, t, ParentOf(c));
      assert c.At? ==> ParentOf(c) in CtxPtrs(c);
      ghost var was := mem;
      x := if mem[y].left == NIL then mem[y].right else mem[y].left;
      mem := mem[x := mem[x].(parent := mem[y].parent)];
      if ROOT == mem[x].parent {
        mem := mem[ROOT := mem[ROOT].(left := x)];
      } else {
        Hang(y, x, mem[y].parent, Hole(c));
      }
      Spliced(was, mem, c, t);
    }

    /** The first node of the right subtree, as __succ_of finds it. */
    method FirstRight(z: nat, ghost c: Ctx, ghost t: RB) returns (y: nat, ghost cy: Ctx, ghost s: RB)
      requires Linked(mem, c, t) && t.Nd? && t.right.Nd? && z == Root(t)
      ensures t.right == Plug(cy, s) && LeftOnly(cy) && s.Nd? && s.left.Nil? && y == Root(s)
    {
      LookUp(mem, c, t);
      ghost var base := At(Right, t.v, t.left, c);
      Refocus(mem, Right, t.right, t.v, t.left, c);
      y := mem[z].right;
      cy, s := Top, t.right;
      LookUp(mem, base, s);
      while mem[y].left != NIL
        invariant Linked(mem, Under(cy, base), s) && LeftOnly(cy) && Plug(cy, s) == t.right && s.Nd? && y == Root(s)
        invariant y < |mem| && mem[y].left == Root(s.left)
        decreases s
      {
        Refocus(mem, Left, s.left, s.v, s.right, Under(cy, base));
        LeftUnder(cy, s.v, s.right, base);
        y := mem[y].left;
        cy, s := At(Left, s.v, s.right, cy), s.left;
        LookUp(mem, Under(cy, base), s);
      }
      assert Shape(mem, s.left, y);
    }

    /** The node z with links at pl, pr and up, where y is to go. */
    ghost predicate Vacating(y: nat, z: nat, left: nat, right: nat, up: nat, hole: Side)
      reads this
    {
      && y < |mem| && z < |mem| && left < |mem| && right < |mem| && up < |mem| && NilOk(mem)
      && mem[z].left == left && mem[z].right == right && mem[z].parent == up
      && y != z && y != left && y != right && y != up && y != NIL && z != left && z != right && z != up && z != NIL
      && up != left && up != right && up != NIL && left != NIL && left != right
      && (mem[up].left == z <==> hole == Left)
    }

    /** The assignments that put y in the place of z. */
    method Replace(y: nat, z: nat, ghost left: nat, ghost right: nat, ghost up: nat, ghost hole: Side)
      requires Vacating(y, z, left, right, up, hole)
      modifies this`mem
      ensures |mem| == |old(mem)| && NilOk(mem) && mem[NIL].parent == if right == NIL then y else old(mem)[NIL].parent
      ensures mem[y] == old(mem)[y].(mh := MIN_KEY, left := left, right := right, parent := up)
      ensures mem[up] == SetChild(old(mem)[up], hole, y) && mem[left] == old(mem)[left].(parent := y)
      ensures right != NIL ==> mem[right] == old(mem)[right].(parent := y)
      ensures forall i :: 0 < i < |mem| && i != y && i != up && i != left && i != right ==> mem[i] == old(mem)[i]
    {
      mem := mem[y := mem[y].(mh := MIN_KEY)];
      mem := mem[y := mem[y].(left := mem[z].left)];
      mem := mem[y := mem[y].(right := mem[z].right)];
      mem := mem[y := mem[y].(parent := mem[z].parent)];
      Adopt(y, z);
      Hang(z, y, mem[z].parent, hole);
    }

    /** The children of z get y for a parent. */
    method Adopt(y: nat, z: nat)
      requires z < |mem| && y < |mem| && mem[z].left < |mem| && mem[z].right < |mem| && mem[z].left != z
      requires mem[z].right != z && mem[z].left != mem[z].right
      modifies this`mem
      ensures |mem| == |old(mem)|
      ensures mem[old(mem)[z].left] == old(mem)[old(mem)[z].left].(parent := y)
      ensures mem[old(mem)[z].right] == old(mem)[old(mem)[z].right].(parent := y)
      ensures forall i :: 0 <= i < |mem| && i != old(mem)[z].left && i != old(mem)[z].right ==> mem[i] == old(mem)[i]
    {
      mem := mem[mem[z].right := mem[mem[z].right].(parent := y)];
      mem := mem[mem[z].left := mem[mem[z].left].(parent := y)];
    }

    /** Node y takes the place of z, the root of t. */
    method Transplant(y: nat, z: nat, ghost c: Ctx, ghost t: RB, ghost v: Val)
      requires Linked(mem, c, t) && t.Nd? && t.left.Nd? && z == Root(t) && v.it.p == y && v.mh == MIN_KEY
      requires ROOT < y < |mem| && y !in Ptrs(t) && y !in CtxPtrs(c)
      requires mem[y] == Node(v.it.lo, v.it.hi, v.it.data, mem[y].mh, v.red, mem[y].left, mem[y].right, mem[y].parent)
      modifies this`mem
      ensures Linked(mem, c, t.(v := v)) && |mem| == |old(mem)|
      ensures mem[NIL].parent == if t.right.Nil? then y else old(mem)[NIL].parent
    {
      Apart(c, t);
      ApartNode(t);
      RootInPtrs(t.left);
      RootInPtrs(t.right);
      LookUp(mem, c, t);
      CtxPtrsInMemory(mem, c, z);
      PtrsInMemory(mem, t, ParentOf(c));
      assert c.At? ==> ParentOf(c) in CtxPtrs(c);
      ghost var was := mem;
      Replace(y, z, Root(t.left), Root(t.right), ParentOf(c), Hole(c));
      Transplanted(was, mem, c, t, v);
    }

    /** Deletion of a node that lacks a child. */
    method DelOuter(z: nat, ghost c: Ctx, ghost t: RB) returns (ghost r: RB)
      requires Linked(mem, c, t) && t.Nd? && (t.left.Nil? || t.right.Nil?) && z == Root(t)
      requires RedBlack(Plug(c, t)) && MaxOk(Plug(c, t))
      modifies this`mem
      ensures Linked(mem, Top, r) && RedBlack(r) && MaxOk(r)
      ensures Items(r) == Lower(c) + Items(t.left) + (Items(t.right) + Upper(c))
    {
      LookUp(mem, c, t);
      var red := mem[z].red;
      var x := SpliceOut(z, c, t);
      ghost var s := OnlyChild(t);
      ghost var c1 := Raised(c, MH(s));
      FixupMaxHigh(mem[x].parent, c, s);
      RaisedSame(c, MH(s), 0);
      LookUp(mem, c1, s);
      RaisedAlike(c, MH(s));
      SplicedColours(c, t, c1);
      UnplugMax(c, t);
      RaisedPlugMax(c, s);
      SplicedItems(c, t);
      PlugItems(c1, s);
      PlugItems(c, s);
      if !red {
        r := DelFixup(x, c1, s, BH(t) - 1);
      } else {
        r := Plug(c1, s);
        FocusTop(mem, c1, s);
      }
    }

    /** Node y, spliced out already, moves to the place of z. */
    method MoveIn(x: nat, y: nat, z: nat, ghost c: Ctx, ghost t: RB, ghost cy: Ctx, ghost s: RB, ghost v: Val)
      requires t.Nd? && t.left.Nd? && z == Root(t) && s.Nd? && s.left.Nil? && t.right == Plug(cy, s) && y == Root(s)
      requires Distinct(Items(Plug(c, t))) && Linked(mem, Under(cy, At(Right, t.v, t.left, c)), s.right)
      requires x == Root(s.right) && x < |mem| && mem[x].parent == ParentOf(Under(cy, At(Right, t.v, t.left, c)))
      requires ROOT < y < |mem| && v == Val(s.v.it, s.v.red, MIN_KEY)
      requires mem[y] == Node(v.it.lo, v.it.hi, v.it.data, mem[y].mh, v.red, mem[y].left, mem[y].right, mem[y].parent)
      modifies this`mem
      ensures Linked(mem, Under(cy, At(Right, v, t.left, c)), s.right) && x < |mem|
      ensures mem[x].parent == ParentOf(Under(cy, At(Right, v, t.left, c)))
    {
      ghost var u := s.right;
      ghost var base, base' := At(Right, t.v, t.left, c), At(Right, v, t.left, c);
      ghost var t1 := t.(right := Plug(cy, u));
      FocusUnder(mem, cy, base, u);
      Refocus(mem, Right, Plug(cy, u), t.v, t.left, c);
      NotThere(c, t, cy, s);
      Transplant(y, z, c, t1, v);
      Refocus(mem, Right, Plug(cy, u), v, t.left, c);
      FocusUnder(mem, cy, base', u);
      LookUp(mem, Under(cy, base'), u);
      PlugIsNil(cy, u);
    }

    /** Node y at z's place takes z's colour too; if a black node is gone the colours are mended. */
    method Inherit(x: nat, y: nat, zred: bool, yred: bool, ghost c: Ctx, ghost t: RB, ghost cy: Ctx, ghost s: RB,
                   ghost k: Ctx)
      returns (ghost r: RB)
      requires t.Nd? && s.Nd? && s.left.Nil? && t.right == Plug(cy, s) && y == Root(s) && zred == t.v.red
      requires yred == s.v.red
      requires RedBlack(Plug(c, t)) && MaxOk(Plug(c, t)) && LeftOnly(cy)
      requires k == Raised(Under(cy, At(Right, Val(s.v.it, s.v.red, MIN_KEY), t.left, c)), MH(s.right))
      requires Linked(mem, k, s.right) && x == Root(s.right) && x < |mem| && mem[x].parent == ParentOf(k)
      modifies this`mem
      ensures Linked(mem, Top, r) && RedBlack(r) && MaxOk(r)
      ensures Items(r) == Lower(c) + Items(t.left) + (Items(t.right) + Upper(c))
    {
      ghost var u, v := s.right, Val(s.v.it, s.v.red, MIN_KEY);
      ghost var m := Above(cy, MH(u));
      ghost var cy', v', c' := Raised(cy, MH(u)), v.(mh := Best(v, m, MH(t.left))), Raised(c, Best(v, m, MH(t.left)));
      RaisedUnder(cy, At(Right, v, t.left, c), MH(u));
      ghost var t' := Nd(t.left, v', Plug(cy', u));
      Lift(mem, cy', v', t.left, c', u);
      InheritedMax(c, t, cy, s);
      SetRed(y, zred, c', t');
      ghost var v3 := Painted(v', zred);
      ghost var k' := Under(cy', At(Right, v3, t.left, c'));
      Lift(mem, cy', v3, t.left, c', u);
      RaisedSame(cy, MH(u), 0);
      RaisedSame(c, Best(v, m, MH(t.left)), 0);
      RaisedAlike(cy, MH(u));
      RaisedAlike(c, Best(v, m, MH(t.left)));
      UnderAlike(cy, cy', At(Right, t.v, t.left, c), At(Right, v3, t.left, c'));
      PlugUnder(cy, At(Right, t.v, t.left, c), s);
      SplicedColours(Under(cy, At(Right, t.v, t.left, c)), s, k');
      InheritedItems(c, t, cy, s, cy', Coloured(t', zred), c');
      LookUp(mem, k', u);
      if !yred {
        r := DelFixup(x, k', u, BH(s) - 1);
      } else {
        r := Plug(k', u);
        FocusTop(mem, k', u);
      }
    }

    /** Deletion of a node z with two children: the next node y in order comes to its place. */
    method DelInner(z: nat, ghost c: Ctx, ghost t: RB) returns (ghost r: RB)
      requires Linked(mem, c, t) && t.Nd? && t.left.Nd? && t.right.Nd? && z == Root(t)
      requires RedBlack(Plug(c, t)) && MaxOk(Plug(c, t))
      modifies this`mem
      ensures Linked(mem, Top, r) && RedBlack(r) && MaxOk(r)
      ensures Items(r) == Lower(c) + Items(t.left) + (Items(t.right) + Upper(c))
    {
      ghost var cy, s;
      var y;
      y, cy, s := FirstRight(z, c, t);
      ghost var yc := Under(cy, At(Right, t.v, t.left, c));
      PlugUnder(cy, At(Right, t.v, t.left, c), s);
      FocusTop(mem, c, t);
      FocusTop(mem, yc, s);
      LookUp(mem, c, t);
      LookUp(mem, yc, s);
      var zred, yred := mem[z].red, mem[y].red;
      var x := SpliceOut(y, yc, s);
      ghost var v := Val(s.v.it, s.v.red, MIN_KEY);
      MoveIn(x, y, z, c, t, cy, s, v);
      ghost var k := Under(cy, At(Right, v, t.left, c));
      FixupMaxHigh(mem[x].parent, k, s.right);
      RaisedSame(k, MH(s.right), 0);
      LookUp(mem, Raised(k, MH(s.right)), s.right);
      r := Inherit(x, y, zred, yred, c, t, cy, s, Raised(k, MH(s.right)));
    }

    /** itree_del_node: takes the node z out and hands back its data. */
    method DelNode(z: nat) returns (data: int)
      requires Valid() && Has(Contents(), z)
      modifies this
      ensures Valid() && Contents() == Removed(old(Contents()), z)
      ensures exists i :: 0 <= i < |old(Contents())| && old(Contents())[i].p == z && old(Contents())[i].data == data
    {
      PtrsAreItems(tree, z);
      ghost var c, t := Locate(Top, tree, z);
      FocusTop(mem, c, t);
      LookUp(mem, c, t);
      Around(c, t);
      ghost var a, b := Lower(c) + Items(t.left), Items(t.right) + Upper(c);
      RemovedBetween(a, t.v.it, b);
      RemovedSorted(a, t.v.it, b);
      assert Items(tree)[|a|] == t.v.it;
      data := mem[z].data;
      assert Shape(mem, t.left, z) && Shape(mem, t.right, z);
      ghost var r;
      if mem[z].left == NIL || mem[z].right == NIL {
        r := DelOuter(z, c, t);
      } else {
        r := DelInner(z, c, t);
      }
      tree := r;
    }
  }

  /** Where in the tree a node is. */
  lemma Locate(c: Ctx, t: RB, z: nat) returns (c': Ctx, t': RB)
    requires z in Ptrs(t)
    ensures Plug(c', t') == Plug(c, t) && t'.Nd? && Root(t') == z
    decreases t
  {
    if t.v.it.p == z {
      return c, t;
    } else if z in Ptrs(t.left) {
      c', t' := Locate(At(Left, t.v, t.right, c), t.left, z);
    } else {
      c', t' := Locate(At(Right, t.v, t.left, c), t.right, z);
    }
  }

  /** Focus on the node v below c' whose right subtree is u in the context cy. */
  lemma Lift(mem: Memory, cy: Ctx, v: Val, l: RB, c: Ctx, u: RB)
    ensures Linked(mem, Under(cy, At(Right, v, l, c)), u) <==> Linked(mem, c, Nd(l, v, Plug(cy, u)))
    ensures Plug(Under(cy, At(Right, v, l, c)), u) == Plug(c, Nd(l, v, Plug(cy, u)))
  {
    FocusUnder(mem, cy, At(Right, v, l, c), u);
    Refocus(mem, Right, Plug(cy, u), v, l, c);
    PlugUnder(cy, At(Right, v, l, c), u);
  }

  lemma InheritedMax(c: Ctx, t: RB, cy: Ctx, s: RB)
    requires t.Nd? && s.Nd? && t.right == Plug(cy, s) && MaxOk(Plug(c, t))
    ensures MaxOk(Plug(Raised(Under(cy, At(Right, Val(s.v.it, s.v.red, MIN_KEY), t.left, c)), MH(s.right)), s.right))
  {
    UnplugMax(c, t);
    UnplugMax(cy, s);
    SidesUnder(cy, At(Right, Val(s.v.it, s.v.red, MIN_KEY), t.left, c));
    RaisedPlugMax(Under(cy, At(Right, Val(s.v.it, s.v.red, MIN_KEY), t.left, c)), s.right);
  }

  lemma {:induction false} InheritedItems(c: Ctx, t: RB, cy: Ctx, s: RB, cy': Ctx, t': RB, c': Ctx)
    requires t.Nd? && s.Nd? && s.left.Nil? && t.right == Plug(cy, s) && LeftOnly(cy)
    requires Lower(c') == Lower(c) && Upper(c') == Upper(c) && Lower(cy') == Lower(cy) && Upper(cy') == Upper(cy)
    requires t'.Nd? && t'.left == t.left && t'.v.it == s.v.it && t'.right == Plug(cy', s.right)
    ensures Items(Plug(c', t')) == Lower(c) + Items(t.left) + (Items(t.right) + Upper(c))
  {
    Around(c', t');
    PlugItems(cy', s.right);
    PlugItems(cy, s.right);
    FirstItem(cy, s.v, s.right);
    assert s == Nd(Nil, s.v, s.right);
    OneAhead(Lower(c) + Items(t.left), s.v.it, Items(t'.right), Upper(c));
  }

  lemma OneAhead(a: seq<Item>, it: Item, r: seq<Item>, b: seq<Item>)
    ensures a + [it] + (r + b) == a + ([it] + r + b)
  {
  }

  lemma PlugIsNil(c: Ctx, t: RB)
    ensures Plug(c, t).Nil? <==> c.Top? && t.Nil?
  {
    if c.At? {
      PlugIsNil(c.up, Join(c.side, t, c.v, c.sib));
    }
  }

  /** Once spliced out y is nowhere in the tree. */
  lemma NotThere(c: Ctx, t: RB, cy: Ctx, s: RB)
    requires t.Nd? && s.Nd? && s.left.Nil? && t.right == Plug(cy, s) && Distinct(Items(Plug(c, t)))
    ensures Root(s) !in Ptrs(t.(right := Plug(cy, s.right))) && Root(s) !in CtxPtrs(c)
  {
    var yc := Under(cy, At(Right, t.v, t.left, c));
    var t1 := t.(right := Plug(cy, s.right));
    PlugUnder(cy, At(Right, t.v, t.left, c), s);
    PlugUnder(cy, At(Right, t.v, t.left, c), s.right);
    SplicedItems(yc, s);
    DistinctLess(Lower(yc) + Items(s.left), s.v.it, Items(s.right) + Upper(yc));
    PtrsAreItems(Plug(c, t1), Root(s));
    PlugPtrs(c, t1);
  }

  /** The colours of the sibling's children as the links read them. */
  lemma NephewsRead(mem: Memory, c: Ctx, t: RB, side: Side)
    requires Linked(mem, c, t) && c.At? && c.sib.Nd? && side == c.side
    ensures var w := Root(c.sib);
            && w < |mem| && mem[w].left < |mem| && mem[w].right < |mem|
            && mem[mem[w].left].red == Red(c.sib.left) && mem[mem[w].right].red == Red(c.sib.right)
  {
    LookAcross(mem, c, t);
    var across := At(Other(side), c.v, t, c.up);
    Refocus(mem, Left, c.sib.left, c.sib.v, c.sib.right, across);
    LookUp(mem, At(Left, c.sib.v, c.sib.right, across), c.sib.left);
  }

  lemma RootAbove(mem: Memory, c: Ctx, t: RB)
    requires Linked(mem, c, t)
    ensures c.At? ==> Root(Plug(c, t)) != Root(t)
  {
    if c.At? {
      RootInCtx(c, t);
      CtxPtrsInMemory(mem, c, Root(t));
      Apart(c, t);
      RootInPtrs(t);
    }
  }

  lemma RootInCtx(c: Ctx, t: RB)
    requires c.At?
    ensures Root(Plug(c, t)) in CtxPtrs(c)
  {
    if c.up.At? {
      RootInCtx(c.up, Join(c.side, t, c.v, c.sib));
    }
  }

  /** The new leaf, coloured red, is all that may be wrong. */
  lemma ReadyToFix(tree: RB, c: Ctx, leaf: RB)
    requires RedBlack(tree) && MaxOk(tree) && tree == Plug(c, Nil) && leaf.Nd? && leaf.left.Nil? && leaf.right.Nil?
    requires leaf.v.mh == leaf.v.it.hi
    ensures InsOk(Raised(c, MH(leaf)), Coloured(leaf, true), 0)
    ensures MaxOk(Plug(Raised(c, MH(leaf)), Coloured(leaf, true)))
    ensures Items(tree) == Lower(c) + Upper(c)
    ensures Items(Plug(Raised(c, MH(leaf)), Coloured(leaf, true))) == Lower(c) + [leaf.v.it] + Upper(c)
  {
    var c1 := Raised(c, MH(leaf));
    UnplugColours(c, Nil);
    RaisedSame(c, MH(leaf), 0);
    PlugMax(c, Nil);
    CtxMaxSides(c, MIN_KEY);
    RaisedMax(c, MH(leaf));
    PlugMax(c1, Coloured(leaf, true));
    PlugItems(c, Nil);
    PlugItems(c1, Coloured(leaf, true));
    assert Items(Coloured(leaf, true)) == [leaf.v.it];
    assert Lower(c) + [] + Upper(c) == Lower(c) + Upper(c);
  }

  lemma PlugPtrs(c: Ctx, t: RB)
    ensures Ptrs(Plug(c, t)) == CtxPtrs(c) + Ptrs(t)
    decreases c
  {
    if c.At? {
      PlugPtrs(c.up, Join(c.side, t, c.v, c.sib));
    }
  }

  lemma UptoParts(a: seq<Item>, l: seq<Item>, k: nat)
    requires LowsUpto(a + l, k)
    ensures LowsUpto(a, k) && LowsUpto(l, k)
  {
    assert forall i {:trigger a[i]} :: 0 <= i < |a| ==> a[i] == (a + l)[i];
    assert forall i {:trigger l[i]} :: 0 <= i < |l| ==> l[i] == (a + l)[|a| + i];
  }

  lemma FromParts(r: seq<Item>, b: seq<Item>, k: nat)
    requires LowsFrom(r + b, k)
    ensures LowsFrom(r, k) && LowsFrom(b, k)
  {
    assert forall i {:trigger r[i]} :: 0 <= i < |r| ==> r[i] == (r + b)[i];
    assert forall i {:trigger b[i]} :: 0 <= i < |b| ==> b[i] == (r + b)[|r| + i];
  }
}
