/** Traversal and search in the interval tree of src/intvtree.c, with its explicit stack of
    nodes and its short cut at nodes that lack a child. */
module IntervalQuery {
  import opened Basics
  import opened IntervalTheory
  import opened IntervalMemory
  import opened IntervalTree

  const NDSTK_SIZE: nat := 128

  class NodeStack {
    const stk: array<nat>
    var idx: nat

    ghost predicate Valid()
      reads this
    {
      stk.Length == NDSTK_SIZE && idx <= NDSTK_SIZE
    }

    ghost function Contents(): seq<nat>
      requires Valid()
      reads this, stk
    {
      stk[..idx]
    }

    constructor ()
      ensures Valid() && fresh(stk) && Contents() == []
    {
      stk := new nat[NDSTK_SIZE];
      idx := 0;
    }

    method Push(nd: nat)
      requires Valid() && idx < NDSTK_SIZE
      modifies this, stk
      ensures Valid() && Contents() == old(Contents()) + [nd]
    {
      stk[idx] := nd;
      idx := idx + 1;
    }

    /** The last node pushed, nil from an empty stack. */
    method Pop() returns (nd: nat)
      requires Valid()
      modifies this
      ensures Valid()
      ensures old(Contents()) == [] ==> nd == NIL && Contents() == []
      ensures old(Contents()) != [] ==> old(Contents()) == Contents() + [nd]
    {
      if idx == 0 {
        return NIL;
      }
      idx := idx - 1;
      return stk[idx];
    }
  }

  // ---------------------------------------------------------------- subtrees in memory

  /** The memory holds t somewhere. */
  ghost predicate Held(mem: Memory, t: RB) {
    NilOk(mem) && (t.Nd? ==> Root(t) < |mem| && Shape(mem, t, mem[Root(t)].parent))
  }

  lemma HeldRead(mem: Memory, t: RB)
    requires Held(mem, t)
    ensures Root(t) < |mem| && mem[Root(t)].mh == MH(t) && (Root(t) == NIL <==> t.Nil?)
    ensures t.Nd? ==> Held(mem, t.left) && Held(mem, t.right)
    ensures t.Nd? ==> mem[Root(t)].left == Root(t.left) && mem[Root(t)].right == Root(t.right)
    ensures t.Nd? ==> ItemAt(mem, Root(t)) == t.v.it
  {
    assert t.Nd? ==> Shape(mem, t.left, Root(t)) && Shape(mem, t.right, Root(t));
  }

  function ItemAt(mem: Memory, p: nat): Item
    requires p < |mem|
  {
    Item(p, mem[p].lo, mem[p].hi, mem[p].data)
  }

  predicate Balanced(t: RB) { RedOk(t) && Black(t, BH(t)) }

  lemma BalancedParts(t: RB)
    requires Balanced(t) && t.Nd?
    ensures Balanced(t.left) && Balanced(t.right) && BH(t.left) == BH(t.right) == BH(t) - Unit(t.v)
  {
    BlackIsBH(t.right, BH(t) - Unit(t.v));
  }

  predicate IsLeaf(t: RB) { t.Nd? ==> t.left.Nil? && t.right.Nil? }

  /** The short cut is sound: below a node that lacks a child there are only single nodes. */
  lemma ShortCut(t: RB)
    requires Balanced(t) && t.Nd? && (t.left.Nil? || t.right.Nil?)
    ensures IsLeaf(t.left) && IsLeaf(t.right)
  {
    BalancedParts(t);
    SingleIfFlat(t.left);
    SingleIfFlat(t.right);
  }

  lemma SingleIfFlat(t: RB)
    requires Balanced(t) && BH(t) == 0
    ensures IsLeaf(t)
  {
    if t.Nd? {
      BalancedParts(t);
      BlackIsBH(t.left, BH(t.left));
      NilIfFlatAndBlack(t.left);
      NilIfFlatAndBlack(t.right);
    }
  }

  lemma NilIfFlatAndBlack(t: RB)
    requires Balanced(t) && BH(t) == 0 && !Red(t)
    ensures t.Nil?
  {
    if t.Nd? {
      BlackIsBH(t.left, BH(t) - 1);
      assert false;
    }
  }

  // ---------------------------------------------------------------- how high a tree is

  function Height(t: RB): nat {
    if t.Nil? then 0 else 1 + if Height(t.left) >= Height(t.right) then Height(t.left) else Height(t.right)
  }

  lemma {:induction false} HeightBound(t: RB)
    requires Balanced(t)
    ensures Height(t) <= 2 * BH(t) + if Red(t) then 1 else 0
    decreases t
  {
    if t.Nd? {
      BalancedParts(t);
      HeightBound(t.left);
      HeightBound(t.right);
    }
  }

  lemma {:induction false} SizeBound(t: RB)
    requires Balanced(t)
    ensures BH(t) >= 0 && |Items(t)| + 1 >= Pow2(BH(t))
    decreases t
  {
    BlackIsBH(t, BH(t));
    if t.Nd? {
      BalancedParts(t);
      SizeBound(t.left);
      SizeBound(t.right);
    }
  }

  lemma {:induction false} Pow2Mono(a: nat, b: nat)
    requires a <= b
    ensures Pow2(a) <= Pow2(b)
    decreases b
  {
    if a < b {
      Pow2Mono(a, b - 1);
    }
  }

  /** Fewer than 2^32 nodes make a tree at most 64 nodes high. */
  lemma HeightUpto64(t: RB)
    requires RedBlack(t) && |Items(t)| < 0x1_0000_0000
    ensures Height(t) <= 64
  {
    HeightBound(t);
    SizeBound(t);
    assert Pow2(11) == 0x800;
    assert Pow2(22) == 0x40_0000;
    assert Pow2(33) == 0x2_0000_0000;
    if BH(t) > 32 {
      Pow2Mono(33, BH(t));
      assert false;
    }
  }

  // ---------------------------------------------------------------- what is still on the stack

  /** The stack holds, from the bottom up, the right child and the node itself for each of the
      subtrees in pend. */
  ghost predicate Stacked(stk: seq<nat>, pend: seq<RB>) {
    && |stk| == 2 * |pend|
    && forall i {:trigger pend[i]} :: 0 <= i < |pend| ==>
         pend[i].Nd? && stk[2 * i] == Root(pend[i].right) && stk[2 * i + 1] == Root(pend[i])
  }

  ghost predicate PendOk(mem: Memory, pend: seq<RB>, height: nat) {
    forall i {:trigger pend[i]} :: 0 <= i < |pend| ==>
      && Held(mem, pend[i]) && pend[i].Nd? && pend[i].right.Nd? && Balanced(pend[i])
      && i + 1 + Height(pend[i].right) <= height
  }

  /** What is left to visit once the subtree at hand is done. */
  function Rest(pend: seq<RB>): seq<Item>
    requires forall i :: 0 <= i < |pend| ==> pend[i].Nd?
  {
    if pend == [] then [] else
    var t := pend[|pend| - 1];
    [t.v.it] + Items(t.right) + Rest(pend[..|pend| - 1])
  }

  lemma PushStacked(stk: seq<nat>, pend: seq<RB>, t: RB)
    requires Stacked(stk, pend) && t.Nd?
    ensures Stacked(stk + [Root(t.right)] + [Root(t)], pend + [t])
    ensures (pend + [t])[..|pend|] == pend
  {
  }

  lemma PopStacked(stk: seq<nat>, pend: seq<RB>)
    requires Stacked(stk, pend) && pend != []
    ensures |stk| >= 2 && stk == stk[..|stk| - 2] + [stk[|stk| - 2]] + [stk[|stk| - 1]]
    ensures var t := pend[|pend| - 1]; stk[|stk| - 2] == Root(t.right) && stk[|stk| - 1] == Root(t)
    ensures Stacked(stk[..|stk| - 2], pend[..|pend| - 1])
  {
  }

  /** The state between two rounds of a traversal. */
  ghost predicate Going(mem: Memory, stk: seq<nat>, pend: seq<RB>, sub: RB, curr: nat, height: nat) {
    && Stacked(stk, pend) && PendOk(mem, pend, height)
    && Held(mem, sub) && Balanced(sub) && curr == Root(sub) && |pend| + Height(sub) <= height
    && (sub.Nil? ==> pend == [])
  }

  lemma GoingPush(mem: Memory, stk: seq<nat>, pend: seq<RB>, t: RB, height: nat)
    requires Going(mem, stk, pend, t, Root(t), height) && t.Nd? && t.left.Nd? && t.right.Nd?
    ensures Going(mem, stk + [Root(t.right)] + [Root(t)], pend + [t], t.left, Root(t.left), height)
    ensures Items(t) + Rest(pend) == Items(t.left) + Rest(pend + [t]) && |pend| + 2 <= height
  {
    PushStacked(stk, pend, t);
    HeldRead(mem, t);
    BalancedParts(t);
    forall i {:trigger (pend + [t])[i]} | 0 <= i <= |pend|
      ensures var u := (pend + [t])[i];
              Held(mem, u) && u.Nd? && u.right.Nd? && Balanced(u) && i + 1 + Height(u.right) <= height
    {
      assert i < |pend| ==> (pend + [t])[i] == pend[i];
    }
    assert Rest(pend + [t]) == [t.v.it] + Items(t.right) + Rest(pend);
    InThree(Items(t.left), [t.v.it], Items(t.right), Rest(pend));
  }

  lemma InThree(a: seq<Item>, b: seq<Item>, c: seq<Item>, d: seq<Item>)
    ensures a + b + c + d == a + (b + c + d)
  {
  }

  lemma GoingPop(mem: Memory, stk: seq<nat>, pend: seq<RB>, height: nat)
    requires Stacked(stk, pend) && PendOk(mem, pend, height) && pend != []
    ensures var t, n := pend[|pend| - 1], |stk| - 2;
            && n >= 0 && stk == stk[..n] + [stk[n]] + [stk[n + 1]] && stk[n + 1] == Root(t) != NIL
            && Going(mem, stk[..n], pend[..|pend| - 1], t.right, stk[n], height)
            && Root(t) < |mem| && ItemAt(mem, Root(t)) == t.v.it
            && Rest(pend) == [t.v.it] + Items(t.right) + Rest(pend[..|pend| - 1])
  {
    var t := pend[|pend| - 1];
    PopStacked(stk, pend);
    HeldRead(mem, t);
    BalancedParts(t);
    var p := pend[..|pend| - 1];
    assert forall i {:trigger p[i]} :: 0 <= i < |p| ==> p[i] == pend[i];
  }

  // ---------------------------------------------------------------- what is searched for

  datatype Query = Everything | Point(p: nat) | Subs(lo: nat, hi: nat) | Sups(lo: nat, hi: nat)

  /** Everything, the intervals with p in them, those inside [lo, hi], those around [lo, hi]. */
  predicate Match(q: Query, it: Item) {
    match q
    case Everything => true
    case Point(p) => it.lo <= p <= it.hi
    case Subs(lo, hi) => lo <= it.lo && it.hi <= hi
    case Sups(lo, hi) => it.lo <= lo && hi <= it.hi
  }

  function Hit(q: Query, it: Item): seq<Item> { if Match(q, it) then [it] else [] }

  function Matching(q: Query, s: seq<Item>): seq<Item> {
    if s == [] then [] else Hit(q, s[0]) + Matching(q, s[1..])
  }

  lemma {:induction false} MatchingConcat(q: Query, a: seq<Item>, b: seq<Item>)
    ensures Matching(q, a + b) == Matching(q, a) + Matching(q, b)
    decreases |a|
  {
    if a == [] {
      assert a + b == b;
    } else {
      ConcatTail(a, b);
      MatchingConcat(q, a[1..], b);
      ThreeParts(Hit(q, a[0]), Matching(q, a[1..]), Matching(q, b));
    }
  }

  lemma ConcatTail(a: seq<Item>, b: seq<Item>)
    requires a != []
    ensures (a + b)[0] == a[0] && (a + b)[1..] == a[1..] + b
  {
  }

  lemma {:induction false} MatchingNone(q: Query, s: seq<Item>)
    requires forall i {:trigger s[i]} :: 0 <= i < |s| ==> !Match(q, s[i])
    ensures Matching(q, s) == []
    decreases |s|
  {
    if s != [] {
      assert forall i {:trigger s[1..][i]} :: 0 <= i < |s| - 1 ==> s[1..][i] == s[i + 1];
      MatchingNone(q, s[1..]);
    }
  }

  lemma {:induction false} MatchingIsExact(q: Query, s: seq<Item>, it: Item)
    ensures it in Matching(q, s) <==> it in s && Match(q, it)
    decreases |s|
  {
    if s != [] {
      MatchingIsExact(q, s[1..], it);
      assert s == [s[0]] + s[1..];
    }
  }

  lemma MatchingOne(q: Query, it: Item)
    ensures Matching(q, [it]) == Hit(q, it)
  {
    assert [it][1..] == [];
  }

  lemma MatchingAround(q: Query, l: seq<Item>, it: Item, r: seq<Item>)
    ensures Matching(q, l + [it] + r) == Matching(q, l) + Hit(q, it) + Matching(q, r)
  {
    MatchingConcat(q, l + [it], r);
    MatchingConcat(q, l, [it]);
    MatchingOne(q, it);
  }

  // ---------------------------------------------------------------- traversal

  /** Two pops: the node and then its right child. */
  method PopTwo(mem: Memory, stk: NodeStack, ghost pend: seq<RB>, ghost height: nat) returns (top: nat, curr: nat)
    requires stk.Valid() && Stacked(stk.Contents(), pend) && PendOk(mem, pend, height) && NilOk(mem)
    modifies stk
    ensures stk.Valid()
    ensures pend == [] ==> top == curr == NIL && Stacked(stk.Contents(), [])
    ensures pend != [] ==> Going(mem, stk.Contents(), pend[..|pend| - 1], pend[|pend| - 1].right, curr, height)
    ensures pend != [] ==> NIL != top == Root(pend[|pend| - 1]) < |mem| && ItemAt(mem, top) == pend[|pend| - 1].v.it
    ensures pend != [] ==>
              Rest(pend) == [pend[|pend| - 1].v.it] + Items(pend[|pend| - 1].right) + Rest(pend[..|pend| - 1])
  {
    ghost var s0 := stk.Contents();
    if pend != [] {
      GoingPop(mem, s0, pend, height);
    }
    top := stk.Pop();
    curr := stk.Pop();
    assert pend != [] ==> stk.Contents() == s0[..|s0| - 2];
  }

  /** proc(stack_pop(stk)); curr = stack_pop(stk). */
  method PopNext(q: Query, mem: Memory, stk: NodeStack, out: seq<Item>, ghost pend: seq<RB>, ghost height: nat)
    returns (out': seq<Item>, curr: nat, ghost sub: RB, ghost pend': seq<RB>)
    requires stk.Valid() && Stacked(stk.Contents(), pend) && PendOk(mem, pend, height) && NilOk(mem)
    modifies stk
    ensures stk.Valid() && Going(mem, stk.Contents(), pend', sub, curr, height)
    ensures pend == [] ==> out' == out && sub == Nil && pend' == []
    ensures pend != [] ==>
              var t := pend[|pend| - 1];
              out' == out + Hit(q, t.v.it) && sub == t.right && pend' == pend[..|pend| - 1]
  {
    var top;
    top, curr := PopTwo(mem, stk, pend, height);
    out' := out;
    if top != NIL {
      out' := out' + Proc(q, mem, top);
    }
    sub, pend' := Nil, pend;
    if pend != [] {
      sub, pend' := pend[|pend| - 1].right, pend[..|pend| - 1];
    }
  }

  /** Keeps the right child and the node for later and goes on to the left. */
  method GoLeft(mem: Memory, stk: NodeStack, curr: nat, ghost t: RB, ghost pend: seq<RB>, ghost height: nat)
    returns (left: nat)
    requires stk.Valid() && Going(mem, stk.Contents(), pend, t, curr, height) && height <= 64
    requires t.Nd? && t.left.Nd? && t.right.Nd?
    modifies stk, stk.stk
    ensures stk.Valid() && Going(mem, stk.Contents(), pend + [t], t.left, left, height)
    ensures Items(t) + Rest(pend) == Items(t.left) + Rest(pend + [t])
  {
    GoingPush(mem, stk.Contents(), pend, t, height);
    HeldRead(mem, t);
    stk.Push(mem[curr].right);
    stk.Push(curr);
    left := mem[curr].left;
  }

  /** itree_trav_in_order: the nodes the callback gets, in order. */
  method TravInOrder(it: Tree) returns (out: seq<Item>)
    requires it.Valid() && |it.Contents()| < 0x1_0000_0000
    ensures out == it.Contents()
  {
    HeightUpto64(it.tree);
    LookUp(it.mem, Top, it.tree);
    out := Traverse(it.mem, it.mem[ROOT].left, it.tree);
  }

  method Traverse(mem: Memory, top: nat, ghost tree: RB) returns (out: seq<Item>)
    requires Held(mem, tree) && Balanced(tree) && Height(tree) <= 64 && top == Root(tree)
    ensures out == Items(tree)
  {
    ghost var height := Height(tree);
    var stk := new NodeStack();
    ghost var sub, pend: seq<RB> := tree, [];
    out := [];
    var curr := top;
    assert Todo(sub, pend) == Items(tree);
    while curr != NIL
      invariant stk.Valid() && fresh(stk) && fresh(stk.stk) && Going(mem, stk.Contents(), pend, sub, curr, height)
      invariant out + Todo(sub, pend) == Items(tree)
      decreases |Todo(sub, pend)|, sub
    {
      HeldRead(mem, sub);
      if mem[curr].left != NIL && mem[curr].right != NIL {
        curr := GoLeft(mem, stk, curr, sub, pend, height);
        pend, sub := pend + [sub], sub.left;
      } else {
        ghost var out0, sub0, pend0 := out, sub, pend;
        ShortCut(sub);
        AllMatch(Items(sub.left));
        AllMatch(Items(sub.right));
        out := WorkOff(Everything, mem, curr, out, sub);
        out, curr, sub, pend := PopNext(Everything, mem, stk, out, pend, height);
        Visited(out0, sub0, pend0, out, sub, pend);
      }
    }
    assert Todo(sub, pend) == [];
  }

  /** What is still to visit. */
  function Todo(sub: RB, pend: seq<RB>): seq<Item>
    requires forall i :: 0 <= i < |pend| ==> pend[i].Nd?
  {
    Items(sub) + Rest(pend)
  }

  /** A subtree done and the next node popped: nothing left out, nothing twice. */
  lemma Visited(out0: seq<Item>, t: RB, pend0: seq<RB>, out: seq<Item>, sub: RB, pend: seq<RB>)
    requires t.Nd? && forall i :: 0 <= i < |pend0| ==> pend0[i].Nd?
    requires var o := out0 + Items(t.left) + [t.v.it] + Items(t.right);
             if pend0 == [] then out == o && sub == Nil && pend == []
             else out == o + [pend0[|pend0| - 1].v.it] && sub == pend0[|pend0| - 1].right
                   && pend == pend0[..|pend0| - 1]
    ensures out + Todo(sub, pend) == out0 + Todo(t, pend0) && |Todo(sub, pend)| < |Todo(t, pend0)|
  {
    if pend0 != [] {
      Rejoin(out0, Items(t.left), t.v.it, Items(t.right), [pend0[|pend0| - 1].v.it], Items(sub), Rest(pend));
    }
  }

  lemma Rejoin(o: seq<Item>, a: seq<Item>, it: Item, b: seq<Item>, c: seq<Item>, d: seq<Item>, e: seq<Item>)
    ensures o + a + [it] + b + c + (d + e) == o + (a + [it] + b + (c + d + e))
  {
  }

  lemma {:induction false} AllMatch(s: seq<Item>)
    ensures Matching(Everything, s) == s
    decreases |s|
  {
    if s != [] {
      AllMatch(s[1..]);
    }
  }

  /** A node without a child, with the single nodes that may be below it. */
  method WorkOff(q: Query, mem: Memory, curr: nat, out: seq<Item>, ghost t: RB) returns (out': seq<Item>)
    requires Held(mem, t) && t.Nd? && curr == Root(t) && IsLeaf(t.left) && IsLeaf(t.right)
    ensures out' == out + Matching(q, Items(t.left)) + Hit(q, t.v.it) + Matching(q, Items(t.right))
  {
    HeldRead(mem, t);
    ProcLeaf(q, mem, t.left);
    ProcLeaf(q, mem, t.right);
    out' := out + Proc(q, mem, mem[curr].left) + Proc(q, mem, curr) + Proc(q, mem, mem[curr].right);
  }

  lemma ProcLeaf(q: Query, mem: Memory, t: RB)
    requires Held(mem, t) && IsLeaf(t)
    ensures Root(t) < |mem| && Proc(q, mem, Root(t)) == Matching(q, Items(t))
  {
    HeldRead(mem, t);
    LeafItems(t);
    if t.Nd? {
      MatchingOne(q, t.v.it);
    }
  }

  /** The callback gets the node if it is one and matches. */
  function Proc(q: Query, mem: Memory, p: nat): (r: seq<Item>)
    requires p < |mem|
    ensures p != NIL ==> r == Hit(q, ItemAt(mem, p))
  {
    if p != NIL && Match(q, ItemAt(mem, p)) then [ItemAt(mem, p)] else []
  }

  lemma LeafItems(t: RB)
    requires IsLeaf(t)
    ensures Items(t) == if t.Nd? then [t.v.it] else []
  {
  }

  // ---------------------------------------------------------------- neighbours

  /** x is the k-th node, y the one after it, or nil. */
  predicate FollowedBy(s: seq<Item>, k: nat, x: nat, y: nat) {
    k < |s| && s[k].p == x && y == if k + 1 < |s| then s[k + 1].p else NIL
  }

  predicate PrecededBy(s: seq<Item>, k: nat, x: nat, y: nat) {
    k < |s| && s[k].p == x && y == if k > 0 then s[k - 1].p else NIL
  }

  /** itree_succ_of: the next node in order, nil behind the last one. */
  method SuccOf(it: Tree, x: nat) returns (y: nat)
    requires it.Valid() && Has(it.Contents(), x)
    ensures exists k :: FollowedBy(it.Contents(), k, x, y)
  {
    PtrsAreItems(it.tree, x);
    ghost var c, t := Locate(Top, it.tree, x);
    FocusTop(it.mem, c, t);
    LookUp(it.mem, c, t);
    Around(c, t);
    ghost var a, b := Lower(c) + Items(t.left), Items(t.right) + Upper(c);
    assert it.Contents()[|a|] == t.v.it;
    assert Shape(it.mem, t.right, x);
    if it.mem[x].right != NIL {
      ghost var cy, s;
      y, cy, s := it.FirstRight(x, c, t);
      assert s == Nd(Nil, s.v, s.right);
      FirstItem(cy, s.v, s.right);
      assert b[0] == s.v.it;
    } else {
      y := Climb(it.mem, x, Right, c, t);
      assert b == Upper(c);
    }
    assert FollowedBy(it.Contents(), |a|, x, y);
  }

  /** itree_pred_of: the node before in order, nil before the first one. */
  method PredOf(it: Tree, x: nat) returns (y: nat)
    requires it.Valid() && Has(it.Contents(), x)
    ensures exists k :: PrecededBy(it.Contents(), k, x, y)
  {
    PtrsAreItems(it.tree, x);
    ghost var c, t := Locate(Top, it.tree, x);
    FocusTop(it.mem, c, t);
    LookUp(it.mem, c, t);
    Around(c, t);
    ghost var a, b := Lower(c) + Items(t.left), Items(t.right) + Upper(c);
    assert it.Contents()[|a|] == t.v.it;
    assert Shape(it.mem, t.left, x);
    if it.mem[x].left != NIL {
      y := LastLeft(it.mem, it.mem[x].left, t.left);
    } else {
      y := Climb(it.mem, x, Left, c, t);
      assert a == Lower(c);
    }
    assert PrecededBy(it.Contents(), |a|, x, y);
  }

  /** The last node of a tree. */
  method LastLeft(mem: Memory, top: nat, ghost t: RB) returns (y: nat)
    requires Held(mem, t) && t.Nd? && top == Root(t)
    ensures Items(t)[|Items(t)| - 1].p == y
  {
    ghost var s := t;
    y := top;
    HeldRead(mem, s);
    while mem[y].right != NIL
      invariant Held(mem, s) && s.Nd? && y == Root(s) && y < |mem| && mem[y].right == Root(s.right)
      invariant Items(s)[|Items(s)| - 1] == Items(t)[|Items(t)| - 1]
      decreases s
    {
      HeldRead(mem, s);
      HeldRead(mem, s.right);
      y := mem[y].right;
      s := s.right;
      HeldRead(mem, s);
    }
    HeldRead(mem, s);
    HeldRead(mem, s.right);
  }

  /** Up as long as x is on the given side of its parent; nil if that leads to the root. */
  method Climb(mem: Memory, x0: nat, side: Side, ghost c0: Ctx, ghost t0: RB) returns (y: nat)
    requires Linked(mem, c0, t0) && t0.Nd? && x0 == Root(t0)
    ensures side == Right ==> y == if Upper(c0) == [] then NIL else Upper(c0)[0].p
    ensures side == Left ==> y == if Lower(c0) == [] then NIL else Lower(c0)[|Lower(c0)| - 1].p
  {
    ghost var c, t := c0, t0;
    var x := x0;
    LookUp(mem, c, t);
    y := mem[x].parent;
    while y != ROOT && x == ChildOf(mem[y], side)
      invariant Linked(mem, c, t) && t.Nd? && x == Root(t) && y == ParentOf(c) < |mem|
      invariant if side == Right then Upper(c) == Upper(c0) else Lower(c) == Lower(c0)
      decreases c
    {
      LookUp(mem, c, t);
      Refocus(mem, c.side, t, c.v, c.sib, c.up);
      c, t := c.up, Join(c.side, t, c.v, c.sib);
      LookUp(mem, c, t);
      x := y;
      y := mem[y].parent;
    }
    LookUp(mem, c, t);
    if y == ROOT {
      y := NIL;
    }
  }

  // ---------------------------------------------------------------- search

  /** tree_pivot_rel, tree_subeq_rel and tree_supeq_rel: -1 if the search is to go on to the
      left, 1 if nothing in the tree matches, else 0. */
  function TreeRel(q: Query, lo: nat, mh: nat): int {
    match q
    case Everything => 0
    case Point(p) => if p < lo then -1 else if p > mh then 1 else 0
    case Subs(a, b) => if b < lo then -1 else if a > mh then 1 else 0
    case Sups(a, b) => if a < lo || b < lo then -1 else if a > mh || b > mh then 1 else 0
  }

  /** The interval does not start behind the range, nor end before it. */
  predicate Meets(q: Query, it: Item) { (q.Subs? || q.Sups?) ==> it.lo <= q.hi && q.lo <= it.hi }

  /** Whatever matches meets the range, as it does where ranges are ranges. */
  ghost predicate Meaningful(q: Query, s: seq<Item>) {
    forall i {:trigger s[i]} :: 0 <= i < |s| && Match(q, s[i]) ==> Meets(q, s[i])
  }

  /** A subtree of an interval tree. */
  ghost predicate Ordered(t: RB) { MaxOk(t) && ByLow(Items(t)) }

  /** What a search reports of a tree. It goes left from a node that starts too late, gives up
      where all end too early, and skips a left subtree that is out of reach as a whole. */
  function Reported(q: Query, t: RB): seq<Item> {
    if t.Nil? then [] else
    var rel := TreeRel(q, t.v.it.lo, t.v.mh);
    if rel == -1 then Reported(q, t.left)
    else if rel == 1 then []
    else if t.left.Nil? || t.right.Nil? then Matching(q, Items(t.left)) + Hit(q, t.v.it) + Matching(q, Items(t.right))
    else if TreeRel(q, t.left.v.it.lo, t.left.v.mh) != 0 then Hit(q, t.v.it) + Reported(q, t.right)
    else Reported(q, t.left) + Hit(q, t.v.it) + Reported(q, t.right)
  }

  /** That is all that matches, as long as whatever matches meets the range. */
  lemma {:induction false} ReportedIsMatching(q: Query, t: RB)
    requires Ordered(t) && Meaningful(q, Items(t))
    ensures Reported(q, t) == Matching(q, Items(t))
    decreases t
  {
    if t.Nd? {
      OrderedParts(q, t);
      MeaningfulParts(q, Items(t.left), t.v.it, Items(t.right));
      ReportedIsMatching(q, t.left);
      ReportedIsMatching(q, t.right);
      ReportedHere(q, t, Matching(q, Items(t.left)), Matching(q, Items(t.right)));
    }
  }

  // ---------------------------------------------------------------- what exactly is reported

  /** An item that matches and meets the range is reported, whatever else is in the tree. */
  lemma {:induction false} MeetingReported(q: Query, t: RB, it: Item)
    requires Ordered(t) && it in Items(t) && Match(q, it) && Meets(q, it)
    ensures it in Reported(q, t)
    decreases t
  {
    OrderedParts(q, t);
    RelIs(q, t);
    InReach(q, t, it);
    if it in Items(t.left) {
      MeetingReported(q, t.left, it);
      MatchingIsExact(q, Items(t.left), it);
    } else if it in Items(t.right) {
      MeetingReported(q, t.right, it);
      MatchingIsExact(q, Items(t.right), it);
    }
    if !Past(q, t.v.it.lo) && t.left.Nd? && t.right.Nd? {
      SkippedIsNothing(q, t);
    }
  }

  /** Neither does the tree end before the range, nor does its root start behind it if the item is
      not to its left. */
  lemma InReach(q: Query, t: RB, it: Item)
    requires Ordered(t) && it in Items(t) && Match(q, it) && Meets(q, it)
    ensures !Early(q, t.v.mh) && (Past(q, t.v.it.lo) ==> it in Items(t.left))
  {
    OrderedParts(q, t);
    MaxIsMax(t);
    var k :| 0 <= k < |Items(t)| && Items(t)[k] == it;
    if it !in Items(t.left) {
      if it in Items(t.right) {
        var j :| 0 <= j < |Items(t.right)| && Items(t.right)[j] == it;
      }
      assert t.v.it.lo <= it.lo;
    }
  }

  /** What is left of b when some of it is left out. */
  predicate Subsequence(a: seq<Item>, b: seq<Item>) {
    a == [] || (b != [] && ((a[0] == b[0] && Subsequence(a[1..], b[1..])) || Subsequence(a, b[1..])))
  }

  lemma {:induction false} SubsequenceJoin(a: seq<Item>, b: seq<Item>, c: seq<Item>, d: seq<Item>)
    requires Subsequence(a, b) && Subsequence(c, d)
    ensures Subsequence(a + c, b + d)
    decreases |b| + |d|
  {
    if b == [] {
      assert a + c == c && b + d == d;
    } else {
      ConcatTail(b, d);
      if a != [] && a[0] == b[0] && Subsequence(a[1..], b[1..]) {
        ConcatTail(a, c);
        SubsequenceJoin(a[1..], b[1..], c, d);
      } else {
        SubsequenceJoin(a, b[1..], c, d);
      }
    }
  }

  lemma {:induction false} MatchingOnce(q: Query, s: seq<Item>)
    ensures Subsequence(Matching(q, s), s)
    decreases |s|
  {
    if s != [] {
      MatchingOnce(q, s[1..]);
      HitOnce(q, s[0]);
      SubsequenceJoin(Hit(q, s[0]), [s[0]], Matching(q, s[1..]), s[1..]);
      assert [s[0]] + s[1..] == s;
    }
  }

  lemma HitOnce(q: Query, it: Item)
    ensures Subsequence(Hit(q, it), [it])
  {
    assert Hit(q, it) != [] ==> Hit(q, it)[1..] == [];
  }

  /** Nothing is reported twice, or out of order. */
  lemma {:induction false} ReportedOnce(q: Query, t: RB)
    ensures Subsequence(Reported(q, t), Items(t))
    decreases t
  {
    if t.Nd? {
      var l, r, h := Items(t.left), Items(t.right), Hit(q, t.v.it);
      var rel := TreeRel(q, t.v.it.lo, t.v.mh);
      ReportedOnce(q, t.left);
      ReportedOnce(q, t.right);
      HitOnce(q, t.v.it);
      if rel == -1 {
        ThreeOnce(Reported(q, t.left), [], [], l, t.v.it, r);
        assert Reported(q, t.left) + [] + [] == Reported(q, t);
      } else if rel == 0 && (t.left.Nil? || t.right.Nil?) {
        MatchingOnce(q, l);
        MatchingOnce(q, r);
        ThreeOnce(Matching(q, l), h, Matching(q, r), l, t.v.it, r);
      } else if rel == 0 {
        ThreeOnce([], h, Reported(q, t.right), l, t.v.it, r);
        ThreeOnce(Reported(q, t.left), h, Reported(q, t.right), l, t.v.it, r);
        assert [] + h + Reported(q, t.right) == h + Reported(q, t.right);
      }
    }
  }

  lemma ThreeOnce(x: seq<Item>, y: seq<Item>, z: seq<Item>, l: seq<Item>, it: Item, r: seq<Item>)
    requires Subsequence(x, l) && Subsequence(y, [it]) && Subsequence(z, r)
    ensures Subsequence(x + y + z, l + [it] + r)
  {
    SubsequenceJoin(x, l, y, [it]);
    SubsequenceJoin(x + y, l + [it], z, r);
  }

  predicate Between(p: int, lo: int, hi: int) { lo <= p <= hi }

  /** Every point of the one range is one of the other. */
  ghost predicate Inside(lo: int, hi: int, lo': int, hi': int) {
    forall p {:trigger Between(p, lo, hi)} :: Between(p, lo, hi) ==> Between(p, lo', hi')
  }

  lemma InsideIs(lo: int, hi: int, lo': int, hi': int)
    requires lo <= hi
    ensures Inside(lo, hi, lo', hi') <==> lo' <= lo && hi <= hi'
  {
    if Inside(lo, hi, lo', hi') {
      assert Between(lo, lo, hi) && Between(hi, lo, hi);
    }
  }

  /** In terms of the points of ranges: the intervals with a given point, those within the range,
      those around it. */
  ghost predicate Wanted(q: Query, it: Item) {
    match q
    case Everything => true
    case Point(p) => Between(p, it.lo, it.hi)
    case Subs(lo, hi) => Inside(it.lo, it.hi, lo, hi)
    case Sups(lo, hi) => Inside(lo, hi, it.lo, it.hi)
  }

  lemma ReportedIfWanted(q: Query, t: RB, it: Item)
    requires Ordered(t) && it in Items(t) && it.lo <= it.hi && (q.Sups? ==> q.lo <= q.hi)
    ensures it in Reported(q, t) <==> Wanted(q, it)
  {
    if q.Subs? {
      InsideIs(it.lo, it.hi, q.lo, q.hi);
    } else if q.Sups? {
      InsideIs(q.lo, q.hi, it.lo, it.hi);
    }
    assert Match(q, it) <==> Wanted(q, it);
    if Match(q, it) {
      MeetingReported(q, t, it);
    }
    if it in Reported(q, t) {
      ReportedMatches(q, t, it);
    }
  }

  /** All intervals end before the range. */
  predicate Early(q: Query, mh: nat) {
    match q
    case Everything => false
    case Point(p) => p > mh
    case Subs(a, _) => a > mh
    case Sups(a, b) => a > mh || b > mh
  }

  /** The short cut is taken at the root of t. */
  predicate CutShort(q: Query, t: RB)
    requires t.Nd?
  {
    !Past(q, t.v.it.lo) && (t.left.Nil? || t.right.Nil?)
  }

  /** Every node on the way from the root to the k-th one, up to where the short cut is taken, has
      an interval below it that does not end too early, and does not start too late itself unless
      the way leads to its left. */
  predicate Reached(q: Query, t: RB, k: nat)
    decreases t
  {
    t.Nd? && !Early(q, t.v.mh) &&
    var n := |Items(t.left)|;
    && (k < n || !Past(q, t.v.it.lo))
    && (k == n || CutShort(q, t) || (if k < n then Reached(q, t.left, k) else Reached(q, t.right, k - n - 1)))
  }

  /** The k-th node is reached if it matches. */
  predicate ReachedAt(q: Query, t: RB, k: nat) { k < |Items(t)| && Match(q, Items(t)[k]) ==> Reached(q, t, k) }

  ghost predicate AllReached(q: Query, t: RB) { forall k: nat {:trigger ReachedAt(q, t, k)} :: ReachedAt(q, t, k) }

  lemma RelIs(q: Query, t: RB)
    requires t.Nd?
    ensures TreeRel(q, t.v.it.lo, t.v.mh) == if Past(q, t.v.it.lo) then -1 else if Early(q, t.v.mh) then 1 else 0
  {
  }

  /** All that matches is reported if and only if each match is reached. */
  lemma {:induction false} ReportedIffReached(q: Query, t: RB)
    requires Ordered(t)
    ensures Reported(q, t) == Matching(q, Items(t)) <==> AllReached(q, t)
    decreases t
  {
    if t.Nd? {
      OrderedParts(q, t);
      RelIs(q, t);
      ReportedIffReached(q, t.left);
      ReportedIffReached(q, t.right);
      MatchingAround(q, Items(t.left), t.v.it, Items(t.right));
      if Early(q, t.v.mh) {
        EarlyNothing(q, t);
        NoneReached(q, t);
      } else if Past(q, t.v.it.lo) {
        LeftReached(q, t);
      } else if t.left.Nd? && t.right.Nd? {
        BothReached(q, t);
      } else {
        assert AllReached(q, t);
      }
    }
  }

  lemma {:induction false} EarlyNothing(q: Query, t: RB)
    requires Ordered(t) && t.Nd? && Early(q, t.v.mh)
    ensures Reported(q, t) == []
    decreases t
  {
    RelIs(q, t);
    OrderedParts(q, t);
    if t.left.Nd? {
      EarlyNothing(q, t.left);
    }
  }

  lemma NoneReached(q: Query, t: RB)
    requires t.Nd? && Early(q, t.v.mh)
    ensures AllReached(q, t) <==> Matching(q, Items(t)) == []
  {
    NoMatches(q, Items(t));
    if AllReached(q, t) {
      forall k: nat {:trigger Items(t)[k]} | k < |Items(t)| ensures !Match(q, Items(t)[k]) {
        assert ReachedAt(q, t, k);
      }
    }
  }

  /** The k-th node to the left of the root is reached if it matches. */
  predicate LeftAt(q: Query, t: RB, k: nat)
    requires t.Nd?
  {
    k < |Items(t.left)| && Match(q, Items(t.left)[k]) ==> Reached(q, t, k)
  }

  predicate RightAt(q: Query, t: RB, k: nat)
    requires t.Nd?
  {
    k < |Items(t.right)| && Match(q, Items(t.right)[k]) ==> Reached(q, t, |Items(t.left)| + 1 + k)
  }

  ghost predicate LeftSide(q: Query, t: RB)
    requires t.Nd?
  {
    forall k: nat {:trigger LeftAt(q, t, k)} :: LeftAt(q, t, k)
  }

  ghost predicate RightSide(q: Query, t: RB)
    requires t.Nd?
  {
    forall k: nat {:trigger RightAt(q, t, k)} :: RightAt(q, t, k)
  }

  lemma PartsReached(q: Query, t: RB)
    requires t.Nd?
    ensures AllReached(q, t) <==>
            LeftSide(q, t) && (Match(q, t.v.it) ==> Reached(q, t, |Items(t.left)|)) && RightSide(q, t)
  {
    var l, r, s := Items(t.left), Items(t.right), Items(t);
    var n := |l|;
    if AllReached(q, t) {
      forall k: nat {:trigger LeftAt(q, t, k)} ensures LeftAt(q, t, k) {
        assert ReachedAt(q, t, k) && (k < n ==> s[k] == l[k]);
      }
      assert ReachedAt(q, t, n) && s[n] == t.v.it;
      forall k: nat {:trigger RightAt(q, t, k)} ensures RightAt(q, t, k) {
        assert ReachedAt(q, t, n + 1 + k) && (k < |r| ==> s[n + 1 + k] == r[k]);
      }
    }
    if LeftSide(q, t) && (Match(q, t.v.it) ==> Reached(q, t, n)) && RightSide(q, t) {
      forall k: nat {:trigger ReachedAt(q, t, k)} ensures ReachedAt(q, t, k) {
        if k < n {
          assert LeftAt(q, t, k) && s[k] == l[k];
        } else if n < k < |s| {
          assert RightAt(q, t, k - n - 1) && s[k] == r[k - n - 1];
        }
      }
    }
  }

  /** Matches to the left are reached from the root as they are from its left child. */
  lemma LeftSideIs(q: Query, t: RB)
    requires t.Nd? && !Early(q, t.v.mh) && !CutShort(q, t)
    ensures LeftSide(q, t) <==> AllReached(q, t.left)
  {
    if LeftSide(q, t) {
      forall k: nat {:trigger ReachedAt(q, t.left, k)} ensures ReachedAt(q, t.left, k) {
        assert LeftAt(q, t, k);
      }
    }
    if AllReached(q, t.left) {
      forall k: nat {:trigger LeftAt(q, t, k)} ensures LeftAt(q, t, k) {
        assert ReachedAt(q, t.left, k);
      }
    }
  }

  lemma RightSideIs(q: Query, t: RB)
    requires t.Nd? && !Early(q, t.v.mh) && !CutShort(q, t) && !Past(q, t.v.it.lo)
    ensures RightSide(q, t) <==> AllReached(q, t.right)
  {
    if RightSide(q, t) {
      forall k: nat {:trigger ReachedAt(q, t.right, k)} ensures ReachedAt(q, t.right, k) {
        assert RightAt(q, t, k);
      }
    }
    if AllReached(q, t.right) {
      forall k: nat {:trigger RightAt(q, t, k)} ensures RightAt(q, t, k) {
        assert ReachedAt(q, t.right, k);
      }
    }
  }

  /** Nothing to the right of a node that starts too late is reached. */
  lemma RightSidePast(q: Query, t: RB)
    requires t.Nd? && Past(q, t.v.it.lo)
    ensures RightSide(q, t) <==> Matching(q, Items(t.right)) == []
  {
    NoMatches(q, Items(t.right));
    if RightSide(q, t) {
      forall k: nat {:trigger Items(t.right)[k]} | k < |Items(t.right)| ensures !Match(q, Items(t.right)[k]) {
        assert RightAt(q, t, k);
      }
    }
  }

  /** At a node that starts too late: nothing but the left part must match. */
  lemma LeftReached(q: Query, t: RB)
    requires t.Nd? && !Early(q, t.v.mh) && Past(q, t.v.it.lo)
    requires Reported(q, t.left) == Matching(q, Items(t.left)) <==> AllReached(q, t.left)
    requires Matching(q, Items(t)) == Matching(q, Items(t.left)) + Hit(q, t.v.it) + Matching(q, Items(t.right))
    ensures Reported(q, t) == Matching(q, Items(t)) <==> AllReached(q, t)
  {
    RelIs(q, t);
    PartsReached(q, t);
    Fewer(q, t.left);
    LeftSideIs(q, t);
    RightSidePast(q, t);
    LeftAlone(Reported(q, t.left), Matching(q, Items(t.left)), Hit(q, t.v.it), Matching(q, Items(t.right)));
  }

  lemma LeftAlone(x: seq<Item>, l: seq<Item>, h: seq<Item>, r: seq<Item>)
    requires |x| <= |l|
    ensures x == l + h + r <==> x == l && h == [] && r == []
  {
    if x == l + h + r {
      assert |x| == |l| + |h| + |r|;
    }
  }

  lemma NoMatches(q: Query, s: seq<Item>)
    ensures Matching(q, s) == [] <==> forall k: nat {:trigger s[k]} :: k < |s| ==> !Match(q, s[k])
  {
    if forall k: nat {:trigger s[k]} :: k < |s| ==> !Match(q, s[k]) {
      MatchingNone(q, s);
    }
    if Matching(q, s) == [] {
      forall k: nat {:trigger s[k]} | k < |s| ensures !Match(q, s[k]) {
        MatchingIsExact(q, s, s[k]);
      }
    }
  }

  /** At a node that is reported itself, with two children. */
  lemma BothReached(q: Query, t: RB)
    requires Ordered(t) && t.Nd? && !Early(q, t.v.mh) && !Past(q, t.v.it.lo) && t.left.Nd? && t.right.Nd?
    requires Reported(q, t.left) == Matching(q, Items(t.left)) <==> AllReached(q, t.left)
    requires Reported(q, t.right) == Matching(q, Items(t.right)) <==> AllReached(q, t.right)
    requires Matching(q, Items(t)) == Matching(q, Items(t.left)) + Hit(q, t.v.it) + Matching(q, Items(t.right))
    ensures Reported(q, t) == Matching(q, Items(t)) <==> AllReached(q, t)
  {
    RelIs(q, t);
    PartsReached(q, t);
    Fewer(q, t.left);
    Fewer(q, t.right);
    SkippedIsNothing(q, t);
    SamePieces(Reported(q, t.left), Hit(q, t.v.it), Reported(q, t.right),
               Matching(q, Items(t.left)), Matching(q, Items(t.right)));
    LeftSideIs(q, t);
    RightSideIs(q, t);
  }

  /** A left subtree that is skipped would report nothing. */
  lemma SkippedIsNothing(q: Query, t: RB)
    requires Ordered(t) && t.Nd? && !Early(q, t.v.mh) && !Past(q, t.v.it.lo) && t.left.Nd? && t.right.Nd?
    ensures Reported(q, t) == Reported(q, t.left) + Hit(q, t.v.it) + Reported(q, t.right)
  {
    RelIs(q, t);
    RelIs(q, t.left);
    OrderedParts(q, t);
    if Early(q, t.left.v.mh) {
      EarlyNothing(q, t.left);
    }
    assert t.left.v.it == Items(t.left)[|Items(t.left.left)|];
    assert [] + Hit(q, t.v.it) + Reported(q, t.right) == Hit(q, t.v.it) + Reported(q, t.right);
  }

  lemma SamePieces(a: seq<Item>, h: seq<Item>, b: seq<Item>, l: seq<Item>, r: seq<Item>)
    requires |a| <= |l| && |b| <= |r|
    ensures a + h + b == l + h + r <==> a == l && b == r
  {
    if a + h + b == l + h + r {
      assert |a + h + b| == |a| + |h| + |b| && |l + h + r| == |l| + |h| + |r|;
      assert |a| == |l| && |b| == |r|;
      assert (a + h + b)[..|a|] == a && (l + h + r)[..|a|] == l;
      assert (a + h + b)[|a| + |h|..] == b && (l + h + r)[|a| + |h|..] == r;
    }
  }

  /** No more is reported than matches. */
  lemma {:induction false} Fewer(q: Query, t: RB)
    ensures |Reported(q, t)| <= |Matching(q, Items(t))|
    decreases t
  {
    if t.Nd? {
      Fewer(q, t.left);
      Fewer(q, t.right);
      MatchingAround(q, Items(t.left), t.v.it, Items(t.right));
    }
  }

  /** Whatever is reported is in the tree and matches. */
  lemma {:induction false} ReportedMatches(q: Query, t: RB, it: Item)
    requires it in Reported(q, t)
    ensures it in Items(t) && Match(q, it)
    decreases t
  {
    MatchingIsExact(q, Items(t.left), it);
    MatchingIsExact(q, Items(t.right), it);
    if it in Reported(q, t.left) {
      ReportedMatches(q, t.left, it);
    }
    if it in Reported(q, t.right) {
      ReportedMatches(q, t.right, it);
    }
  }

  lemma ReportedHere(q: Query, t: RB, l: seq<Item>, r: seq<Item>)
    requires Ordered(t) && Meaningful(q, Items(t)) && t.Nd? && Meaningful(q, Items(t.left))
    requires l == Reported(q, t.left) == Matching(q, Items(t.left))
    requires r == Reported(q, t.right) == Matching(q, Items(t.right))
    ensures Reported(q, t) == Matching(q, Items(t))
  {
    MatchingAround(q, Items(t.left), t.v.it, Items(t.right));
    var rel := TreeRel(q, t.v.it.lo, t.v.mh);
    if rel == -1 {
      PastNone(q, t);
    } else if rel == 1 {
      BeyondNone(q, t);
    } else if t.left.Nd? && t.right.Nd? && TreeRel(q, t.left.v.it.lo, t.left.v.mh) != 0 {
      NotLeft(q, t);
      assert l + Hit(q, t.v.it) + r == Hit(q, t.v.it) + r;
    }
  }

  /** Some node in s starts too late to match. */
  predicate Past(q: Query, lo: nat) { TreeRel(q, lo, lo) == -1 }

  ghost predicate NonePast(q: Query, s: seq<Item>) {
    forall i {:trigger s[i]} :: 0 <= i < |s| ==> !Past(q, s[i].lo)
  }

  lemma OrderedParts(q: Query, t: RB)
    requires Ordered(t) && t.Nd?
    ensures Ordered(t.left) && Ordered(t.right)
    ensures LowsUpto(Items(t.left), t.v.it.lo) && LowsFrom(Items(t.right), t.v.it.lo)
    ensures NonePast(q, Items(t)) ==> NonePast(q, Items(t.right)) && !Past(q, t.v.it.lo)
    ensures !Past(q, t.v.it.lo) ==> NonePast(q, Items(t.left))
  {
    SortedSplit(Items(t.left), t.v.it, Items(t.right));
    if NonePast(q, Items(t)) {
      PastParts(q, Items(t.left), t.v.it, Items(t.right));
    }
  }

  lemma PastParts(q: Query, l: seq<Item>, it: Item, r: seq<Item>)
    requires NonePast(q, l + [it] + r)
    ensures NonePast(q, r) && !Past(q, it.lo)
  {
    var s := l + [it] + r;
    assert forall i {:trigger r[i]} :: 0 <= i < |r| ==> r[i] == s[|l| + 1 + i];
    assert s[|l|] == it;
  }

  lemma MeaningfulParts(q: Query, l: seq<Item>, it: Item, r: seq<Item>)
    requires Meaningful(q, l + [it] + r)
    ensures Meaningful(q, l) && Meaningful(q, [it]) && Meaningful(q, r)
  {
    var s := l + [it] + r;
    assert forall i {:trigger l[i]} :: 0 <= i < |l| ==> l[i] == s[i];
    assert forall i {:trigger r[i]} :: 0 <= i < |r| ==> r[i] == s[|l| + 1 + i];
    assert s[|l|] == it;
  }

  /** To the right of a node past the range nothing matches, nor does the node. */
  lemma PastNone(q: Query, t: RB)
    requires Ordered(t) && Meaningful(q, Items(t)) && t.Nd? && Past(q, t.v.it.lo)
    ensures Matching(q, Items(t)) == Matching(q, Items(t.left))
  {
    OrderedParts(q, t);
    MeaningfulParts(q, Items(t.left), t.v.it, Items(t.right));
    MatchingNone(q, Items(t.right));
    assert [t.v.it][0] == t.v.it;
    MatchingAround(q, Items(t.left), t.v.it, Items(t.right));
  }

  /** Neither does anything in a tree that ends before the range. */
  lemma BeyondNone(q: Query, t: RB)
    requires Ordered(t) && Meaningful(q, Items(t)) && t.Nd? && TreeRel(q, t.v.it.lo, MH(t)) == 1
    ensures Matching(q, Items(t)) == []
  {
    MaxIsMax(t);
    MatchingNone(q, Items(t));
  }

  /** The left subtree of a node in reach is skipped only if nothing in it matches. */
  lemma NotLeft(q: Query, t: RB)
    requires Ordered(t) && t.Nd? && t.left.Nd? && Meaningful(q, Items(t.left))
    requires TreeRel(q, t.v.it.lo, t.v.mh) == 0 && TreeRel(q, t.left.v.it.lo, t.left.v.mh) != 0
    ensures Matching(q, Items(t.left)) == []
  {
    OrderedParts(q, t);
    assert t.left.v.it == Items(t.left)[|Items(t.left.left)|];
    BeyondNone(q, t.left);
  }

  /** An interval that ends before it starts may match and not be reported. */
  method ReversedMissed() returns (all: seq<Item>, out: seq<Item>)
    ensures |all| == 1 && Matching(Subs(0, 5), all) == all && out == []
  {
    var it := new Tree();
    var z := it.Add(10, 3, 0);
    assert it.Contents() == [Item(z, 10, 3, 0)];
    OneNode(it.tree);
    out := Find(it, Subs(0, 5));
    all := TravInOrder(it);
    MatchingOne(Subs(0, 5), Item(z, 10, 3, 0));
  }

  lemma OneNode(t: RB)
    requires |Items(t)| == 1
    ensures t == Nd(Nil, t.v, Nil) && Items(t) == [t.v.it]
  {
  }

  ghost predicate PendSearch(q: Query, pend: seq<RB>) {
    forall i {:trigger pend[i]} :: 0 <= i < |pend| ==>
      pend[i].Nd? && Ordered(pend[i].right) && (i > 0 ==> NonePast(q, Items(pend[i].right)))
  }

  /** itree_find_point_cb, itree_find_subs_cb, itree_find_sups_cb: the nodes the callback gets. */
  method Find(it: Tree, q: Query) returns (out: seq<Item>)
    requires it.Valid() && |it.Contents()| < 0x1_0000_0000
    ensures out == Reported(q, it.tree)
    ensures out == Matching(q, it.Contents()) <==> AllReached(q, it.tree)
    ensures Meaningful(q, it.Contents()) ==> out == Matching(q, it.Contents())
    ensures q.Everything? ==> out == it.Contents()
    ensures forall x {:trigger x in out} ::
              x in it.Contents() && x.lo <= x.hi && q.Point? ==> (x in out <==> Between(q.p, x.lo, x.hi))
    ensures forall x {:trigger x in out} ::
              x in it.Contents() && x.lo <= x.hi && q.Subs? ==> (x in out <==> Inside(x.lo, x.hi, q.lo, q.hi))
    ensures forall x {:trigger x in out} :: x in it.Contents() && x.lo <= x.hi && q.Sups? && q.lo <= q.hi ==>
                                              (x in out <==> Inside(q.lo, q.hi, x.lo, x.hi))
    ensures Subsequence(out, it.Contents())
  {
    HeightUpto64(it.tree);
    LookUp(it.mem, Top, it.tree);
    out := Search(q, it.mem, it.mem[ROOT].left, it.tree);
    ReportedIffReached(q, it.tree);
    FoundAsWanted(q, it.tree);
    ReportedOnce(q, it.tree);
    if Meaningful(q, it.Contents()) {
      ReportedIsMatching(q, it.tree);
    }
  }

  lemma FoundAsWanted(q: Query, t: RB)
    requires Ordered(t)
    ensures q.Everything? ==> Reported(q, t) == Items(t)
    ensures forall x {:trigger x in Reported(q, t)} ::
              x in Items(t) && x.lo <= x.hi && (q.Sups? ==> q.lo <= q.hi) ==>
                (x in Reported(q, t) <==> Wanted(q, x))
  {
    if q.Everything? {
      ReportedIsMatching(q, t);
      AllMatching(Items(t));
    }
    forall x {:trigger x in Reported(q, t)}
      | x in Items(t) && x.lo <= x.hi && (q.Sups? ==> q.lo <= q.hi)
      ensures x in Reported(q, t) <==> Wanted(q, x)
    {
      ReportedIfWanted(q, t, x);
    }
  }

  lemma {:induction false} AllMatching(s: seq<Item>)
    ensures Matching(Everything, s) == s
    decreases |s|
  {
    if s != [] {
      AllMatching(s[1..]);
    }
  }

  /** What the search is still to report. */
  function Due(q: Query, sub: RB, pend: seq<RB>): seq<Item>
    requires forall i :: 0 <= i < |pend| ==> pend[i].Nd?
  {
    Reported(q, sub) + DueLater(q, pend)
  }

  function DueLater(q: Query, pend: seq<RB>): seq<Item>
    requires forall i :: 0 <= i < |pend| ==> pend[i].Nd?
  {
    if pend == [] then [] else
    var t := pend[|pend| - 1];
    Hit(q, t.v.it) + Reported(q, t.right) + DueLater(q, pend[..|pend| - 1])
  }

  /** The state between two rounds of a search. With something on the stack no node at hand
      starts past the range, so that the search never runs into a nil on its way left. */
  ghost predicate Seeking(q: Query, mem: Memory, stk: seq<nat>, pend: seq<RB>, sub: RB, curr: nat, height: nat) {
    && Going(mem, stk, pend, sub, curr, height)
    && Ordered(sub) && PendSearch(q, pend) && (pend != [] ==> NonePast(q, Items(sub)))
  }

  /** Less is left to look at, or the same in a smaller tree. */
  ghost predicate Closer(sub: RB, pend: seq<RB>, t: RB, pend0: seq<RB>)
    requires forall i :: 0 <= i < |pend| ==> pend[i].Nd?
    requires forall i :: 0 <= i < |pend0| ==> pend0[i].Nd?
  {
    |Todo(sub, pend)| < |Todo(t, pend0)| || (|Todo(sub, pend)| == |Todo(t, pend0)| && sub < t)
  }

  method Search(q: Query, mem: Memory, top: nat, ghost tree: RB) returns (out: seq<Item>)
    requires Held(mem, tree) && Balanced(tree) && Height(tree) <= 64 && top == Root(tree) && Ordered(tree)
    ensures out == Reported(q, tree)
  {
    ghost var height := Height(tree);
    var stk := new NodeStack();
    ghost var sub, pend: seq<RB> := tree, [];
    out := [];
    var curr := top;
    assert Due(q, sub, pend) == Reported(q, tree);
    while curr != NIL
      invariant stk.Valid() && fresh(stk) && fresh(stk.stk) && Seeking(q, mem, stk.Contents(), pend, sub, curr, height)
      invariant out + Due(q, sub, pend) == Reported(q, tree)
      decreases |Todo(sub, pend)|, sub
    {
      HeldRead(mem, sub);
      out, curr, sub, pend := SearchStep(q, mem, stk, curr, out, sub, pend, height);
    }
    assert Due(q, sub, pend) == [];
  }

  /** One round of the search. */
  method SearchStep(q: Query, mem: Memory, stk: NodeStack, curr0: nat, out0: seq<Item>,
                    ghost t: RB, ghost pend0: seq<RB>, ghost height: nat)
    returns (out: seq<Item>, curr: nat, ghost sub: RB, ghost pend: seq<RB>)
    requires stk.Valid() && Seeking(q, mem, stk.Contents(), pend0, t, curr0, height) && height <= 64 && t.Nd?
    modifies stk, stk.stk
    ensures stk.Valid() && Seeking(q, mem, stk.Contents(), pend, sub, curr, height)
    ensures out + Due(q, sub, pend) == out0 + Due(q, t, pend0)
    ensures Closer(sub, pend, t, pend0)
  {
    out, curr, sub, pend := out0, curr0, t, pend0;
    HeldRead(mem, t);
    var rel := TreeRel(q, mem[curr].lo, mem[curr].mh);
    if rel == -1 {
      SeekLeft(q, mem, stk.Contents(), pend, t, height);
      curr, sub := mem[curr].left, t.left;
    } else if rel == 0 && mem[curr].left != NIL && mem[curr].right != NIL {
      out, curr, sub, pend := SearchInner(q, mem, stk, curr, out, t, pend, height);
    } else {
      out, curr, sub, pend := SearchUp(q, mem, stk, rel, curr, out, t, pend, height);
    }
  }

  /** The round at a node without two children, or in a subtree that ends too early. */
  method SearchUp(q: Query, mem: Memory, stk: NodeStack, rel: int, curr0: nat, out0: seq<Item>,
                  ghost t: RB, ghost pend0: seq<RB>, ghost height: nat)
    returns (out: seq<Item>, curr: nat, ghost sub: RB, ghost pend: seq<RB>)
    requires stk.Valid() && Seeking(q, mem, stk.Contents(), pend0, t, curr0, height) && t.Nd?
    requires rel == TreeRel(q, t.v.it.lo, t.v.mh) >= 0 && (rel == 0 ==> t.left.Nil? || t.right.Nil?)
    modifies stk
    ensures stk.Valid() && Seeking(q, mem, stk.Contents(), pend, sub, curr, height)
    ensures out + Due(q, sub, pend) == out0 + Due(q, t, pend0)
    ensures |Todo(sub, pend)| < |Todo(t, pend0)|
  {
    out := out0;
    if rel == 0 {
      ShortCut(t);
      out := WorkOff(q, mem, curr0, out, t);
    }
    ghost var mid := out;
    ReportedEnd(q, t, out0, mid);
    SeekPop(q, pend0, t);
    out, curr, sub, pend := PopNext(q, mem, stk, out, pend0, height);
    NextDue(q, mid, pend0, out, sub, pend);
    OutFirst(out0, Reported(q, t), DueLater(q, pend0));
  }

  lemma OutFirst(a: seq<Item>, b: seq<Item>, c: seq<Item>)
    ensures a + b + c == a + (b + c)
  {
  }

  /** Where the search ends its way down. */
  lemma ReportedEnd(q: Query, t: RB, out0: seq<Item>, out: seq<Item>)
    requires t.Nd?
    requires var rel := TreeRel(q, t.v.it.lo, t.v.mh);
             || (rel == 1 && out == out0)
             || (rel == 0 && (t.left.Nil? || t.right.Nil?) &&
                 out == out0 + Matching(q, Items(t.left)) + Hit(q, t.v.it) + Matching(q, Items(t.right)))
    ensures out == out0 + Reported(q, t)
  {
  }

  lemma NextDue(q: Query, mid: seq<Item>, pend0: seq<RB>, out: seq<Item>, sub: RB, pend: seq<RB>)
    requires forall i :: 0 <= i < |pend0| ==> pend0[i].Nd?
    requires if pend0 == [] then out == mid && sub == Nil && pend == []
             else out == mid + Hit(q, pend0[|pend0| - 1].v.it) && sub == pend0[|pend0| - 1].right
                   && pend == pend0[..|pend0| - 1]
    ensures out + Due(q, sub, pend) == mid + DueLater(q, pend0)
    ensures |Todo(sub, pend)| <= |Rest(pend0)|
  {
    if pend0 != [] {
      var h := Hit(q, pend0[|pend0| - 1].v.it);
      OutFirst(mid, h, Due(q, sub, pend));
      OutFirst(h, Reported(q, sub), DueLater(q, pend));
    }
  }

  /** Going left from a node past the range: the stack is empty. */
  lemma SeekLeft(q: Query, mem: Memory, stk: seq<nat>, pend: seq<RB>, t: RB, height: nat)
    requires Seeking(q, mem, stk, pend, t, Root(t), height) && t.Nd? && TreeRel(q, t.v.it.lo, t.v.mh) == -1
    ensures pend == [] && Seeking(q, mem, stk, pend, t.left, Root(t.left), height)
    ensures Due(q, t.left, pend) == Due(q, t, pend) && |Todo(t.left, pend)| < |Todo(t, pend)|
  {
    OrderedParts(q, t);
    GoingChild(mem, stk, pend, t, height);
  }

  lemma SeekPush(q: Query, pend: seq<RB>, t: RB)
    requires Ordered(t) && PendSearch(q, pend) && (pend != [] ==> NonePast(q, Items(t)))
    requires t.Nd? && TreeRel(q, t.v.it.lo, t.v.mh) == 0
    ensures Ordered(t.left) && PendSearch(q, pend + [t]) && NonePast(q, Items(t.left))
  {
    OrderedParts(q, t);
    assert forall i {:trigger (pend + [t])[i]} :: 0 <= i < |pend| ==> (pend + [t])[i] == pend[i];
  }

  lemma SeekRight(q: Query, mem: Memory, stk: seq<nat>, pend: seq<RB>, t: RB, height: nat)
    requires Seeking(q, mem, stk, pend, t, Root(t), height) && t.Nd? && t.right.Nd?
    ensures Seeking(q, mem, stk, pend, t.right, Root(t.right), height) && |Todo(t.right, pend)| < |Todo(t, pend)|
  {
    OrderedParts(q, t);
    GoingChild(mem, stk, pend, t, height);
  }

  lemma SeekPop(q: Query, pend: seq<RB>, t: RB)
    requires PendSearch(q, pend) && Ordered(t)
    ensures pend != [] ==> var t, rest := pend[|pend| - 1], pend[..|pend| - 1];
              Ordered(t.right) && PendSearch(q, rest) && (rest != [] ==> NonePast(q, Items(t.right)))
    ensures Ordered(Nil)
  {
    if pend != [] {
      var rest := pend[..|pend| - 1];
      assert forall i {:trigger rest[i]} :: 0 <= i < |rest| ==> rest[i] == pend[i];
    }
  }

  lemma GoingChild(mem: Memory, stk: seq<nat>, pend: seq<RB>, t: RB, height: nat)
    requires Going(mem, stk, pend, t, Root(t), height) && t.Nd?
    ensures t.left.Nd? || pend == [] ==> Going(mem, stk, pend, t.left, Root(t.left), height)
    ensures t.right.Nd? || pend == [] ==> Going(mem, stk, pend, t.right, Root(t.right), height)
  {
    HeldRead(mem, t);
    BalancedParts(t);
  }

  /** The round at a node with two children. */
  method SearchInner(q: Query, mem: Memory, stk: NodeStack, curr0: nat, out0: seq<Item>,
                     ghost t: RB, ghost pend0: seq<RB>, ghost height: nat)
    returns (out: seq<Item>, curr: nat, ghost sub: RB, ghost pend: seq<RB>)
    requires stk.Valid() && Seeking(q, mem, stk.Contents(), pend0, t, curr0, height) && height <= 64
    requires t.Nd? && t.left.Nd? && t.right.Nd? && TreeRel(q, t.v.it.lo, t.v.mh) == 0
    modifies stk, stk.stk
    ensures stk.Valid() && Seeking(q, mem, stk.Contents(), pend, sub, curr, height)
    ensures out + Due(q, sub, pend) == out0 + Due(q, t, pend0)
    ensures Closer(sub, pend, t, pend0)
  {
    out, curr, sub, pend := out0, curr0, t, pend0;
    HeldRead(mem, t);
    HeldRead(mem, t.left);
    var l := mem[curr].left;
    if TreeRel(q, mem[l].lo, mem[l].mh) == 0 {
      curr, sub, pend := SearchLeft(q, mem, stk, curr, t, pend, height);
    } else {
      SeekRight(q, mem, stk.Contents(), pend, t, height);
      out := out + Proc(q, mem, curr);
      curr, sub := mem[curr].right, t.right;
      OutFirst(Hit(q, t.v.it), Reported(q, t.right), DueLater(q, pend));
      OutFirst(out0, Hit(q, t.v.it), Due(q, sub, pend));
    }
  }

  method SearchLeft(q: Query, mem: Memory, stk: NodeStack, curr0: nat, ghost t: RB, ghost pend0: seq<RB>,
                    ghost height: nat)
    returns (curr: nat, ghost sub: RB, ghost pend: seq<RB>)
    requires stk.Valid() && Seeking(q, mem, stk.Contents(), pend0, t, curr0, height) && height <= 64
    requires t.Nd? && t.left.Nd? && t.right.Nd? && TreeRel(q, t.v.it.lo, t.v.mh) == 0
    requires TreeRel(q, t.left.v.it.lo, t.left.v.mh) == 0
    modifies stk, stk.stk
    ensures stk.Valid() && Seeking(q, mem, stk.Contents(), pend, sub, curr, height)
    ensures Todo(sub, pend) == Todo(t, pend0) && sub == t.left && Due(q, sub, pend) == Due(q, t, pend0)
  {
    SeekPush(q, pend0, t);
    curr := GoLeft(mem, stk, curr0, t, pend0, height);
    pend, sub := pend0 + [t], t.left;
    DuePushed(q, t, pend0);
  }

  lemma DuePushed(q: Query, t: RB, pend: seq<RB>)
    requires (forall i :: 0 <= i < |pend| ==> pend[i].Nd?) && t.Nd? && t.left.Nd? && t.right.Nd?
    requires TreeRel(q, t.v.it.lo, t.v.mh) == 0 && TreeRel(q, t.left.v.it.lo, t.left.v.mh) == 0
    ensures Due(q, t.left, pend + [t]) == Due(q, t, pend)
  {
    var pend' := pend + [t];
    assert pend'[..|pend'| - 1] == pend;
    InThree(Reported(q, t.left), Hit(q, t.v.it), Reported(q, t.right), DueLater(q, pend));
  }
}
