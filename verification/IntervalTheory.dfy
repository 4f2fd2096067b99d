/** Red-black interval trees as values: what src/intvtree.c keeps in linked nodes, with a
    context to say where in the tree an operation is at work. */
module IntervalTheory {

  const MIN_KEY: nat := 0
  const NIL: nat := 0
  const ROOT: nat := 1

  /** The public part of a node and where it lives. */
  datatype Item = Item(p: nat, lo: nat, hi: nat, data: int)

  datatype Val = Val(it: Item, red: bool, mh: nat)

  datatype RB = Nil | Nd(left: RB, v: Val, right: RB)

  datatype Side = Left | Right

  function Other(s: Side): Side { if s == Left then Right else Left }

  /** A tree with a hole: the frames from the hole up to the root. The hole is the child of v
      on the given side, sib the child on the other. */
  datatype Ctx = Top | At(side: Side, v: Val, sib: RB, up: Ctx)

  /** Node v with child a on side s and child b on the other. */
  function Join(s: Side, a: RB, v: Val, b: RB): RB {
    if s == Left then Nd(a, v, b) else Nd(b, v, a)
  }

  function Child(t: RB, s: Side): RB
    requires t.Nd?
  {
    if s == Left then t.left else t.right
  }

  function Plug(c: Ctx, t: RB): RB {
    match c
    case Top => t
    case At(side, v, sib, up) => Plug(up, Join(side, t, v, sib))
  }

  function Root(t: RB): nat { if t.Nil? then NIL else t.v.it.p }

  function ParentOf(c: Ctx): nat { if c.Top? then ROOT else c.v.it.p }

  predicate Red(t: RB) { t.Nd? && t.v.red }

  function MH(t: RB): nat { if t.Nil? then MIN_KEY else t.v.mh }

  function Max(a: nat, b: nat): nat { if a >= b then a else b }

  // ---------------------------------------------------------------- the nodes in order

  function Items(t: RB): seq<Item> {
    if t.Nil? then [] else Items(t.left) + [t.v.it] + Items(t.right)
  }

  /** The nodes before the hole and those behind it. */
  function Lower(c: Ctx): seq<Item> {
    if c.Top? then [] else if c.side == Left then Lower(c.up) else Lower(c.up) + Items(c.sib) + [c.v.it]
  }

  function Upper(c: Ctx): seq<Item> {
    if c.Top? then [] else if c.side == Right then Upper(c.up) else [c.v.it] + Items(c.sib) + Upper(c.up)
  }

  lemma {:induction false} PlugItems(c: Ctx, t: RB)
    ensures Items(Plug(c, t)) == Lower(c) + Items(t) + Upper(c)
    decreases c
  {
    if c.At? {
      PlugItems(c.up, Join(c.side, t, c.v, c.sib));
    }
  }

  /** The node in focus among all. */
  lemma Around(c: Ctx, t: RB)
    requires t.Nd?
    ensures Items(Plug(c, t)) == Lower(c) + Items(t.left) + [t.v.it] + (Items(t.right) + Upper(c))
  {
    PlugItems(c, t);
    FiveParts(Lower(c), Items(t.left), t.v.it, Items(t.right), Upper(c));
  }

  lemma FiveParts(a: seq<Item>, l: seq<Item>, it: Item, r: seq<Item>, b: seq<Item>)
    ensures a + (l + [it] + r) + b == a + l + [it] + (r + b)
  {
  }

  ghost predicate ByLow(s: seq<Item>) {
    forall i, j {:trigger InOrder(s, i, j)} :: InOrder(s, i, j)
  }

  predicate InOrder(s: seq<Item>, i: int, j: int) { 0 <= i < j < |s| ==> s[i].lo <= s[j].lo }

  /** No node occurs twice. */
  ghost predicate Distinct(s: seq<Item>) {
    forall i, j {:trigger Differ(s, i, j)} :: Differ(s, i, j)
  }

  predicate Differ(s: seq<Item>, i: int, j: int) { 0 <= i < j < |s| ==> s[i].p != s[j].p }

  // ---------------------------------------------------------------- colours

  predicate RedOk(t: RB) {
    t.Nd? ==> RedOk(t.left) && RedOk(t.right) && (t.v.red ==> !Red(t.left) && !Red(t.right))
  }

  function Unit(v: Val): int { if v.red then 0 else 1 }

  /** Every way down passes h black nodes. */
  predicate Black(t: RB, h: int) {
    if t.Nil? then h == 0 else Black(t.left, h - Unit(t.v)) && Black(t.right, h - Unit(t.v))
  }

  function BH(t: RB): int { if t.Nil? then 0 else BH(t.left) + Unit(t.v) }

  lemma {:induction false} BlackIsBH(t: RB, h: int)
    requires Black(t, h)
    ensures h == BH(t) >= 0
  {
    if t.Nd? {
      BlackIsBH(t.left, h - Unit(t.v));
    }
  }

  predicate RedBlack(t: RB) { RedOk(t) && !Red(t) && Black(t, BH(t)) }

  predicate FrameRed(c: Ctx) { c.At? && c.v.red }

  /** Plugging in a tree of black height h keeps the colour rules, but perhaps for a red root. */
  predicate CtxOk(c: Ctx, h: int) {
    c.At? ==>
      && RedOk(c.sib) && Black(c.sib, h)
      && (c.v.red ==> !Red(c.sib) && c.up.At? && !c.up.v.red)
      && CtxOk(c.up, h + Unit(c.v))
  }

  /** A red root needs a black parent. */
  predicate MayHold(c: Ctx, t: RB) { Red(t) ==> c.At? && !c.v.red }

  lemma {:induction false} PlugColours(c: Ctx, t: RB, h: int)
    requires CtxOk(c, h) && RedOk(t) && Black(t, h) && MayHold(c, t)
    ensures RedBlack(Plug(c, t))
    decreases c
  {
    if c.At? {
      PlugColours(c.up, Join(c.side, t, c.v, c.sib), h + Unit(c.v));
    } else {
      BlackIsBH(t, h);
    }
  }

  lemma {:induction false} UnplugColours(c: Ctx, t: RB)
    requires RedBlack(Plug(c, t))
    ensures RedOk(t) && Black(t, BH(t)) && CtxOk(c, BH(t)) && MayHold(c, t)
    decreases c
  {
    if c.At? {
      var u := Join(c.side, t, c.v, c.sib);
      UnplugColours(c.up, u);
      BlackIsBH(t, BH(u) - Unit(c.v));
    }
  }

  // ---------------------------------------------------------------- largest upper ends

  function Best(v: Val, a: nat, b: nat): nat { Max(v.it.hi, Max(a, b)) }

  predicate MaxOk(t: RB) {
    t.Nd? ==> MaxOk(t.left) && MaxOk(t.right) && t.v.mh == Best(t.v, MH(t.left), MH(t.right))
  }

  /** The sides of the context are in order. */
  predicate SidesMax(c: Ctx) {
    c.At? ==> MaxOk(c.sib) && SidesMax(c.up)
  }

  /** With m at the hole the context is in order. */
  predicate CtxMax(c: Ctx, m: nat) {
    c.At? ==> MaxOk(c.sib) && c.v.mh == Best(c.v, m, MH(c.sib)) && CtxMax(c.up, c.v.mh)
  }

  lemma {:induction false} PlugMax(c: Ctx, t: RB)
    ensures MaxOk(Plug(c, t)) <==> MaxOk(t) && CtxMax(c, MH(t))
    decreases c
  {
    if c.At? {
      PlugMax(c.up, Join(c.side, t, c.v, c.sib));
    }
  }

  lemma {:induction false} CtxMaxSides(c: Ctx, m: nat)
    requires CtxMax(c, m)
    ensures SidesMax(c)
    decreases c
  {
    if c.At? {
      CtxMaxSides(c.up, c.v.mh);
    }
  }

  /** max_high is what its name says. */
  lemma {:induction false} MaxIsMax(t: RB)
    requires MaxOk(t)
    ensures forall i :: 0 <= i < |Items(t)| ==> Items(t)[i].hi <= MH(t)
    ensures t.Nd? ==> exists i :: 0 <= i < |Items(t)| && Items(t)[i].hi == MH(t)
    decreases t
  {
    if t.Nd? {
      MaxIsMax(t.left);
      MaxIsMax(t.right);
      var l, r := Items(t.left), Items(t.right);
      assert Items(t)[|l|] == t.v.it;
      forall i | 0 <= i < |Items(t)| ensures Items(t)[i].hi <= MH(t) {
        assert Items(t)[i] == if i < |l| then l[i] else if i == |l| then t.v.it else r[i - |l| - 1];
      }
      if t.v.mh == t.v.it.hi {
        assert Items(t)[|l|].hi == MH(t);
      } else if t.v.mh == MH(t.left) && t.left.Nd? {
        var i :| 0 <= i < |l| && l[i].hi == MH(t.left);
        assert Items(t)[i] == l[i];
      } else if t.right.Nd? {
        var i :| 0 <= i < |r| && r[i].hi == MH(t.right);
        assert Items(t)[|l| + 1 + i] == r[i];
      }
    }
  }

  /** The context with its own max_high made right from the hole upwards. */
  function Raised(c: Ctx, m: nat): Ctx {
    match c
    case Top => Top
    case At(side, v, sib, up) =>
      var m' := Best(v, m, MH(sib));
      At(side, v.(mh := m'), sib, Raised(up, m'))
  }

  lemma {:induction false} RaisedMax(c: Ctx, m: nat)
    requires SidesMax(c)
    ensures CtxMax(Raised(c, m), m)
    decreases c
  {
    if c.At? {
      RaisedMax(c.up, Best(c.v, m, MH(c.sib)));
    }
  }

  lemma RaisedPlugMax(c: Ctx, t: RB)
    requires SidesMax(c) && MaxOk(t)
    ensures MaxOk(Plug(Raised(c, MH(t)), t))
  {
    RaisedMax(c, MH(t));
    PlugMax(Raised(c, MH(t)), t);
  }

  lemma UnplugMax(c: Ctx, t: RB)
    requires MaxOk(Plug(c, t))
    ensures MaxOk(t) && SidesMax(c)
  {
    PlugMax(c, t);
    CtxMaxSides(c, MH(t));
  }

  lemma {:induction false} RaisedSame(c: Ctx, m: nat, h: int)
    ensures Lower(Raised(c, m)) == Lower(c) && Upper(Raised(c, m)) == Upper(c)
    ensures CtxOk(Raised(c, m), h) <==> CtxOk(c, h)
    ensures ParentOf(Raised(c, m)) == ParentOf(c) && FrameRed(Raised(c, m)) == FrameRed(c)
    decreases c
  {
    if c.At? {
      RaisedSame(c.up, Best(c.v, m, MH(c.sib)), h + Unit(c.v));
    }
  }

  // ---------------------------------------------------------------- rotation

  predicate CanRotate(s: Side, t: RB) { t.Nd? && Child(t, Other(s)).Nd? }

  /** t turned towards side s. */
  function Rotated(s: Side, t: RB): RB
    requires CanRotate(s, t)
  {
    var y := Child(t, Other(s));
    var mp := Best(t.v, MH(Child(t, s)), MH(Child(y, s)));
    var p := Join(s, Child(t, s), t.v.(mh := mp), Child(y, s));
    Join(s, p, y.v.(mh := Best(y.v, mp, MH(Child(y, Other(s))))), Child(y, Other(s)))
  }

  lemma RotatedItems(s: Side, t: RB)
    requires CanRotate(s, t)
    ensures Items(Rotated(s, t)) == Items(t)
  {
    var y := Child(t, Other(s));
    var a, b, c := Child(t, s), Child(y, s), Child(y, Other(s));
    JoinItems(s, a, t.v, y);
    JoinItems(s, b, y.v, c);
    var r := Rotated(s, t);
    JoinItems(s, Child(r, s), r.v, c);
    JoinItems(s, a, Child(r, s).v, b);
    assert t == Join(s, a, t.v, y) && y == Join(s, b, y.v, c);
    Regrouped(Items(a), [t.v.it], Items(b), [y.v.it], Items(c));
    Regrouped(Items(c), [y.v.it], Items(b), [t.v.it], Items(a));
  }

  lemma JoinItems(s: Side, a: RB, v: Val, b: RB)
    ensures Items(Join(s, a, v, b)) == if s == Left then Items(a) + [v.it] + Items(b) else Items(b) + [v.it] + Items(a)
  {
  }

  lemma Regrouped(a: seq<Item>, p: seq<Item>, b: seq<Item>, q: seq<Item>, c: seq<Item>)
    ensures a + p + (b + q + c) == a + p + b + q + c
  {
  }

  lemma RotatedMax(s: Side, t: RB)
    requires CanRotate(s, t) && MaxOk(t)
    ensures MaxOk(Rotated(s, t)) && MH(Rotated(s, t)) == MH(t)
  {
    assert MaxOk(Child(t, Other(s)));
  }

  // ---------------------------------------------------------------- repairing the colours after an insertion

  function Coloured(t: RB, red: bool): RB
    requires t.Nd?
  {
    t.(v := t.v.(red := red))
  }

  function Painted(v: Val, red: bool): Val { v.(red := red) }

  function Depth(c: Ctx): nat { if c.Top? then 0 else 1 + Depth(c.up) }

  /** All is well but that the red root of t may have a red parent. */
  predicate InsOk(c: Ctx, t: RB, h: int) { RedOk(t) && Red(t) && Black(t, h) && CtxOk(c, h) }

  /** A red uncle: the black of the grandparent goes down one level. */
  lemma RecolouredOk(c: Ctx, t: RB, h: int)
    requires InsOk(c, t, h) && FrameRed(c) && Red(c.up.sib)
    ensures InsOk(c.up.up, Join(c.up.side, Join(c.side, t, Painted(c.v, false), c.sib), Painted(c.up.v, true),
          Coloured(c.up.sib, false)), h + 1)
  {
    assert CtxOk(c.up, h) && CtxOk(c.up.up, h + 1);
  }

  /** A black uncle and an inner grandchild: turning the parent makes it an outer one. */
  lemma StraightOk(c: Ctx, t: RB, h: int, mp: nat, mx: nat)
    requires InsOk(c, t, h) && FrameRed(c) && !Red(c.up.sib) && c.side == Other(c.up.side)
    ensures var s := c.up.side;
            InsOk(At(s, t.v.(mh := mx), Child(t, Other(s)), c.up), Join(s, c.sib, c.v.(mh := mp), Child(t, s)), h)
  {
    assert CtxOk(c.up, h) && CtxOk(c.up.up, h + 1);
  }

  /** An outer grandchild: turning the grandparent ends it. */
  lemma TurnedOk(c: Ctx, t: RB, h: int, mg: nat, mp: nat)
    requires InsOk(c, t, h) && FrameRed(c) && !Red(c.up.sib) && c.side == c.up.side
    ensures var s := c.side;
            InsOk(At(s, Val(c.v.it, false, mp), Join(s, c.sib, Val(c.up.v.it, true, mg), c.up.sib), c.up.up), t, h)
  {
    assert CtxOk(c.up, h) && CtxOk(c.up.up, h + 1);
  }

  lemma BlackenedRoot(t: RB)
    requires t.Nd? && RedOk(t) && Black(t, BH(t))
    ensures RedBlack(Coloured(t, false))
  {
    BlackIsBH(t, BH(t));
  }

  // ---------------------------------------------------------------- repairing the colours after a deletion

  function Blackened(t: RB): RB { if t.Nd? then Coloured(t, false) else Nil }

  /** All is well but that t is one black node short, and perhaps red with red children. */
  predicate DelOk(c: Ctx, t: RB, h: int) { RedOk(Blackened(t)) && Black(t, h) && CtxOk(c, h + 1) }

  lemma SiblingThere(c: Ctx, t: RB, h: int)
    requires DelOk(c, t, h)
    ensures c.At? ==> c.sib.Nd?
  {
    BlackIsBH(t, h);
  }

  lemma DelDone(c: Ctx, t: RB, h: int)
    requires DelOk(c, t, h) && (Red(t) || c.Top?)
    ensures RedBlack(Plug(c, Blackened(t)))
  {
    if Red(t) {
      PlugColours(c, Blackened(t), h + 1);
    } else {
      BlackIsBH(t, h);
    }
  }

  lemma SiblingRedOk(c: Ctx, t: RB, h: int, mp: nat, mw: nat)
    requires DelOk(c, t, h) && c.At? && Red(c.sib)
    ensures var s, near, far := c.side, Child(c.sib, c.side), Child(c.sib, Other(c.side));
            var c' := At(s, Val(c.v.it, true, mp), near, At(s, Val(c.sib.v.it, false, mw), far, c.up));
            DelOk(c', t, h) && !Red(near)
  {
    assert RedOk(c.sib) && Black(c.sib, h + 1) && CtxOk(c.up, h + 1 + Unit(c.v));
  }

  /** A black sibling with black children goes red; now the parent is one short. */
  lemma SiblingPaintedOk(c: Ctx, t: RB, h: int)
    requires DelOk(c, t, h) && c.At? && !Red(t) && c.sib.Nd? && !Red(c.sib) && !Red(c.sib.left) && !Red(c.sib.right)
    ensures DelOk(c.up, Join(c.side, t, c.v, Coloured(c.sib, true)), h + Unit(c.v))
  {
  }

  lemma FarRedOk(c: Ctx, t: RB, h: int, mw: nat, mn: nat)
    requires DelOk(c, t, h) && c.At? && c.sib.Nd? && !Red(c.sib) && Red(Child(c.sib, c.side))
    requires !Red(Child(c.sib, Other(c.side)))
    ensures var s, near, far := c.side, Child(c.sib, c.side), Child(c.sib, Other(c.side));
            DelOk(c.(sib := Join(s, Child(near, s), Val(near.v.it, false, mn), Join(s, Child(near, Other(s)),
                  Val(c.sib.v.it, true, mw), far))), t, h)
  {
    var near, far := Child(c.sib, c.side), Child(c.sib, Other(c.side));
    assert RedOk(c.sib) && Black(c.sib, h + 1);
    assert RedOk(near) && Black(near, h) && RedOk(far) && Black(far, h);
  }

  /** A red far nephew: one rotation of the parent ends it. */
  lemma LastTurnOk(c: Ctx, t: RB, h: int, mp: nat, mw: nat)
    requires DelOk(c, t, h) && c.At? && !Red(t) && c.sib.Nd? && !Red(c.sib) && Red(Child(c.sib, Other(c.side)))
    ensures var s, near, far := c.side, Child(c.sib, c.side), Child(c.sib, Other(c.side));
            RedBlack(Plug(c.up, Join(s, Join(s, t, Val(c.v.it, false, mp), near), Val(c.sib.v.it, c.v.red, mw),
                  Coloured(far, false))))
  {
    var s, near, far := c.side, Child(c.sib, c.side), Child(c.sib, Other(c.side));
    assert RedOk(c.sib) && Black(c.sib, h + 1);
    assert RedOk(near) && Black(near, h) && RedOk(far) && Black(far, h);
    assert RedOk(Coloured(far, false)) && Black(Coloured(far, false), h + 1);
    var turned := Join(s, Join(s, t, Val(c.v.it, false, mp), near), Val(c.sib.v.it, c.v.red, mw), Coloured(far, false));
    PlugColours(c.up, turned, h + 1 + Unit(c.v));
  }

  /** Which node is the root depends on what is plugged in only at the top. */
  lemma RootFar(c: Ctx, t: RB, t': RB)
    requires t.Nd? && t'.Nd?
    ensures c.At? ==> Root(Plug(c, t)) == Root(Plug(c, t'))
  {
    if c.At? && c.up.At? {
      RootFar(c.up, Join(c.side, t, c.v, c.sib), Join(c.side, t', c.v, c.sib));
    }
  }

  // ---------------------------------------------------------------- contexts within contexts

  /** Context a inside context b. */
  function Under(a: Ctx, b: Ctx): Ctx {
    if a.Top? then b else a.(up := Under(a.up, b))
  }

  lemma {:induction false} PlugUnder(a: Ctx, b: Ctx, t: RB)
    ensures Plug(Under(a, b), t) == Plug(b, Plug(a, t))
    decreases a
  {
    if a.At? {
      PlugUnder(a.up, b, Join(a.side, t, a.v, a.sib));
    }
  }

  lemma {:induction false} SidesUnder(a: Ctx, b: Ctx)
    ensures SidesMax(Under(a, b)) <==> SidesMax(a) && SidesMax(b)
    decreases a
  {
    if a.At? {
      SidesUnder(a.up, b);
    }
  }

  /** What max_high is at the top of a when it is m at the hole. */
  function Above(a: Ctx, m: nat): nat {
    if a.Top? then m else Above(a.up, Best(a.v, m, MH(a.sib)))
  }

  lemma {:induction false} RaisedUnder(a: Ctx, b: Ctx, m: nat)
    ensures Raised(Under(a, b), m) == Under(Raised(a, m), Raised(b, Above(a, m)))
    decreases a
  {
    if a.At? {
      RaisedUnder(a.up, b, Best(a.v, m, MH(a.sib)));
    }
  }

  /** The frames have the same colours and sides. */
  predicate Alike(c: Ctx, c': Ctx) {
    if c.Top? then c'.Top?
    else c'.At? && c'.side == c.side && c'.v.red == c.v.red && c'.sib == c.sib && Alike(c.up, c'.up)
  }

  lemma {:induction false} AlikeOk(c: Ctx, c': Ctx, h: int)
    requires Alike(c, c')
    ensures CtxOk(c, h) <==> CtxOk(c', h)
    ensures FrameRed(c) <==> FrameRed(c')
    decreases c
  {
    if c.At? {
      AlikeOk(c.up, c'.up, h + Unit(c.v));
    }
  }

  lemma {:induction false} RaisedAlike(c: Ctx, m: nat)
    ensures Alike(c, Raised(c, m))
    decreases c
  {
    if c.At? {
      RaisedAlike(c.up, Best(c.v, m, MH(c.sib)));
    }
  }

  lemma {:induction false} UnderAlike(a: Ctx, a': Ctx, b: Ctx, b': Ctx)
    requires Alike(a, a') && Alike(b, b')
    ensures Alike(Under(a, b), Under(a', b'))
    decreases a
  {
    if a.At? {
      UnderAlike(a.up, a'.up, b, b');
    }
  }

  /** The only child of a node that lacks one. */
  function OnlyChild(t: RB): RB
    requires t.Nd?
  {
    if t.left.Nil? then t.right else t.left
  }

  /** A node with at most one child gives its place to it: if it was red all is well, otherwise
      its child is one black node short. */
  lemma SplicedColours(c: Ctx, t: RB, c': Ctx)
    requires RedBlack(Plug(c, t)) && t.Nd? && (t.left.Nil? || t.right.Nil?) && Alike(c, c')
    ensures t.v.red ==> RedBlack(Plug(c', OnlyChild(t)))
    ensures !t.v.red ==> DelOk(c', OnlyChild(t), BH(t) - 1)
  {
    var s := OnlyChild(t);
    UnplugColours(c, t);
    AlikeOk(c, c', BH(t));
    if t.v.red {
      PlugColours(c', s, BH(t));
    }
  }

  /** A context that goes left all the way. */
  predicate LeftOnly(c: Ctx) { c.At? ==> c.side == Left && LeftOnly(c.up) }

  lemma {:induction false} LeftOnlyLower(c: Ctx)
    requires LeftOnly(c)
    ensures Lower(c) == []
    decreases c
  {
    if c.At? {
      LeftOnlyLower(c.up);
    }
  }

  /** The first node of a tree and what remains without it. */
  lemma FirstItem(c: Ctx, v: Val, r: RB)
    requires LeftOnly(c)
    ensures Items(Plug(c, Nd(Nil, v, r))) == [v.it] + Items(Plug(c, r))
  {
    LeftOnlyLower(c);
    PlugItems(c, Nd(Nil, v, r));
    PlugItems(c, r);
  }

  lemma LeftUnder(c: Ctx, v: Val, sib: RB, d: Ctx)
    ensures Under(At(Left, v, sib, c), d) == At(Left, v, sib, Under(c, d))
  {
  }

  // ---------------------------------------------------------------- one node more, one node less

  ghost predicate LowsUpto(s: seq<Item>, k: nat) { forall i {:trigger s[i]} :: 0 <= i < |s| ==> s[i].lo <= k }

  ghost predicate LowsFrom(s: seq<Item>, k: nat) { forall i {:trigger s[i]} :: 0 <= i < |s| ==> k <= s[i].lo }

  lemma SortedSplit(a: seq<Item>, it: Item, b: seq<Item>)
    requires ByLow(a + [it] + b)
    ensures LowsUpto(a, it.lo) && LowsFrom(b, it.lo) && ByLow(a) && ByLow(b)
  {
    var s := a + [it] + b;
    forall i {:trigger a[i]} | 0 <= i < |a| ensures a[i].lo <= it.lo { assert InOrder(s, i, |a|); }
    forall i {:trigger b[i]} | 0 <= i < |b| ensures it.lo <= b[i].lo { assert InOrder(s, |a|, |a| + 1 + i); }
    forall i, j {:trigger InOrder(a, i, j)} ensures InOrder(a, i, j) { assert InOrder(s, i, j); }
    forall i, j {:trigger InOrder(b, i, j)} ensures InOrder(b, i, j) { assert InOrder(s, |a| + 1 + i, |a| + 1 + j); }
  }

  /** it goes behind everything that does not start after it. */
  function Inserted(s: seq<Item>, it: Item): seq<Item> {
    if s == [] || s[0].lo > it.lo then [it] + s else [s[0]] + Inserted(s[1..], it)
  }

  lemma {:induction false} InsertedBetween(a: seq<Item>, b: seq<Item>, it: Item)
    requires LowsUpto(a, it.lo) && LowsFrom(b, it.lo + 1)
    ensures Inserted(a + b, it) == a + [it] + b
    decreases |a|
  {
    if a == [] {
      assert a + b == b;
    } else {
      assert (a + b)[1..] == a[1..] + b;
      InsertedBetween(a[1..], b, it);
      assert [a[0]] + (a[1..] + [it] + b) == a + [it] + b;
    }
  }

  lemma InsertedSorted(a: seq<Item>, b: seq<Item>, it: Item)
    requires ByLow(a + b) && LowsUpto(a, it.lo) && LowsFrom(b, it.lo)
    ensures ByLow(a + [it] + b)
  {
    var s, s' := a + b, a + [it] + b;
    forall i, j {:trigger InOrder(s', i, j)} ensures InOrder(s', i, j) {
      assert InOrder(s, if i <= |a| then i else i - 1, if j <= |a| then j else j - 1);
      assert 0 <= i < |s'| ==> s'[i] == if i < |a| then s[i] else if i == |a| then it else s[i - 1];
      assert 0 <= j < |s'| ==> s'[j] == if j < |a| then s[j] else if j == |a| then it else s[j - 1];
      assert 0 <= i < |a| ==> s[i] == a[i];
      assert |a| < j < |s'| ==> s[j - 1] == b[j - 1 - |a|];
    }
  }

  /** The sequence without node p. */
  function Removed(s: seq<Item>, p: nat): seq<Item> {
    if s == [] then [] else if s[0].p == p then s[1..] else [s[0]] + Removed(s[1..], p)
  }

  lemma {:induction false} RemovedBetween(a: seq<Item>, it: Item, b: seq<Item>)
    requires Distinct(a + [it] + b)
    ensures Removed(a + [it] + b, it.p) == a + b
    decreases |a|
  {
    var s := a + [it] + b;
    if a == [] {
      assert s[1..] == b && a + b == b;
    } else {
      assert Differ(s, 0, |a|);
      assert s[1..] == a[1..] + [it] + b;
      forall i, j {:trigger Differ(s[1..], i, j)} ensures Differ(s[1..], i, j) { assert Differ(s, i + 1, j + 1); }
      RemovedBetween(a[1..], it, b);
      assert [a[0]] + (a[1..] + b) == a + b;
    }
  }

  lemma RemovedSorted(a: seq<Item>, it: Item, b: seq<Item>)
    requires ByLow(a + [it] + b)
    ensures ByLow(a + b)
  {
    var s, s' := a + [it] + b, a + b;
    forall i, j {:trigger InOrder(s', i, j)} ensures InOrder(s', i, j) {
      assert InOrder(s, if i < |a| then i else i + 1, if j < |a| then j else j + 1);
    }
  }
}
