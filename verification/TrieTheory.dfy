/** What a double array together with a tail table denotes: one finite map from
    NUL-terminated symbol strings to data. */
module TrieTheory {
  import opened DoubleArray
  import opened Tails

  /** A symbol string with its terminating NUL. */
  type Str = seq<int>

  ghost predicate Terminated(x: Str) {
    x != [] && x[|x| - 1] == 0 && forall i :: 0 <= i < |x| - 1 ==> 0 < x[i] < 0x80
  }

  predicate EndsInNul(p: Label) {
    p != [] && p[|p| - 1] == 0
  }

  ghost predicate LabelSyntax(p: Label) {
    && AllSyms(p)
    && forall i :: 0 <= i < |p| - 1 ==> p[i] != 0
  }

  ghost predicate SuffixSyntax(x: seq<int>) {
    forall i :: 0 <= i < |x| ==> 0 < x[i] < 0x80
  }

  /** The tail block of a separate node holds the rest of its key. */
  ghost predicate LeafOk(t: map<Label, Kind>, ts: seq<Block>, p: Label) {
    && p in t && t[p].Separate?
    && InUse(ts, t[p].tail - 1)
    && ts[t[p].tail - 1].suffix.Some?
    && SuffixSyntax(ts[t[p].tail - 1].suffix.value)
    && (EndsInNul(p) ==> ts[t[p].tail - 1].suffix.value == [])
  }

  ghost function Full(t: map<Label, Kind>, ts: seq<Block>, p: Label): Str
    requires LeafOk(t, ts, p)
  {
    if EndsInNul(p) then p else p + ts[t[p].tail - 1].suffix.value + [0]
  }

  /** Separate node p stands for the key x. */
  ghost predicate Spells(t: map<Label, Kind>, ts: seq<Block>, p: Label, x: Str) {
    LeafOk(t, ts, p) && Full(t, ts, p) == x
  }

  ghost predicate NodeOk(t: map<Label, Kind>, p: Label) {
    p in t ==> LabelSyntax(p) && t[p] != Dangling && (EndsInNul(p) ==> t[p].Separate?)
  }

  /** Separate nodes do not share tail blocks. */
  ghost predicate OwnTail(t: map<Label, Kind>, p: Label, q: Label) {
    p in t && q in t && t[p].Separate? && t[q].Separate? && t[p].tail == t[q].tail ==> p == q
  }

  /** The trie (t, ts) represents the finite map m. */
  ghost predicate Represents(t: map<Label, Kind>, ts: seq<Block>, m: map<Str, int>) {
    && Shape(t) && t[[]] == Branch
    && (forall p {:trigger NodeOk(t, p)} :: NodeOk(t, p))
    && (forall p {:trigger LeafOk(t, ts, p)} :: p in t && t[p].Separate? ==> LeafOk(t, ts, p))
    && (forall p, q {:trigger OwnTail(t, p, q)} :: OwnTail(t, p, q))
    && (forall p {:trigger Full(t, ts, p)} :: LeafOk(t, ts, p) ==>
          Full(t, ts, p) in m && m[Full(t, ts, p)] == ts[t[p].tail - 1].data)
    && (forall x {:trigger x in m} :: x in m ==> exists p :: Spells(t, ts, p, x))
    && (forall b {:trigger Owned(t, ts, b)} :: Owned(t, ts, b))
  }

  /** Every allocated tail block belongs to a separate node. */
  ghost predicate Owned(t: map<Label, Kind>, ts: seq<Block>, b: int) {
    InUse(ts, b) ==> exists p :: Owns(t, ts, p, b)
  }

  ghost predicate Owns(t: map<Label, Kind>, ts: seq<Block>, p: Label, b: int) {
    LeafOk(t, ts, p) && t[p].tail == b + 1
  }

  /** One more block is in use, the others are as before. */
  ghost predicate BlockTaken(ts: seq<Block>, ts': seq<Block>, n: int) {
    && 0 < n <= |ts'| && !InUse(ts, n - 1) && |ts'| <= |ts| + 1
    && (forall b {:trigger InUse(ts, b)} :: InUse(ts, b) ==> b < |ts'| && ts'[b] == ts[b])
    && (forall b {:trigger InUse(ts', b)} :: InUse(ts', b) && b != n - 1 ==> InUse(ts, b))
  }

  /** One block less is in use, the others are as before but for the links. */
  ghost predicate BlockFreed(ts: seq<Block>, ts': seq<Block>, n: int) {
    && |ts'| == |ts| && !InUse(ts', n - 1)
    && (forall b {:trigger ts'[b]} :: 0 <= b < |ts| && b != n - 1 ==>
          ts'[b].data == ts[b].data && ts'[b].suffix == ts[b].suffix && (InUse(ts', b) <==> InUse(ts, b)))
  }

  // ---------------------------------------------------------------- prefixes

  lemma {:induction false} ProperPrefixBranches(t: map<Label, Kind>, p: Label, q: Label)
    requires Shape(t) && q in t && p < q
    ensures p in t && t[p] == Branch
    decreases |q|
  {
    var up := q[..|q| - 1];
    assert UpOk(t, q);
    assert p <= up;
    if p != up {
      ProperPrefixBranches(t, p, up);
    }
  }

  lemma PrefixesComparable(p: Label, q: Label, x: Label)
    requires p <= x && q <= x
    ensures p <= q || q < p
  {
    assert p == x[..|p|] && q == x[..|q|];
  }

  /** A node on the way along x is an ancestor of (or is) the separate node that spells x. */
  lemma SpelledBelow(t: map<Label, Kind>, ts: seq<Block>, p: Label, q: Label, x: Str)
    requires Shape(t) && Spells(t, ts, p, x) && q in t && q <= x
    ensures q <= p && p <= x
  {
    assert p <= x;
    PrefixesComparable(q, p, x);
    if p < q {
      ProperPrefixBranches(t, p, q);
      assert false;
    }
  }

  /** One key, one separate node. */
  lemma SpelledOnce(t: map<Label, Kind>, ts: seq<Block>, p: Label, q: Label, x: Str)
    requires Shape(t) && Spells(t, ts, p, x) && Spells(t, ts, q, x)
    ensures p == q
  {
    SpelledBelow(t, ts, p, q, x);
    SpelledBelow(t, ts, q, p, x);
    assert p == q[..|p|] == q;
  }

  lemma ArcOnTheWay(t: map<Label, Kind>, ts: seq<Block>, p: Label, x: Str, i: nat)
    requires Shape(t) && Spells(t, ts, p, x) && i < |x| && x[..i] in t && t[x[..i]] == Branch
    ensures x[..i + 1] in t
  {
    SpelledBelow(t, ts, p, x[..i], x);
    assert p == x[..|p|] && |p| > i;
    assert x[..i + 1] <= p;
    if x[..i + 1] < p {
      ProperPrefixBranches(t, x[..i + 1], p);
    }
  }

  /** The walk of retrieve fell off the tree: the key is not stored. */
  lemma FellOff(t: map<Label, Kind>, ts: seq<Block>, m: map<Str, int>, x: Str, i: nat)
    requires Represents(t, ts, m) && i < |x| && x[..i] in t && t[x[..i]] == Branch && x[..i] + [x[i]] !in t
    ensures x !in m
  {
    assert x[..i] + [x[i]] == x[..i + 1];
    if x in m {
      var p :| Spells(t, ts, p, x);
      ArcOnTheWay(t, ts, p, x, i);
      assert false;
    }
  }

  /** Where the comparison with the tail starts: the walk does not step past the NUL. */
  function TailStart(p: Label): nat {
    if EndsInNul(p) then |p| - 1 else |p|
  }

  lemma SpelledHere(t: map<Label, Kind>, ts: seq<Block>, p: Label, q: Label, x: Str)
    requires Shape(t) && Spells(t, ts, q, x) && p in t && t[p].Separate? && p <= x
    ensures p == q
  {
    SpelledBelow(t, ts, q, p, x);
    if p < q {
      ProperPrefixBranches(t, p, q);
      assert false;
    }
    assert p == q[..|p|] == q;
  }

  lemma SpellsIffRest(t: map<Label, Kind>, ts: seq<Block>, p: Label, x: Str)
    requires LeafOk(t, ts, p) && p <= x
    ensures Spells(t, ts, p, x) <==> x[TailStart(p)..] == ts[t[p].tail - 1].suffix.value + [0]
  {
    var rest := ts[t[p].tail - 1].suffix.value + [0];
    assert p == x[..|p|];
    assert x == x[..TailStart(p)] + x[TailStart(p)..];
    if EndsInNul(p) {
      assert rest == [0];
      assert p == x[..TailStart(p)] + [0];
    } else {
      assert Full(t, ts, p) == p + rest;
    }
  }

  /** The walk reached a separate node: the rest decides. */
  lemma ReachedSeparate(t: map<Label, Kind>, ts: seq<Block>, m: map<Str, int>, x: Str, p: Label)
    requires Represents(t, ts, m) && p in t && t[p].Separate? && p <= x
    ensures LeafOk(t, ts, p)
    ensures x in m <==> x[TailStart(p)..] == ts[t[p].tail - 1].suffix.value + [0]
    ensures x in m ==> Spells(t, ts, p, x) && m[x] == ts[t[p].tail - 1].data
  {
    assert LeafOk(t, ts, p);
    SpellsIffRest(t, ts, p, x);
    if x in m {
      var q :| Spells(t, ts, q, x);
      SpelledHere(t, ts, p, q, x);
    }
  }

  // ---------------------------------------------------------------- what the updates do to the map

  /** Leaves of t live on unchanged in (t', ts'). */
  ghost predicate Kept(t: map<Label, Kind>, ts: seq<Block>, t': map<Label, Kind>, ts': seq<Block>, p: Label) {
    LeafOk(t, ts, p) ==>
      p in t' && t'[p] == t[p] && t[p].tail - 1 < |ts'| && ts'[t[p].tail - 1] == ts[t[p].tail - 1]
  }

  lemma KeptSpells(t: map<Label, Kind>, ts: seq<Block>, t': map<Label, Kind>, ts': seq<Block>, p: Label)
    requires Kept(t, ts, t', ts', p) && LeafOk(t, ts, p)
    ensures LeafOk(t', ts', p) && Full(t', ts', p) == Full(t, ts, p)
    ensures ts'[t'[p].tail - 1].data == ts[t[p].tail - 1].data
  {
  }

  /** The part of Represents that is about the tree alone. */
  ghost predicate TreeSide(t: map<Label, Kind>) {
    && Shape(t) && t[[]] == Branch
    && (forall p {:trigger NodeOk(t, p)} :: NodeOk(t, p))
  }

  /** The leaf p of t, if it is one, is sound, has its own tail and is known to the map. */
  ghost predicate LeafSide(t: map<Label, Kind>, ts: seq<Block>, m: map<Str, int>, p: Label) {
    p in t && t[p].Separate? ==>
      && LeafOk(t, ts, p)
      && (forall q {:trigger OwnTail(t, p, q)} :: OwnTail(t, p, q))
      && Full(t, ts, p) in m && m[Full(t, ts, p)] == ts[t[p].tail - 1].data
  }

  ghost predicate MapSide(t: map<Label, Kind>, ts: seq<Block>, x: Str) {
    exists p :: Spells(t, ts, p, x)
  }

  lemma Assemble(t: map<Label, Kind>, ts: seq<Block>, m: map<Str, int>)
    requires TreeSide(t)
    requires forall p {:trigger LeafSide(t, ts, m, p)} :: LeafSide(t, ts, m, p)
    requires forall x {:trigger MapSide(t, ts, x)} :: x in m ==> MapSide(t, ts, x)
    requires forall b {:trigger Owned(t, ts, b)} :: Owned(t, ts, b)
    ensures Represents(t, ts, m)
  {
    forall p {:trigger LeafOk(t, ts, p)} | p in t && t[p].Separate? ensures LeafOk(t, ts, p) {
      assert LeafSide(t, ts, m, p);
    }
    forall p, q {:trigger OwnTail(t, p, q)} ensures OwnTail(t, p, q) {
      assert LeafSide(t, ts, m, p);
    }
    forall p {:trigger Full(t, ts, p)} | LeafOk(t, ts, p)
      ensures Full(t, ts, p) in m && m[Full(t, ts, p)] == ts[t[p].tail - 1].data
    {
      assert LeafSide(t, ts, m, p);
    }
    forall x {:trigger x in m} | x in m ensures exists p :: Spells(t, ts, p, x) {
      assert MapSide(t, ts, x);
    }
  }

  /** What a represented leaf offers. */
  lemma LeafFacts(t: map<Label, Kind>, ts: seq<Block>, m: map<Str, int>, p: Label)
    requires Represents(t, ts, m)
    ensures LeafSide(t, ts, m, p) && NodeOk(t, p)
  {
    if p in t && t[p].Separate? {
      assert LeafOk(t, ts, p);
    }
  }

  lemma MapFacts(t: map<Label, Kind>, ts: seq<Block>, m: map<Str, int>, x: Str) returns (p: Label)
    requires Represents(t, ts, m) && x in m
    ensures Spells(t, ts, p, x)
  {
    p :| Spells(t, ts, p, x);
  }

  lemma Owner(t: map<Label, Kind>, ts: seq<Block>, m: map<Str, int>, b: int) returns (p: Label)
    requires Represents(t, ts, m) && InUse(ts, b)
    ensures Owns(t, ts, p, b)
  {
    assert Owned(t, ts, b);
    p :| Owns(t, ts, p, b);
  }

  // ---------------------------------------------------------------- the map of a tree and its tails

  /** The separate node that stands for x. */
  ghost function LeafOf(t: map<Label, Kind>, ts: seq<Block>, x: Str): Label
    requires MapSide(t, ts, x)
  {
    var p :| Spells(t, ts, p, x); p
  }

  /** The keys a tree and its tails spell, with their data. */
  ghost function Spelled(t: map<Label, Kind>, ts: seq<Block>): map<Str, int> {
    map x | x in (set p | p in t && LeafOk(t, ts, p) :: Full(t, ts, p)) && MapSide(t, ts, x) ::
          ts[t[LeafOf(t, ts, x)].tail - 1].data
  }

  lemma SpelledAt(t: map<Label, Kind>, ts: seq<Block>, p: Label)
    requires Shape(t) && LeafOk(t, ts, p)
    ensures Full(t, ts, p) in Spelled(t, ts) && Spelled(t, ts)[Full(t, ts, p)] == ts[t[p].tail - 1].data
  {
    var x := Full(t, ts, p);
    assert Spells(t, ts, p, x);
    assert MapSide(t, ts, x);
    SpelledOnce(t, ts, p, LeafOf(t, ts, x), x);
  }

  /** A tree of sound leaves with a tail each represents the map it spells. */
  lemma SpelledRepresented(t: map<Label, Kind>, ts: seq<Block>)
    requires TreeSide(t)
    requires forall p {:trigger LeafOk(t, ts, p)} :: p in t && t[p].Separate? ==> LeafOk(t, ts, p)
    requires forall p, q {:trigger OwnTail(t, p, q)} :: OwnTail(t, p, q)
    requires forall b {:trigger Owned(t, ts, b)} :: Owned(t, ts, b)
    ensures Represents(t, ts, Spelled(t, ts))
  {
    var m := Spelled(t, ts);
    forall p {:trigger LeafSide(t, ts, m, p)} ensures LeafSide(t, ts, m, p) {
      if p in t && t[p].Separate? {
        assert LeafOk(t, ts, p);
        SpelledAt(t, ts, p);
      }
    }
    Assemble(t, ts, m);
  }

  /** Only one map is represented. */
  lemma SpelledOnly(t: map<Label, Kind>, ts: seq<Block>, m: map<Str, int>)
    requires Represents(t, ts, m)
    ensures m == Spelled(t, ts)
  {
    forall x | x in m ensures x in Spelled(t, ts) && Spelled(t, ts)[x] == m[x] {
      var p := MapFacts(t, ts, m, x);
      SpelledAt(t, ts, p);
      LeafFacts(t, ts, m, p);
    }
    forall x | x in Spelled(t, ts) ensures x in m {
      assert MapSide(t, ts, x);
      LeafFacts(t, ts, m, LeafOf(t, ts, x));
    }
  }

  /** Overwriting the datum of a stored key. */
  lemma DataChanged(t: map<Label, Kind>, ts: seq<Block>, m: map<Str, int>, p: Label, x: Str, d: int)
    requires Represents(t, ts, m) && Spells(t, ts, p, x)
    ensures Represents(t, ts[t[p].tail - 1 := ts[t[p].tail - 1].(data := d)], m[x := d])
  {
    var b := t[p].tail - 1;
    var ts', m' := ts[b := ts[b].(data := d)], m[x := d];
    forall q {:trigger LeafSide(t, ts', m', q)} ensures LeafSide(t, ts', m', q) {
      LeafFacts(t, ts, m, q);
      if q in t && t[q].Separate? {
        assert OwnTail(t, q, p);
        if Full(t, ts, q) == x {
          SpelledOnce(t, ts, p, q, x);
        }
      }
    }
    forall y {:trigger MapSide(t, ts', y)} | y in m' ensures MapSide(t, ts', y) {
      var q := p;
      if y != x {
        q := MapFacts(t, ts, m, y);
      }
      assert Spells(t, ts', q, y);
    }
    forall c {:trigger Owned(t, ts', c)} ensures Owned(t, ts', c) {
      if InUse(ts', c) {
        var q := Owner(t, ts, m, c);
        assert Owns(t, ts', q, c);
      }
    }
    Assemble(t, ts', m');
  }

  /** The suffix that goes into the tail when the branch takes the first symbol of y. */
  function Rest(y: Str): seq<int>
    requires y != []
  {
    if y[0] == 0 || |y| == 1 then [] else y[1..|y| - 1]
  }

  /** A new separate node at the end of a new arc: the key along it is stored, nothing else changes. */
  lemma BranchStored(t: map<Label, Kind>, ts: seq<Block>, m: map<Str, int>, q: Label, y: Str, d: int,
                     t': map<Label, Kind>, ts': seq<Block>, n: int)
    requires Represents(t, ts, m) && q in t && t[q] == Branch
    requires y != [] && Terminated(q + y) && q + [y[0]] !in t
    requires BlockTaken(ts, ts', n) && ts'[n - 1] == Block(ALLOCATED, d, Some(Rest(y)))
    requires t' == t[q := Branch][q + [y[0]] := Separate(n)]
    ensures Represents(t', ts', m[q + y := d]) && q + y !in m
  {
    var l, x := q + [y[0]], q + y;
    var m' := m[x := d];
    assert x[..|q|] == q && x[|q|] == y[0];
    FellOff(t, ts, m, x, |q|);
    NewLeafOk(t, ts', q, y, d, t', n);
    BranchedTree(t, q, y[0], t', n);
    forall p {:trigger LeafSide(t', ts', m', p)} ensures LeafSide(t', ts', m', p) {
      BranchedLeaf(t, ts, m, q, y, d, t', ts', n, p);
    }
    forall z {:trigger MapSide(t', ts', z)} | z in m' ensures MapSide(t', ts', z) {
      var p := l;
      if z != x {
        p := MapFacts(t, ts, m, z);
      }
      assert Spells(t', ts', p, z);
    }
    forall b {:trigger Owned(t', ts', b)} ensures Owned(t', ts', b) {
      if InUse(ts', b) {
        var p := l;
        if b != n - 1 {
          p := Owner(t, ts, m, b);
        }
        assert Owns(t', ts', p, b);
      }
    }
    Assemble(t', ts', m');
  }

  lemma BranchedLeaf(t: map<Label, Kind>, ts: seq<Block>, m: map<Str, int>, q: Label, y: Str, d: int,
                     t': map<Label, Kind>, ts': seq<Block>, n: int, p: Label)
    requires Represents(t, ts, m) && q in t && t[q] == Branch && q + y !in m
    requires y != [] && Terminated(q + y) && q + [y[0]] !in t
    requires BlockTaken(ts, ts', n) && ts'[n - 1] == Block(ALLOCATED, d, Some(Rest(y)))
    requires t' == t[q := Branch][q + [y[0]] := Separate(n)]
    ensures LeafSide(t', ts', m[q + y := d], p)
  {
    var l := q + [y[0]];
    NewLeafOk(t, ts', q, y, d, t', n);
    LeafFacts(t, ts, m, p);
    forall p' {:trigger OwnTail(t', p, p')} ensures OwnTail(t', p, p') {
      LeafFacts(t, ts, m, p');
      assert OwnTail(t, p, p');
      BranchedOwn(t, ts, q, l, t', n, p, p');
    }
    if p != l && p in t' && t'[p].Separate? {
      assert Kept(t, ts, t', ts', p);
      KeptSpells(t, ts, t', ts', p);
    }
  }

  lemma BranchedOwn(t: map<Label, Kind>, ts: seq<Block>, q: Label, l: Label, t': map<Label, Kind>, n: int, p: Label,
                    p': Label)
    requires !InUse(ts, n - 1) && t' == t[q := Branch][l := Separate(n)] && OwnTail(t, p, p')
    requires p in t && t[p].Separate? ==> LeafOk(t, ts, p)
    requires p' in t && t[p'].Separate? ==> LeafOk(t, ts, p')
    ensures OwnTail(t', p, p')
  {
  }

  lemma BranchedTree(t: map<Label, Kind>, q: Label, c: int, t': map<Label, Kind>, n: int)
    requires TreeSide(t) && q in t && t[q] == Branch && LabelSyntax(q + [c]) && q + [c] !in t
    requires t' == t[q := Branch][q + [c] := Separate(n)]
    ensures TreeSide(t')
  {
    var l := q + [c];
    forall p {:trigger UpOk(t', p)} ensures UpOk(t', p) {
      assert UpOk(t, p);
      assert l[..|l| - 1] == q;
    }
    forall p {:trigger NodeOk(t', p)} ensures NodeOk(t', p) {
      assert NodeOk(t, p);
    }
  }

  lemma NewLeafOk(t: map<Label, Kind>, ts': seq<Block>, q: Label, y: Str, d: int, t': map<Label, Kind>, n: int)
    requires y != [] && Terminated(q + y)
    requires 0 < n <= |ts'| && ts'[n - 1] == Block(ALLOCATED, d, Some(Rest(y)))
    requires t' == t[q := Branch][q + [y[0]] := Separate(n)]
    ensures var l := q + [y[0]]; LeafOk(t', ts', l) && Full(t', ts', l) == q + y && LabelSyntax(l)
  {
    var l, x := q + [y[0]], q + y;
    assert forall i :: 0 <= i < |l| ==> l[i] == x[i];
    assert forall i :: 0 <= i < |y| ==> y[i] == x[|q| + i];
    if y[0] == 0 {
      assert x[|q|] == 0;
      assert |y| == 1;
      assert l == x;
    } else {
      assert y[|y| - 1] == 0;
      assert x == l + y[1..|y| - 1] + [0];
    }
  }

  // ---------------------------------------------------------------- splitting a tail

  /** t with a chain of branching nodes from q along w, ending in a node of kind k. */
  function Chained(t: map<Label, Kind>, q: Label, w: seq<int>, k: Kind): map<Label, Kind>
    decreases |w|
  {
    if w == [] then t[q := k] else Chained(t, q, w[..|w| - 1], Branch)[q + w := k]
  }

  lemma {:induction false} ChainedAt(t: map<Label, Kind>, q: Label, w: seq<int>, k: Kind, p: Label)
    requires q in t
    ensures p in Chained(t, q, w, k) <==> p in t || q < p <= q + w
    ensures p in Chained(t, q, w, k) ==>
              Chained(t, q, w, k)[p] == if q <= p <= q + w then (if p == q + w then k else Branch) else t[p]
    decreases |w|
  {
    if w == [] {
      assert q + w == q;
      assert q <= p <= q ==> p == q[..|p|] == q;
    } else {
      var v := w[..|w| - 1];
      ChainedAt(t, q, v, Branch, p);
      PrefixStep(q + v, q + w, p);
      assert q + w == (q + v) + [w[|w| - 1]];
    }
  }

  lemma PrefixStep(a: Label, b: Label, p: Label)
    requires |b| == |a| + 1 && a <= b
    ensures p <= b <==> p <= a || p == b
  {
    if p <= b {
      assert p == b[..|p|] && a == b[..|a|];
    }
  }

  lemma ChainedStep(t: map<Label, Kind>, q: Label, w: seq<int>, c: int, j: Kind, k: Kind)
    requires q in t
    ensures Chained(t, q, w, j)[q + w := Branch][q + w + [c] := k] == Chained(t, q, w + [c], k)
  {
    assert (w + [c])[..|w + [c]| - 1] == w;
    assert q + (w + [c]) == q + w + [c];
    if w == [] {
      assert q + w == q;
    }
  }

  /** The node of `q` along its own suffix, n symbols down: the key it stands for is the same. */
  lemma PushedDown(t: map<Label, Kind>, ts: seq<Block>, m: map<Str, int>, q: Label, n: nat)
    requires Represents(t, ts, m) && LeafOk(t, ts, q) && !EndsInNul(q)
    requires n <= |ts[t[q].tail - 1].suffix.value|
    ensures var b := t[q].tail - 1; var sfx := ts[b].suffix.value + [0];
            Represents(Chained(t, q, sfx[..n + 1], t[q]), ts[b := ts[b].(suffix := Some(Rest(sfx[n..])))], m)
  {
    var b := t[q].tail - 1;
    var sfx := ts[b].suffix.value + [0];
    var t', ts' := Chained(t, q, sfx[..n + 1], t[q]), ts[b := ts[b].(suffix := Some(Rest(sfx[n..])))];
    LeafFacts(t, ts, m, q);
    assert sfx[..|sfx| - 1] == ts[b].suffix.value;
    PushedTree(t, q, sfx, n, t[q]);
    forall p {:trigger LeafSide(t', ts', m, p)} ensures LeafSide(t', ts', m, p) {
      PushedLeaf(t, ts, m, q, n, p);
    }
    forall x {:trigger MapSide(t', ts', x)} | x in m ensures MapSide(t', ts', x) {
      var p := MapFacts(t, ts, m, x);
      PushedSpells(t, ts, m, q, n, p);
    }
    forall c {:trigger Owned(t', ts', c)} ensures Owned(t', ts', c) {
      if InUse(ts', c) {
        var p := Owner(t, ts, m, c);
        PushedSpells(t, ts, m, q, n, p);
        assert Owns(t', ts', if p == q then q + sfx[..n + 1] else p, c);
      }
    }
    Assemble(t', ts', m);
  }

  lemma PushedTree(t: map<Label, Kind>, q: Label, sfx: seq<int>, n: nat, k: Kind)
    requires TreeSide(t) && q in t && t[q].Separate? && k.Separate? && !EndsInNul(q) && LabelSyntax(q)
    requires n < |sfx| && sfx[|sfx| - 1] == 0 && SuffixSyntax(sfx[..|sfx| - 1])
    ensures TreeSide(Chained(t, q, sfx[..n + 1], k))
  {
    var w := sfx[..n + 1];
    var t' := Chained(t, q, w, k);
    ChainedAt(t, q, w, k, []);
    forall p {:trigger UpOk(t', p)} ensures UpOk(t', p) {
      PushedUp(t, q, w, k, p);
    }
    forall p {:trigger NodeOk(t', p)} ensures NodeOk(t', p) {
      assert NodeOk(t, p);
      ChainedAt(t, q, w, k, p);
      if q < p <= q + w {
        assert forall i :: 0 <= i < |p| ==> p[i] == if i < |q| then q[i] else sfx[i - |q|];
        assert forall i :: 0 <= i < |sfx| - 1 ==> 0 < sfx[i] < 0x80 by {
          assert forall i :: 0 <= i < |sfx| - 1 ==> sfx[i] == sfx[..|sfx| - 1][i];
        }
      }
    }
  }

  lemma PushedUp(t: map<Label, Kind>, q: Label, w: seq<int>, k: Kind, p: Label)
    requires Shape(t) && q in t && t[q].Separate?
    ensures UpOk(Chained(t, q, w, k), p)
  {
    assert UpOk(t, p);
    if p in Chained(t, q, w, k) && p != [] {
      var up := p[..|p| - 1];
      ChainedAt(t, q, w, k, p);
      ChainedAt(t, q, w, k, up);
      if q < p <= q + w {
        assert p == (q + w)[..|p|];
        assert q <= up && up <= q + w && up != q + w;
      } else if q <= up {
        ProperPrefixBranches(t, q, p);
        assert false;
      }
    }
  }

  lemma PushedSpells(t: map<Label, Kind>, ts: seq<Block>, m: map<Str, int>, q: Label, n: nat, p: Label)
    requires Represents(t, ts, m) && LeafOk(t, ts, q) && !EndsInNul(q)
    requires n <= |ts[t[q].tail - 1].suffix.value| && LeafOk(t, ts, p)
    ensures var b := t[q].tail - 1; var sfx := ts[b].suffix.value + [0];
            var t', ts' := Chained(t, q, sfx[..n + 1], t[q]), ts[b := ts[b].(suffix := Some(Rest(sfx[n..])))];
            var p' := if p == q then q + sfx[..n + 1] else p;
            Spells(t', ts', p', Full(t, ts, p)) && t'[p'] == t[p]
  {
    var b := t[q].tail - 1;
    var sfx := ts[b].suffix.value + [0];
    var t', ts' := Chained(t, q, sfx[..n + 1], t[q]), ts[b := ts[b].(suffix := Some(Rest(sfx[n..])))];
    if p == q {
      ChainedAt(t, q, sfx[..n + 1], t[q], q + sfx[..n + 1]);
      PushedSelf(t', ts, q, n, t[q]);
    } else {
      PushedKept(t, ts, m, q, sfx[..n + 1], Some(Rest(sfx[n..])), p);
      KeptSpells(t, ts, t', ts', p);
    }
  }

  lemma PushedKept(t: map<Label, Kind>, ts: seq<Block>, m: map<Str, int>, q: Label, w: seq<int>, suffix: Suffix,
                   p: Label)
    requires Represents(t, ts, m) && LeafOk(t, ts, q) && LeafOk(t, ts, p) && p != q
    ensures Kept(t, ts, Chained(t, q, w, t[q]), ts[t[q].tail - 1 := ts[t[q].tail - 1].(suffix := suffix)], p)
  {
    ChainedAt(t, q, w, t[q], p);
    assert OwnTail(t, p, q);
    if q <= p {
      ProperPrefixBranches(t, q, p);
      assert false;
    }
  }

  lemma PushedSelf(t': map<Label, Kind>, ts: seq<Block>, q: Label, n: nat, k: Kind)
    requires k.Separate? && InUse(ts, k.tail - 1) && ts[k.tail - 1].suffix.Some?
    requires SuffixSyntax(ts[k.tail - 1].suffix.value)
    requires n <= |ts[k.tail - 1].suffix.value|
    requires var l := q + (ts[k.tail - 1].suffix.value + [0])[..n + 1]; l in t' && t'[l] == k
    ensures var b := k.tail - 1; var sfx := ts[b].suffix.value + [0];
            Spells(t', ts[b := ts[b].(suffix := Some(Rest(sfx[n..])))], q + sfx[..n + 1], q + sfx)
    ensures q + (ts[k.tail - 1].suffix.value + [0]) == q + ts[k.tail - 1].suffix.value + [0]
  {
    var b := k.tail - 1;
    var sfx := ts[b].suffix.value + [0];
    var l := q + sfx[..n + 1];
    assert l[|l| - 1] == sfx[n];
    if n == |sfx| - 1 {
      assert sfx[..n + 1] == sfx && sfx[n..] == [0];
    } else {
      var r := sfx[n..];
      assert r[1..|r| - 1] == ts[b].suffix.value[n + 1..];
      assert q + sfx == l + r[1..|r| - 1] + [0];
    }
  }

  lemma PushedLeaf(t: map<Label, Kind>, ts: seq<Block>, m: map<Str, int>, q: Label, n: nat, p: Label)
    requires Represents(t, ts, m) && LeafOk(t, ts, q) && !EndsInNul(q)
    requires n <= |ts[t[q].tail - 1].suffix.value|
    ensures var b := t[q].tail - 1; var sfx := ts[b].suffix.value + [0];
            LeafSide(Chained(t, q, sfx[..n + 1], t[q]), ts[b := ts[b].(suffix := Some(Rest(sfx[n..])))], m, p)
  {
    var b := t[q].tail - 1;
    var sfx := ts[b].suffix.value + [0];
    var w := sfx[..n + 1];
    var t', ts' := Chained(t, q, w, t[q]), ts[b := ts[b].(suffix := Some(Rest(sfx[n..])))];
    if p in t' && t'[p].Separate? {
      var o := if p == q + w then q else p;
      ChainedAt(t, q, w, t[q], p);
      LeafFacts(t, ts, m, o);
      PushedSpells(t, ts, m, q, n, o);
      PushedOwns(t, ts, m, q, w, p);
      LeafMoved(t, ts, m, o, t', ts', p);
    }
  }

  /** A leaf found again elsewhere with the same key and the same block. */
  lemma LeafMoved(t: map<Label, Kind>, ts: seq<Block>, m: map<Str, int>, o: Label,
                  t': map<Label, Kind>, ts': seq<Block>, p: Label)
    requires LeafSide(t, ts, m, o) && LeafOk(t, ts, o) && Spells(t', ts', p, Full(t, ts, o))
    requires t'[p] == t[o] && ts'[t[o].tail - 1].data == ts[t[o].tail - 1].data
    requires forall p' {:trigger OwnTail(t', p, p')} :: OwnTail(t', p, p')
    ensures LeafSide(t', ts', m, p)
  {
  }

  lemma PushedOwns(t: map<Label, Kind>, ts: seq<Block>, m: map<Str, int>, q: Label, w: seq<int>, p: Label)
    requires Represents(t, ts, m) && q in t && t[q].Separate?
    ensures var t' := Chained(t, q, w, t[q]); forall p' {:trigger OwnTail(t', p, p')} :: OwnTail(t', p, p')
  {
    var t' := Chained(t, q, w, t[q]);
    forall p' {:trigger OwnTail(t', p, p')} ensures OwnTail(t', p, p') {
      assert OwnTail(t, if p == q + w then q else p, if p' == q + w then q else p');
      PushedOwn(t, q, w, t[q], p, p');
    }
  }

  /** The chain moves a separate node, the tail it owns goes along. */
  lemma PushedOwn(t: map<Label, Kind>, q: Label, w: seq<int>, k: Kind, p: Label, p': Label)
    requires q in t && t[q].Separate? && k == t[q]
    requires OwnTail(t, if p == q + w then q else p, if p' == q + w then q else p')
    ensures OwnTail(Chained(t, q, w, k), p, p')
  {
    ChainedAt(t, q, w, k, p);
    ChainedAt(t, q, w, k, p');
  }

  // ---------------------------------------------------------------- undoing a split

  /** Pruning a chain cannot stop in the middle: nothing else hangs off it. */
  lemma ChainPrunes(t: map<Label, Kind>, q: Label, w: seq<int>, k: Kind, stop: Label, c: int)
    requires Shape(t) && q in t && t[q].Separate? && q < stop <= q + w
    ensures stop + [c] !in Pruned(Chained(t, q, w, k), stop, q + w)
  {
    var p := stop + [c];
    ChainedAt(t, q, w, k, p);
    if p in Chained(t, q, w, k) {
      if !(p <= q + w) {
        ProperPrefixBranches(t, q, p);
        assert false;
      }
      assert stop < p;
    }
  }

  lemma LeafStaysChildless(t: map<Label, Kind>, q: Label, w: seq<int>, k: Kind, c: int)
    requires Shape(t) && q in t && t[q].Separate?
    ensures q + [c] !in Pruned(Chained(t, q, w, k), q, q + w)
  {
    ChainedAt(t, q, w, k, q + [c]);
    if q + [c] in t {
      ProperPrefixBranches(t, q, q + [c]);
      assert false;
    }
  }

  /** Chain off, base of q back: the tree is the one before. */
  lemma ChainUndone(t: map<Label, Kind>, q: Label, w: seq<int>, k: Kind)
    requires Shape(t) && q in t && t[q].Separate?
    ensures Pruned(Chained(t, q, w, k), q, q + w)[q := t[q]] == t
  {
    var u := Pruned(Chained(t, q, w, k), q, q + w)[q := t[q]];
    forall p {:trigger p in u} {:trigger p in t} ensures p in u <==> p in t
    {
      ChainedAt(t, q, w, k, p);
      if p in t && q < p {
        ProperPrefixBranches(t, q, p);
        assert false;
      }
    }
    forall p {:trigger u[p]} | p in t ensures u[p] == t[p] {
      ChainedAt(t, q, w, k, p);
      if p != q && q <= p {
        assert q < p;
        ProperPrefixBranches(t, q, p);
        assert false;
      }
    }
  }

  // ---------------------------------------------------------------- deletion

  /** Freeing the block of p and pruning p off removes exactly the key p stood for. */
  lemma KeyDeleted(t: map<Label, Kind>, ts: seq<Block>, m: map<Str, int>, p: Label, x: Str, stop: Label,
                   t': map<Label, Kind>, ts': seq<Block>)
    requires Represents(t, ts, m) && Spells(t, ts, p, x)
    requires t' == Pruned(t[p := Dangling], stop, p) && stop < p && Shape(t')
    requires BlockFreed(ts, ts', t[p].tail)
    ensures Represents(t', ts', m - {x})
  {
    forall q {:trigger NodeOk(t', q)} ensures NodeOk(t', q) {
      LeafFacts(t, ts, m, q);
    }
    forall q {:trigger LeafSide(t', ts', m - {x}, q)} ensures LeafSide(t', ts', m - {x}, q) {
      OtherLeafKept(t, ts, m, p, x, stop, t', ts', q);
    }
    forall y {:trigger MapSide(t', ts', y)} | y in m - {x} ensures MapSide(t', ts', y) {
      var q := MapFacts(t, ts, m, y);
      OtherKeyKept(t, ts, m, p, x, stop, t', ts', q, y);
    }
    forall b {:trigger Owned(t', ts', b)} ensures Owned(t', ts', b) {
      if InUse(ts', b) {
        OtherBlockOwned(t, ts, m, p, x, stop, t', ts', b);
      }
    }
    Assemble(t', ts', m - {x});
  }

  lemma OtherKeyKept(t: map<Label, Kind>, ts: seq<Block>, m: map<Str, int>, p: Label, x: Str, stop: Label,
                     t': map<Label, Kind>, ts': seq<Block>, q: Label, y: Str)
    requires Represents(t, ts, m) && Spells(t, ts, p, x)
    requires t' == Pruned(t[p := Dangling], stop, p) && stop < p
    requires BlockFreed(ts, ts', t[p].tail)
    requires Spells(t, ts, q, y) && y != x
    ensures Spells(t', ts', q, y) && t'[q] == t[q] && ts'[t[q].tail - 1].data == ts[t[q].tail - 1].data
  {
    assert OwnTail(t, q, p);
    assert q != p;
    if stop < q <= p {
      ProperPrefixBranches(t, q, p);
      assert false;
    }
  }

  lemma OtherBlockOwned(t: map<Label, Kind>, ts: seq<Block>, m: map<Str, int>, p: Label, x: Str, stop: Label,
                        t': map<Label, Kind>, ts': seq<Block>, b: int)
    requires Represents(t, ts, m) && Spells(t, ts, p, x)
    requires t' == Pruned(t[p := Dangling], stop, p) && stop < p
    requires BlockFreed(ts, ts', t[p].tail) && InUse(ts', b)
    ensures Owned(t', ts', b)
  {
    var q := Owner(t, ts, m, b);
    if Full(t, ts, q) == x {
      SpelledOnce(t, ts, p, q, x);
      assert false;
    }
    OtherKeyKept(t, ts, m, p, x, stop, t', ts', q, Full(t, ts, q));
    assert Owns(t', ts', q, b);
  }

  lemma OtherLeafKept(t: map<Label, Kind>, ts: seq<Block>, m: map<Str, int>, p: Label, x: Str, stop: Label,
                      t': map<Label, Kind>, ts': seq<Block>, q: Label)
    requires Represents(t, ts, m) && Spells(t, ts, p, x)
    requires t' == Pruned(t[p := Dangling], stop, p) && stop < p
    requires BlockFreed(ts, ts', t[p].tail)
    ensures LeafSide(t', ts', m - {x}, q)
  {
    if q in t' && t'[q].Separate? {
      LeafFacts(t, ts, m, q);
      if Full(t, ts, q) == x {
        SpelledOnce(t, ts, p, q, x);
        assert false;
      }
      OtherKeyKept(t, ts, m, p, x, stop, t', ts', q, Full(t, ts, q));
      forall q' {:trigger OwnTail(t', q, q')} ensures OwnTail(t', q, q') {
        assert OwnTail(t, q, q');
      }
    }
  }
}