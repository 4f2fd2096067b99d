/** The trie of src/trie.c: a finite map from strings to 32-bit data kept in a double array
    and a tail table. */
module TrieMap {
  import opened DoubleArray
  import opened Tails
  import opened TrieTheory
  import opened TailReach

  // ---------------------------------------------------------------- the alphabet

  /** The value a signed 8-bit char takes when v is assigned to it. */
  function Char8(v: int): int { (v + 0x80) % 0x100 - 0x80 }

  function CharToTrie(c: int): int { if c != 0 then Char8(c - 0x20 + 1) else 0 }

  function TrieToChar(c: int): int { if c == 0 then 0 else Char8(c - 1 + 0x20) }

  /** The maps between characters and trie symbols undo each other except at 0x1f, which
      collides with the terminator. */
  lemma AlphabetRoundTrip(c: int)
    requires -0x80 <= c < 0x80
    ensures TrieToChar(CharToTrie(c)) == c <==> c != 0x1f
    ensures 0x20 <= c < 0x80 ==> CharToTrie(c) == c - 0x1f
  {
  }

  /** A C string without its NUL. */
  type Key = seq<int>

  /** The keys the trie is for: bytes 0x20 to 0x7f. */
  predicate ValidKey(key: Key) {
    forall i :: 0 <= i < |key| ==> 0x20 <= key[i] <= 0x7f
  }

  function Encode(key: Key): (x: Str)
    ensures |x| == |key| + 1
  {
    seq(|key|, i requires 0 <= i < |key| => CharToTrie(key[i])) + [0]
  }

  function Decode(x: Str): Key {
    if x == [] then [] else seq(|x| - 1, i requires 0 <= i < |x| - 1 => TrieToChar(x[i]))
  }

  ghost predicate KeyStr(x: Str) {
    && Terminated(x)
    && forall i :: 0 <= i < |x| - 1 ==> x[i] <= 0x60
  }

  lemma EncodeDecode(key: Key)
    requires ValidKey(key)
    ensures KeyStr(Encode(key)) && Decode(Encode(key)) == key
  {
  }

  lemma DecodeEncode(x: Str)
    requires KeyStr(x)
    ensures ValidKey(Decode(x)) && Encode(Decode(x)) == x
  {
  }

  ghost function KeyMap(strs: map<Str, int>): map<Key, int>
    requires forall x :: x in strs ==> KeyStr(x)
  {
    map k | k in (set x | x in strs :: Decode(x)) ::
          assert KeyStr(Encode(k)) && Encode(k) in strs by { Decoded(strs, k); } strs[Encode(k)]
  }

  lemma Decoded(strs: map<Str, int>, k: Key)
    requires forall x :: x in strs ==> KeyStr(x)
    requires k in (set x | x in strs :: Decode(x))
    ensures ValidKey(k) && KeyStr(Encode(k)) && Encode(k) in strs
  {
    var x :| x in strs && Decode(x) == k;
    DecodeEncode(x);
  }

  lemma KeyMapAt(strs: map<Str, int>, k: Key)
    requires forall x :: x in strs ==> KeyStr(x)
    ensures k in KeyMap(strs) <==> ValidKey(k) && Encode(k) in strs
    ensures k in KeyMap(strs) ==> KeyMap(strs)[k] == strs[Encode(k)]
  {
    if ValidKey(k) && Encode(k) in strs {
      EncodeDecode(k);
      assert k in (set x | x in strs :: Decode(x));
    }
    if k in KeyMap(strs) {
      Decoded(strs, k);
    }
  }

  /** No other key of m shares more than 0x8000 symbols with this one; a key of at most 0x8000
      symbols never does. */
  ghost predicate InReach(m: map<Key, int>, key: Key) {
    |key| > REACH ==> forall k {:trigger k in m} :: k in m && |k| > REACH ==> k[..REACH + 1] != key[..REACH + 1]
  }

  lemma InReachIsClear(strs: map<Str, int>, key: Key)
    requires (forall x :: x in strs ==> KeyStr(x)) && ValidKey(key) && InReach(KeyMap(strs), key)
    ensures Clear(strs, Encode(key))
  {
    var x := Encode(key);
    forall z {:trigger z in strs} | z in strs ensures !SharesLongPrefix(z, x) {
      var k := Decode(z);
      DecodeEncode(z);
      KeyMapAt(strs, k);
      if SharesLongPrefix(z, x) {
        SamePrefix(k, key);
        assert false;
      }
    }
  }

  lemma SamePrefix(k: Key, key: Key)
    requires ValidKey(k) && ValidKey(key) && SharesLongPrefix(Encode(k), Encode(key))
    ensures k[..REACH + 1] == key[..REACH + 1]
  {
    forall i | 0 <= i < REACH + 1 ensures k[i] == key[i] {
      assert Encode(k)[..REACH + 1][i] == Encode(key)[..REACH + 1][i];
    }
  }

  // ---------------------------------------------------------------- the trie

  /** What comparing a key with a tail comes to. */
  datatype Match = Same | Differs | Outside

  /** An answer, or a read outside of a suffix that leaves the rest undefined. */
  datatype Answer<+T> = Done(value: T) | Overrun

  /** A trie's state with the ghosts that explain it. */
  datatype State = State(cells: seq<Cell>, path: map<int, Label>, node: map<Label, int>,
                         tails: seq<Block>, firstFree: int, chain: seq<int>, strs: map<Str, int>)

  ghost predicate SoundState(st: State) {
    && Inv(st.cells, st.path, st.node)
    && ChainOk(st.tails, st.firstFree, st.chain) && FreedBlank(st.tails)
    && Represents(Tree(st.cells, st.path, st.node), st.tails, st.strs)
    && forall x {:trigger x in st.strs} :: x in st.strs ==> KeyStr(x)
  }

  class Trie {
    const da: DArray
    const tail: Tail
    var dirty: bool
    ghost var strs: map<Str, int>

    ghost predicate Valid()
      reads this, da, tail
    {
      && da.Valid() && tail.Valid()
      && Represents(da.Contents(), tail.tails, strs)
      && forall x {:trigger x in strs} :: x in strs ==> KeyStr(x)
    }

    /** The finite map the trie stands for. */
    ghost function Contents(): map<Key, int>
      requires Valid()
      reads this, da, tail
    {
      KeyMap(strs)
    }

    constructor ()
      ensures Valid() && fresh(da) && fresh(tail) && Contents() == map[]
      ensures |da.cells| == POOL_BEGIN && tail.tails == []
      ensures forall key {:trigger NewHead(key)} :: NewHead(key)
      ensures dirty
    {
      da := new DArray();
      tail := new Tail();
      dirty := true;
      strs := map[];
      new;
      TreeShape(da.cells, da.path, da.node);
      forall p {:trigger NodeOk(da.Contents(), p)} ensures NodeOk(da.Contents(), p) {}
    }

    /** What trie_fmread makes of a double array and a tail table it has read. */
    constructor FromParts(cells: seq<Cell>, firstFree: int, tails: seq<Block>, ghost st: State)
      requires SoundState(st) && cells == st.cells && firstFree == st.firstFree && tails == st.tails
      ensures Valid() && fresh(da) && fresh(tail) && Now() == st && !dirty
    {
      da := new DArray.FromCells(cells, st.path, st.node);
      tail := new Tail.FromBlocks(tails, firstFree, st.chain);
      dirty := false;
      strs := st.strs;
    }

    ghost function Now(): State
      reads this, da, tail
    {
      State(da.cells, da.path, da.node, tail.tails, tail.firstFree, tail.chain, strs)
    }

    /** Follows the branches for x, stopping at a separate node or where no arc leads on. */
    method WalkBranches(x: Str) returns (found: bool, s: int, p: nat)
      requires Valid() && Terminated(x)
      ensures s in da.path && p <= |x| && da.path[s] in da.Contents()
      ensures found ==> da.Contents()[da.path[s]].Separate? && da.path[s] <= x && p == TailStart(da.path[s])
      ensures !found ==>
                p < |x| && da.path[s] == x[..p] && da.cells[s].base > 0 && da.Contents()[x[..p]] == Branch
                      && x[..p] + [x[p]] !in da.Contents()
      ensures !found ==> x !in strs
    {
      s := ROOT;
      p := 0;
      assert da.path[ROOT] == x[..0];
      while da.GetBase(s) >= 0
        invariant s in da.path && p < |x| && da.path[s] == x[..p]
        decreases |x| - p
      {
        assert NodeOk(da.Contents(), da.path[s]) && da.node[da.path[s]] == s;
        assert 0 <= x[p] < 0x80;
        var ok, next := da.Walk(s, x[p]);
        if !ok {
          FellOff(da.Contents(), tail.tails, strs, x, p);
          return false, s, p;
        }
        s := next;
        assert da.path[s] == x[..p] + [x[p]] == x[..p + 1];
        assert NodeOk(da.Contents(), da.path[s]) && da.node[da.path[s]] == s;
        if x[p] == 0 {
          return true, s, p;
        }
        p := p + 1;
      }
      assert NodeOk(da.Contents(), da.path[s]) && da.node[da.path[s]] == s;
      return true, s, p;
    }

    /** Compares the rest of x with the tail of a separate node. */
    method WalkTail(x: Str, s: int, p: nat) returns (r: Match)
      requires Valid() && Terminated(x) && s in da.path && da.path[s] in da.Contents()
      requires da.Contents()[da.path[s]].Separate? && da.path[s] <= x && p == TailStart(da.path[s])
      ensures r == Outside <==> Overruns(da.Contents(), tail.tails, x)
      ensures r != Outside ==> (r == Same <==> x in strs)
    {
      assert da.node[da.path[s]] == s;
      ReachedSeparate(da.Contents(), tail.tails, strs, x, da.path[s]);
      ReachedOverruns(da.Contents(), tail.tails, strs, x, da.path[s]);
      r := CompareTail(x, p, -da.GetBase(s));
    }

    /** The loop over tail_walk_char. */
    method CompareTail(x: Str, p: nat, t: int) returns (r: Match)
      requires Terminated(x) && p < |x| && 0 < t <= |tail.tails|
      requires tail.tails[t - 1].suffix.Some? && SuffixSyntax(tail.tails[t - 1].suffix.value)
      ensures r == Outside <==> RunsOver(x[p..], tail.tails[t - 1].suffix.value)
      ensures r == Same ==> x[p..] == tail.tails[t - 1].suffix.value + [0]
      ensures r == Differs ==> x[p..] != tail.tails[t - 1].suffix.value + [0]
    {
      ghost var sfx := tail.tails[t - 1].suffix.value;
      var i, suffixIdx := p, 0;
      while true
        invariant p <= i < |x| && i - p <= |sfx| && i - p <= REACH
        invariant suffixIdx == if i - p < REACH then i - p else -0x8000
        invariant x[p..i] == sfx[..i - p]
        decreases |x| - i
      {
        var suffix := tail.GetSuffix(t);
        if suffix.None? {
          return Differs;
        }
        if suffixIdx < 0 || suffixIdx > |suffix.value| {
          Agreed(x, p, i, sfx);
          return Outside;
        }
        var suffixChar := if suffixIdx < |suffix.value| then suffix.value[suffixIdx] else 0;
        if suffixChar != x[i] {
          PartsHere(x, p, i, sfx);
          return Differs;
        }
        if x[i] == 0 {
          EndsHere(x, p, i, sfx);
          return Same;
        }
        OneFurther(x, p, i, sfx, i - p);
        i, suffixIdx := i + 1, NextIdx(suffixIdx);
      }
    }

    /** The comparison of this key with the tail on its way runs out of the suffix. */
    ghost predicate Unreachable(key: Key)
      requires Valid()
      reads this, da, tail
    {
      Overruns(da.Contents(), tail.tails, Encode(key))
    }

    /** No key starts with the first symbol of this one. */
    ghost predicate NewHead(key: Key)
      requires da.Valid()
      reads this, da
    {
      Encode(key)[..1] !in da.Contents()
    }

    method Retrieve(key: Key) returns (r: Answer<Option<int>>)
      requires Valid() && ValidKey(key)
      ensures r.Overrun? <==> Unreachable(key)
      ensures InReach(Contents(), key) ==> r.Done?
      ensures r.Done? ==> r.value == if key in Contents() then Some(Contents()[key]) else None
    {
      KeyMapAt(strs, key);
      EncodeDecode(key);
      if InReach(Contents(), key) {
        InReachIsClear(strs, key);
        ClearInReach(da.Contents(), tail.tails, strs, Encode(key));
      }
      r := RetrieveString(Encode(key));
    }

    /** trie_retrieve once the key is in trie symbols. */
    method RetrieveString(x: Str) returns (r: Answer<Option<int>>)
      requires Valid() && KeyStr(x)
      ensures r.Overrun? <==> Overruns(da.Contents(), tail.tails, x)
      ensures r.Done? ==> r.value == if x in strs then Some(strs[x]) else None
    {
      var found, s, p := WalkBranches(x);
      if !found {
        FellOffInReach(da.Contents(), tail.tails, x, p);
        return Done(None);
      }
      var m := WalkTail(x, s, p);
      if m == Outside {
        return Overrun;
      }
      if m == Differs {
        return Done(None);
      }
      var d := Datum(x, s);
      return Done(Some(d));
    }

    /** tail_get_data of the tail that spells x. */
    method Datum(ghost x: Str, s: int) returns (d: int)
      requires Valid() && x in strs && s in da.path && da.path[s] in da.Contents()
      requires da.Contents()[da.path[s]].Separate? && da.path[s] <= x
      ensures d == strs[x]
    {
      assert da.node[da.path[s]] == s;
      ReachedSeparate(da.Contents(), tail.tails, strs, x, da.path[s]);
      d := tail.GetData(-da.GetBase(s));
    }

    /** Adds the rest y of a key below a node that has no arc for its first symbol. */
    method BranchInBranch(s: int, y: Str, d: int) returns (ok: bool)
      requires Valid() && s in da.path && da.path[s] in da.Contents() && da.Contents()[da.path[s]] == Branch
      requires y != [] && KeyStr(da.path[s] + y) && da.path[s] + [y[0]] !in da.Contents()
      modifies this`strs, this`dirty, da, tail
      ensures Valid()
      ensures ok ==> strs == old(strs)[old(da.path)[s] + y := d] && dirty
      ensures ok ==> NewLeaf(da.Contents(), tail.tails, old(da.path)[s] + [y[0]], Rest(y))
      ensures |tail.tails| <= |old(tail.tails)| + 1
      ensures old(|da.cells|) + STRIDE < INDEX_MAX ==> ok && |da.cells| <= old(|da.cells|) + STRIDE
      ensures !ok ==> strs == old(strs) && da.Contents() == old(da.Contents()) && tail.tails == old(tail.tails)
      ensures !ok ==> |da.cells| == INDEX_MAX
    {
      ghost var t0, ts0, q := da.Contents(), tail.tails, da.path[s];
      AfterArcIsRest(q, y);
      ghost var n;
      ok, n := AddLeaf(s, y[0], AfterArc(y), d);
      if ok {
        BranchStored(t0, ts0, strs, q, y, d, da.Contents(), tail.tails, n);
        LeafIsNew(t0, q, y[0], Rest(y), d, da.Contents(), tail.tails, n);
        strs := strs[q + y := d];
        dirty := true;
      }
    }

    /** A new arc from s with a tail block of its own at the end. */
    method AddLeaf(s: int, c: Sym, suffix: Str, d: int) returns (ok: bool, ghost n: int)
      requires da.Valid() && tail.Valid() && s in da.path && suffix != [] && da.path[s] + [c] !in da.Contents()
      modifies da, tail
      ensures da.Valid() && tail.Valid()
      ensures !ok ==> da.Contents() == old(da.Contents()) && tail.tails == old(tail.tails) && |da.cells| == INDEX_MAX
      ensures old(|da.cells|) + STRIDE < INDEX_MAX ==> ok && |da.cells| <= old(|da.cells|) + STRIDE
      ensures ok ==>
                BlockTaken(old(tail.tails), tail.tails, n)
                      && tail.tails[n - 1] == Block(ALLOCATED, d, Some(suffix[..|suffix| - 1]))
      ensures ok ==>
                da.Contents() == old(da.Contents())[old(da.path)[s] := Branch][old(da.path)[s] + [c] := Separate(n)]
    {
      ghost var t0, q := da.Contents(), da.path[s];
      var newDa := da.InsertBranch(s, c);
      if newDa == INDEX_ERROR {
        return false, 0;
      }
      ghost var k := Separate(-da.cells[newDa].base);
      assert da.path[newDa] == q + [c] && da.Contents() == t0[q := Branch][q + [c] := k];
      n := FillLeaf(newDa, suffix, d);
      Overwritten(t0[q := Branch], q + [c], k, Separate(n));
      return true, n;
    }

    /** Gives a fresh node a tail block of its own. */
    method FillLeaf(node: int, suffix: Str, d: int) returns (n: int)
      requires da.Valid() && tail.Valid() && node in da.path && da.cells[node].base < 0 && suffix != []
      modifies da`cells, tail
      ensures da.Valid() && tail.Valid() && |da.cells| == |old(da.cells)|
      ensures BlockTaken(old(tail.tails), tail.tails, n)
      ensures tail.tails[n - 1] == Block(ALLOCATED, d, Some(suffix[..|suffix| - 1]))
      ensures da.Contents() == old(da.Contents())[da.path[node] := Separate(n)]
    {
      n := AddTail(suffix, d);
      assert da.Valid();
      SetTailIndex(node, n);
    }

    /** One step of turning the tail of a separate node into branches. */
    method StretchChain(ghost t0: map<Label, Kind>, ghost q: Label, ghost w: seq<int>, sep: int, s: int, c: Sym)
      returns (next: int)
      requires da.Valid() && Shape(t0) && q in t0 && t0[q].Separate?
      requires OnChain(da.path, da.Contents(), t0, q, w, sep, s)
      modifies da
      ensures da.Valid()
      ensures old(|da.cells|) + STRIDE < INDEX_MAX ==> next != INDEX_ERROR && |da.cells| <= old(|da.cells|) + STRIDE
      ensures next == INDEX_ERROR ==> OnChain(da.path, da.Contents(), t0, q, w, sep, s) && |da.cells| == INDEX_MAX
      ensures next != INDEX_ERROR ==> OnChain(da.path, da.Contents(), t0, q, w + [c], sep, next)
      ensures next != INDEX_ERROR ==> s in da.path && da.path[s] == q + w
    {
      ghost var k: Kind :| k.Separate? && da.Contents() == Chained(t0, q, w, k);
      assert da.node[da.path[s]] == s;
      ChainedAt(t0, q, w, k, q + w);
      NotAChild(da.cells, da.path, da.node, sep, s);
      SeparateIsLeaf(da.cells, da.path, da.node, s, c);
      next := da.InsertBranch(s, c);
      if next != INDEX_ERROR {
        ghost var k' := Separate(-da.cells[next].base);
        ChainedStep(t0, q, w, c, k, k');
        assert da.Contents() == Chained(t0, q, w + [c], k');
        assert q + w + [c] == q + (w + [c]);
      }
    }

    /** The undo path of trie_branch_in_tail: the chain goes, the old tail index comes back. */
    method UndoChain(ghost t0: map<Label, Kind>, ghost q: Label, ghost w: seq<int>, sep: int, s: int, oldTail: int)
      requires da.Valid() && Shape(t0) && q in t0 && t0[q] == Separate(oldTail) && oldTail > 0
      requires OnChain(da.path, da.Contents(), t0, q, w, sep, s)
      modifies da
      ensures da.Valid() && da.Contents() == t0 && |da.cells| == |old(da.cells)|
    {
      ghost var k := PruneChain(t0, q, w, sep, s);
      ghost var t1 := da.Contents();
      forall c: int {:trigger q + [c]} ensures q + [c] !in da.node {
        LeafStaysChildless(t0, q, w, k, c);
        assert q + [c] !in t1;
      }
      ChildlessByLabels(da.cells, da.path, da.node, sep);
      da.SetLeaf(sep, -oldTail);
      ChainUndone(t0, q, w, k);
    }

    method PruneChain(ghost t0: map<Label, Kind>, ghost q: Label, ghost w: seq<int>, sep: int, s: int)
      returns (ghost k: Kind)
      requires da.Valid() && Shape(t0) && q in t0 && t0[q].Separate?
      requires OnChain(da.path, da.Contents(), t0, q, w, sep, s)
      modifies da
      ensures da.Valid() && da.Contents() == Pruned(Chained(t0, q, w, k), q, q + w)
      ensures |da.cells| == |old(da.cells)| && sep in da.path && da.path[sep] == q
    {
      k :| k.Separate? && da.Contents() == Chained(t0, q, w, k);
      assert q <= q + w;
      ghost var stop := da.PruneUpto(sep, s);
      if stop != q {
        ghost var n :| n in da.path && da.cells[n].check in da.path && da.path[da.cells[n].check] == stop;
        ghost var c := ChildLabel(da.cells, da.path, da.node, n);
        assert stop + [c] in da.Contents();
        ChainPrunes(t0, q, w, k, stop, c);
        assert false;
      }
    }

    /** Splits a separate node whose tail differs from the rest y of a new key: the common part
        becomes branches, then both rests go to tails of their own. */
    method BranchInTail(sep: int, y: Str, d: int) returns (ok: bool)
      requires Valid() && sep in da.path && da.path[sep] in da.Contents() && da.Contents()[da.path[sep]].Separate?
      requires !EndsInNul(da.path[sep]) && KeyStr(da.path[sep] + y) && da.path[sep] + y !in strs
      modifies this`strs, this`dirty, da, tail
      ensures Valid()
      ensures ok ==> strs == old(strs)[old(da.path)[sep] + y := d] && dirty
      ensures |tail.tails| <= |old(tail.tails)| + 1
      ensures old(|da.cells|) + STRIDE * (|y| + 1) < INDEX_MAX ==>
                ok && |da.cells| <= old(|da.cells|) + STRIDE * (|y| + 1)
      ensures !ok ==> strs == old(strs) && |da.cells| == INDEX_MAX
    {
      ghost var q := da.path[sep];
      var s, n;
      ok, s, n := PushDown(sep, y);
      if ok {
        ghost var sfx := y[..n];
        assert y == y[..n] + y[n..];
        assert q + y == da.path[s] + y[n..];
        ok := BranchInBranch(s, y[n..], d);
      }
    }

    /** The first half: moves the old key down to its own branch below the common part. */
    method PushDown(sep: int, y: Str) returns (ok: bool, s: int, n: nat)
      requires Valid() && sep in da.path && da.path[sep] in da.Contents() && da.Contents()[da.path[sep]].Separate?
      requires !EndsInNul(da.path[sep]) && KeyStr(da.path[sep] + y) && da.path[sep] + y !in strs
      modifies da, tail
      ensures Valid()
      ensures !ok ==> da.Contents() == old(da.Contents()) && tail.tails == old(tail.tails) && |da.cells| == INDEX_MAX
      ensures old(|da.cells|) + STRIDE * |y| < INDEX_MAX ==> ok && |da.cells| <= old(|da.cells|) + STRIDE * |y|
      ensures ok ==> n < |y| && s in da.path && da.path[s] == old(da.path)[sep] + y[..n]
      ensures |tail.tails| == |old(tail.tails)|
      ensures ok ==>
                da.path[s] in da.Contents() && da.Contents()[da.path[s]] == Branch
                      && da.path[s] + [y[n]] !in da.Contents()
    {
      ghost var q, t0, ts0 := da.path[sep], da.Contents(), tail.tails;
      assert da.node[q] == sep;
      LeafFacts(t0, ts0, strs, q);
      var oldTail := -da.GetBase(sep);
      var oldSuffix := tail.GetSuffix(oldTail);
      if oldSuffix.None? {
        assert false;
      }
      var sfx := oldSuffix.value + [0];
      SuffixesDiffer(t0, ts0, strs, q, y);
      ok, s, n := SplitTail(sep, sfx, y, oldTail);
      if ok {
        PushedDown(t0, ts0, strs, q, n);
        SplitPoint(t0, q, sfx, n, y[n], t0[q]);
      }
    }

    /** The same on the cells and blocks alone. */
    method SplitTail(sep: int, sfx: Str, y: Str, oldTail: int) returns (ok: bool, s: int, n: nat)
      requires da.Valid() && tail.Valid() && sep in da.path && da.path[sep] in da.Contents()
      requires da.Contents()[da.path[sep]] == Separate(oldTail) && InUse(tail.tails, oldTail - 1) && Parts(sfx, y)
      modifies da, tail
      ensures da.Valid() && tail.Valid()
      ensures !ok ==> da.Contents() == old(da.Contents()) && tail.tails == old(tail.tails) && |da.cells| == INDEX_MAX
      ensures old(|da.cells|) + STRIDE * |y| < INDEX_MAX ==> ok && |da.cells| <= old(|da.cells|) + STRIDE * |y|
      ensures ok ==> n < |sfx| && n < |y| && sfx[..n] == y[..n] && sfx[n] != y[n]
      ensures ok ==> s in da.path && da.path[s] == old(da.path)[sep] + sfx[..n]
      ensures ok ==> da.Contents() == Chained(old(da.Contents()), old(da.path)[sep], sfx[..n + 1], Separate(oldTail))
      ensures ok ==>
                tail.tails == old(tail.tails)[oldTail - 1 :=
                  old(tail.tails)[oldTail - 1].(suffix := Some(Rest(sfx[n..])))]
    {
      ghost var q, t0 := da.path[sep], da.Contents();
      TreeShape(da.cells, da.path, da.node);
      var bad;
      bad, s, n := FollowSuffix(sep, sfx, y);
      if bad {
        UndoChain(t0, q, sfx[..n], sep, s, oldTail);
        return false, s, n;
      }
      ok := MoveOldKey(t0, q, sep, sfx, s, n, oldTail);
      if !ok {
        UndoChain(t0, q, sfx[..n], sep, s, oldTail);
      }
    }

    /** A branch of its own for the old key, with what is left of its suffix. */
    method MoveOldKey(ghost t0: map<Label, Kind>, ghost q: Label, sep: int, sfx: Str, s: int, n: nat, oldTail: int)
      returns (ok: bool)
      requires da.Valid() && tail.Valid() && Shape(t0) && q in t0 && t0[q] == Separate(oldTail)
      requires InUse(tail.tails, oldTail - 1)
      requires n < |sfx| && OnChain(da.path, da.Contents(), t0, q, sfx[..n], sep, s) && 0 <= sfx[n] < 0x80
      modifies da, tail
      ensures da.Valid() && tail.Valid()
      ensures !ok ==> OnChain(da.path, da.Contents(), t0, q, sfx[..n], sep, s) && tail.tails == old(tail.tails)
      ensures !ok ==> |da.cells| == INDEX_MAX
      ensures old(|da.cells|) + STRIDE < INDEX_MAX ==> ok && |da.cells| <= old(|da.cells|) + STRIDE
      ensures ok ==>
                s in da.path && da.path[s] == q + sfx[..n]
                      && da.Contents() == Chained(t0, q, sfx[..n + 1], Separate(oldTail))
      ensures ok ==>
                tail.tails == old(tail.tails)[oldTail - 1 :=
                  old(tail.tails)[oldTail - 1].(suffix := Some(Rest(sfx[n..])))]
    {
      var oldDa := StretchChain(t0, q, sfx[..n], sep, s, sfx[n]);
      if oldDa == INDEX_ERROR {
        return false;
      }
      assert sfx[..n] + [sfx[n]] == sfx[..n + 1];
      tail.SetSuffix(oldTail, Some(Rest(sfx[n..])));
      RetargetLeaf(t0, q, sfx[..n + 1], sep, oldDa, oldTail);
      return true;
    }

    method StoreMaybe(key: Key, d: int, overwrite: bool) returns (r: Answer<bool>)
      requires Valid() && ValidKey(key)
      modifies this`strs, this`dirty, da, tail
      ensures Valid()
      ensures r.Overrun? <==> old(Unreachable(key))
      ensures old(InReach(Contents(), key)) ==> r.Done?
      ensures Contents() == if r == Done(true) then old(Contents())[key := d] else old(Contents())
      ensures r == Done(true) ==> dirty
      ensures |tail.tails| <= |old(tail.tails)| + 1
      ensures old(|da.cells|) + STRIDE * (|key| + 2) < INDEX_MAX ==>
                |da.cells| <= old(|da.cells|) + STRIDE * (|key| + 2)
      ensures r.Done? && old(key in Contents()) ==> r.value == overwrite
      ensures r == Done(false) ==> (old(key in Contents()) && !overwrite) || |da.cells| == INDEX_MAX
      ensures r == Done(true) && old(NewHead(key)) ==> (Unreachable(key) <==> |key| > REACH)
    {
      KeyMapAt(strs, key);
      EncodeDecode(key);
      if InReach(Contents(), key) {
        InReachIsClear(strs, key);
        ClearInReach(da.Contents(), tail.tails, strs, Encode(key));
      }
      r := StoreString(Encode(key), d, overwrite);
      StoredKey(old(strs), strs, key, d, r == Done(true));
    }

    /** trie_store_maybe once the key is in trie symbols. */
    method StoreString(x: Str, d: int, overwrite: bool) returns (r: Answer<bool>)
      requires Valid() && KeyStr(x)
      modifies this`strs, this`dirty, da, tail
      ensures Valid()
      ensures r.Overrun? <==> old(Overruns(da.Contents(), tail.tails, x))
      ensures strs == if r == Done(true) then old(strs)[x := d] else old(strs)
      ensures |tail.tails| <= |old(tail.tails)| + 1
      ensures r.Done? && old(|da.cells|) + STRIDE * (|x| + 1) < INDEX_MAX ==>
                (r.value <==> x !in old(strs) || overwrite)
      ensures old(|da.cells|) + STRIDE * (|x| + 1) < INDEX_MAX ==> |da.cells| <= old(|da.cells|) + STRIDE * (|x| + 1)
      ensures r == Done(true) ==> dirty
      ensures r.Done? && x in old(strs) ==> r.value == overwrite
      ensures r == Done(false) ==> (x in old(strs) && !overwrite) || |da.cells| == INDEX_MAX
      ensures r == Done(true) && old(x[..1] !in da.Contents()) ==>
                (Overruns(da.Contents(), tail.tails, x) <==> |x| > REACH + 1)
    {
      var found, s, p := WalkBranches(x);
      if !found {
        FellOffInReach(da.Contents(), tail.tails, x, p);
        var ok := StoreBelow(x, s, p, d);
        return Done(ok);
      }
      HeadOnTheWay(da.Contents(), da.path[s], x);
      r := StoreAt(x, s, p, d, overwrite);
    }

    /** The key leaves the branches at s. */
    method StoreBelow(x: Str, s: int, p: nat, d: int) returns (ok: bool)
      requires Valid() && KeyStr(x) && s in da.path && p < |x| && da.path[s] == x[..p]
      requires x[..p] in da.Contents() && da.Contents()[x[..p]] == Branch && x[..p] + [x[p]] !in da.Contents()
      modifies this`strs, this`dirty, da, tail
      ensures Valid()
      ensures strs == if ok then old(strs)[x := d] else old(strs)
      ensures |tail.tails| <= |old(tail.tails)| + 1
      ensures old(|da.cells|) + STRIDE < INDEX_MAX ==> ok && |da.cells| <= old(|da.cells|) + STRIDE
      ensures ok ==> dirty
      ensures !ok ==> |da.cells| == INDEX_MAX
      ensures ok && old(x[..1] !in da.Contents()) ==> (Overruns(da.Contents(), tail.tails, x) <==> |x| > REACH + 1)
    {
      assert x == x[..p] + x[p..];
      HeadBranches(da.Contents(), x, p);
      ok := BranchInBranch(s, x[p..], d);
      if ok && p == 0 {
        FreshHead(da.Contents(), tail.tails, strs, x);
      }
    }

    /** The key leads to the separate node s. */
    method StoreAt(x: Str, s: int, p: nat, d: int, overwrite: bool) returns (r: Answer<bool>)
      requires Valid() && KeyStr(x) && s in da.path && da.path[s] in da.Contents()
      requires da.Contents()[da.path[s]].Separate? && da.path[s] <= x && p == TailStart(da.path[s])
      modifies this`strs, this`dirty, da, tail
      ensures Valid()
      ensures r.Overrun? <==> old(Overruns(da.Contents(), tail.tails, x))
      ensures strs == if r == Done(true) then old(strs)[x := d] else old(strs)
      ensures |tail.tails| <= |old(tail.tails)| + 1
      ensures r.Done? && old(|da.cells|) + STRIDE * (|x| + 1) < INDEX_MAX ==>
                (r.value <==> x !in old(strs) || overwrite)
      ensures old(|da.cells|) + STRIDE * (|x| + 1) < INDEX_MAX ==> |da.cells| <= old(|da.cells|) + STRIDE * (|x| + 1)
      ensures r == Done(true) ==> dirty
      ensures r.Done? && x in old(strs) ==> r.value == overwrite
      ensures r == Done(false) ==> (x in old(strs) && !overwrite) || |da.cells| == INDEX_MAX
    {
      var m := WalkTail(x, s, p);
      if m == Outside {
        return Overrun;
      }
      ghost var q := da.path[s];
      assert da.node[q] == s;
      ReachedSeparate(da.Contents(), tail.tails, strs, x, q);
      NulTailMatches(da.Contents(), tail.tails, q, x);
      if m == Differs {
        assert x == q + x[p..];
        var ok := BranchInTail(s, x[p..], d);
        return Done(ok);
      }
      if !overwrite {
        return Done(false);
      }
      Overwrite(s, x, d);
      return Done(true);
    }

    /** A stored key gets a new datum. */
    method Overwrite(s: int, ghost x: Str, d: int)
      requires Valid() && s in da.path && Spells(da.Contents(), tail.tails, da.path[s], x)
      modifies this`strs, this`dirty, tail
      ensures Valid() && strs == old(strs)[x := d] && dirty && |tail.tails| == |old(tail.tails)|
    {
      assert da.node[da.path[s]] == s;
      LeafFacts(da.Contents(), tail.tails, strs, da.path[s]);
      DataChanged(da.Contents(), tail.tails, strs, da.path[s], x, d);
      tail.SetData(-da.GetBase(s), d);
      strs := strs[x := d];
      dirty := true;
    }

    method Store(key: Key, d: int) returns (r: Answer<bool>)
      requires Valid() && ValidKey(key)
      modifies this`strs, this`dirty, da, tail
      ensures Valid()
      ensures r.Overrun? <==> old(Unreachable(key))
      ensures old(InReach(Contents(), key)) ==> r.Done?
      ensures Contents() == if r == Done(true) then old(Contents())[key := d] else old(Contents())
      ensures |tail.tails| <= |old(tail.tails)| + 1
      ensures old(|da.cells|) + STRIDE * (|key| + 2) < INDEX_MAX ==>
                r != Done(false) && |da.cells| <= old(|da.cells|) + STRIDE * (|key| + 2)
      ensures r == Done(false) ==> old(key !in Contents()) && |da.cells| == INDEX_MAX
      ensures r == Done(true) && old(NewHead(key)) ==> (Unreachable(key) <==> |key| > REACH)
    {
      r := StoreMaybe(key, d, true);
    }

    method StoreIfAbsent(key: Key, d: int) returns (r: Answer<bool>)
      requires Valid() && ValidKey(key)
      modifies this`strs, this`dirty, da, tail
      ensures Valid()
      ensures r.Overrun? <==> old(Unreachable(key))
      ensures old(InReach(Contents(), key)) ==> r.Done?
      ensures Contents() == if r == Done(true) then old(Contents())[key := d] else old(Contents())
      ensures r == Done(true) ==> old(key !in Contents())
      ensures r == Done(false) ==> old(key in Contents()) || |da.cells| == INDEX_MAX
    {
      r := StoreMaybe(key, d, false);
    }

    method Delete(key: Key) returns (r: Answer<bool>)
      requires Valid() && ValidKey(key)
      modifies this`strs, this`dirty, da, tail
      ensures Valid()
      ensures r.Overrun? <==> old(Unreachable(key))
      ensures old(InReach(Contents(), key)) ==> r.Done?
      ensures r.Done? ==> r.value == old(key in Contents())
      ensures Contents() == if r.Done? then old(Contents()) - {key} else old(Contents())
      ensures r == Done(true) ==> dirty
    {
      KeyMapAt(strs, key);
      EncodeDecode(key);
      DeletedKey(strs, key);
      if InReach(Contents(), key) {
        InReachIsClear(strs, key);
        ClearInReach(da.Contents(), tail.tails, strs, Encode(key));
      }
      r := DeleteString(Encode(key));
    }

    method DeleteString(x: Str) returns (r: Answer<bool>)
      requires Valid() && KeyStr(x)
      modifies this`strs, this`dirty, da, tail
      ensures Valid()
      ensures r.Overrun? <==> old(Overruns(da.Contents(), tail.tails, x))
      ensures r.Done? ==> r.value == (x in old(strs))
      ensures strs == if r.Done? then old(strs) - {x} else old(strs)
      ensures r == Done(true) ==> dirty
    {
      var found, s, p := WalkBranches(x);
      if !found {
        FellOffInReach(da.Contents(), tail.tails, x, p);
        return Done(false);
      }
      var m := WalkTail(x, s, p);
      if m == Outside {
        return Overrun;
      }
      if m == Differs {
        return Done(false);
      }
      assert da.node[da.path[s]] == s;
      ReachedSeparate(da.Contents(), tail.tails, strs, x, da.path[s]);
      RemoveLeaf(s, da.path[s], x);
      dirty := true;
      return Done(true);
    }

    /** Frees the tail block of a separate node and prunes the node off. */
    method RemoveLeaf(s: int, ghost q: Label, ghost x: Str)
      requires Valid() && s in da.path && da.path[s] == q && Spells(da.Contents(), tail.tails, q, x)
      modifies this`strs, da, tail
      ensures Valid() && strs == old(strs) - {x}
    {
      ghost var t0, ts0, m0 := da.Contents(), tail.tails, strs;
      assert da.node[q] == s;
      var t := -da.GetBase(s);
      LeafFacts(t0, ts0, m0, q);
      FreeTail(t);
      ghost var stop := DropLeaf(s);
      TreeShape(da.cells, da.path, da.node);
      assert stop < q && da.Contents() == Pruned(t0[q := Dangling], stop, q);
      KeyDeleted(t0, ts0, m0, q, x, stop, da.Contents(), tail.tails);
      strs := strs - {x};
    }

    method FreeTail(t: int)
      requires tail.Valid() && InUse(tail.tails, t - 1)
      modifies tail
      ensures tail.Valid() && BlockFreed(old(tail.tails), tail.tails, t)
    {
      tail.FreeBlock(t);
    }

    method DropLeaf(s: int) returns (ghost stop: Label)
      requires da.Valid() && s in da.path && da.cells[s].base < 0 && da.path[s] != []
      modifies da
      ensures da.Valid() && stop < old(da.path)[s]
      ensures da.Contents() == Pruned(old(da.Contents())[old(da.path)[s] := Dangling], stop, old(da.path)[s])
    {
      ChildRange(da.cells, da.path, da.node, s);
      da.SetLeaf(s, INDEX_ERROR);
      stop := da.PruneUpto(ROOT, s);
    }

    /** A new tail block with the given suffix and datum. */
    method AddTail(suffix: Str, d: int) returns (newTail: int)
      requires tail.Valid() && suffix != []
      modifies tail
      ensures tail.Valid() && BlockTaken(old(tail.tails), tail.tails, newTail)
      ensures tail.tails[newTail - 1] == Block(ALLOCATED, d, Some(suffix[..|suffix| - 1]))
    {
      newTail := tail.AddSuffix(suffix[..|suffix| - 1]);
      tail.SetData(newTail, d);
    }

    /** Makes a fresh node separate. */
    method SetTailIndex(n: int, t: int)
      requires da.Valid() && n in da.path && da.cells[n].base < 0 && t > 0
      modifies da`cells
      ensures da.Valid() && da.Contents() == old(da.Contents())[da.path[n] := Separate(t)]
      ensures |da.cells| == |old(da.cells)|
    {
      ChildRange(da.cells, da.path, da.node, n);
      da.SetLeaf(n, -t);
    }

    /** The first loop of trie_branch_in_tail: one branch for each symbol the two share. */
    method FollowSuffix(sep: int, sfx: Str, y: Str) returns (bad: bool, s: int, n: nat)
      requires da.Valid() && sep in da.path && da.path[sep] in da.Contents() && da.Contents()[da.path[sep]].Separate?
      requires Parts(sfx, y)
      modifies da
      ensures da.Valid() && n < |sfx| && n < |y| && sfx[..n] == y[..n]
      ensures OnChain(da.path, da.Contents(), old(da.Contents()), old(da.path)[sep], sfx[..n], sep, s)
      ensures old(|da.cells|) + STRIDE * |y| < INDEX_MAX ==> !bad && |da.cells| <= old(|da.cells|) + STRIDE * n
      ensures bad ==> |da.cells| == INDEX_MAX
      ensures !bad ==> sfx[n] != y[n]
    {
      ghost var q, t0 := da.path[sep], da.Contents();
      TreeShape(da.cells, da.path, da.node);
      s, n, bad := sep, 0, false;
      assert Chained(t0, q, [], t0[q]) == t0 && q + [] == q && sfx[..0] == [];
      while sfx[n] == y[n]
        invariant da.Valid() && n < |sfx| && n < |y| && sfx[..n] == y[..n]
        invariant OnChain(da.path, da.Contents(), t0, q, sfx[..n], sep, s)
        invariant old(|da.cells|) + STRIDE * |y| < INDEX_MAX ==> |da.cells| <= old(|da.cells|) + STRIDE * n
        decreases |sfx| - n
      {
        assert GoOn(sfx, y, n);
        var t := StretchChain(t0, q, sfx[..n], sep, s, sfx[n]);
        if t == INDEX_ERROR {
          return true, s, n;
        }
        assert sfx[..n] + [sfx[n]] == sfx[..n + 1] && y[..n] + [y[n]] == y[..n + 1];
        s, n := t, n + 1;
      }
    }

    /** Points the end of the chain at the old tail block. */
    method RetargetLeaf(ghost t0: map<Label, Kind>, ghost q: Label, ghost w: seq<int>, sep: int, n: int, t: int)
      requires da.Valid() && Shape(t0) && q in t0 && t0[q] == Separate(t) && t > 0
      requires OnChain(da.path, da.Contents(), t0, q, w, sep, n) && w != []
      modifies da`cells
      ensures da.Valid() && da.Contents() == Chained(t0, q, w, t0[q]) && |da.cells| == |old(da.cells)|
    {
      ghost var k: Kind :| k.Separate? && da.Contents() == Chained(t0, q, w, k);
      ChainedAt(t0, q, w, k, q + w);
      assert da.node[da.path[n]] == n;
      SetTailIndex(n, t);
    }
  }

  /** A key put into an empty trie comes back if and only if it has at most 0x8000 symbols. */
  method BackFromEmpty(key: Key, d: int) returns (stored: Answer<bool>, r: Answer<Option<int>>)
    requires ValidKey(key)
    ensures POOL_BEGIN + STRIDE * (|key| + 2) < INDEX_MAX ==> stored == Done(true)
    ensures stored == Done(true) ==> r == if |key| <= REACH then Done(Some(d)) else Overrun
  {
    var t := new Trie();
    EmptyInReach(t.Contents(), key);
    stored := t.Store(key, d);
    AnswerIs(stored);
    r := t.Retrieve(key);
  }

  lemma EmptyInReach(m: map<Key, int>, key: Key)
    requires m == map[]
    ensures InReach(m, key)
  {
  }

  lemma AnswerIs(r: Answer<bool>)
    ensures r == Done(true) || r == Done(false) || r == Overrun
  {
    match r
    case Done(v) => assert r == Done(v);
    case Overrun =>
  }

  /** 32769 times the letter a: stored, and then read from outside of its suffix. */
  method LongKeyLost() returns (stored: Answer<bool>, r: Answer<Option<int>>)
    ensures stored == Done(true) && r == Overrun
  {
    var key := seq(REACH + 1, _ => 0x61);
    stored, r := BackFromEmpty(key, 1);
  }

  /** The leaf at the end of a new arc with what the arc leaves of a key. */
  ghost predicate NewLeaf(t: map<Label, Kind>, ts: seq<Block>, l: Label, rest: seq<int>) {
    l in t && t[l].Separate? && 0 < t[l].tail <= |ts| && ts[t[l].tail - 1].suffix == Some(rest)
  }

  lemma LeafIsNew(t: map<Label, Kind>, q: Label, c: int, rest: seq<int>, d: int, t': map<Label, Kind>,
                  ts': seq<Block>, n: int)
    requires t' == t[q := Branch][q + [c] := Separate(n)]
    requires 0 < n <= |ts'| && ts'[n - 1] == Block(ALLOCATED, d, Some(rest))
    ensures NewLeaf(t', ts', q + [c], rest)
  {
  }

  lemma FreshHead(t: map<Label, Kind>, ts: seq<Block>, m: map<Str, int>, x: Str)
    requires Represents(t, ts, m) && Terminated(x) && NewLeaf(t, ts, [] + [x[0]], Rest(x))
    ensures Overruns(t, ts, x) <==> |x| > REACH + 1
  {
    assert [] + [x[0]] == x[..1];
    HeadOverruns(t, ts, m, x, t[x[..1]].tail);
  }

  lemma HeadBranches(t: map<Label, Kind>, x: Str, p: nat)
    requires Shape(t) && p < |x| && x[..p] in t
    ensures x[..1] !in t ==> p == 0
  {
    if p > 1 {
      ProperPrefixBranches(t, x[..1], x[..p]);
    }
  }

  lemma HeadOnTheWay(t: map<Label, Kind>, q: Label, x: Str)
    requires Shape(t) && q in t && t[q].Separate? && t[[]] == Branch && q <= x
    ensures x[..1] in t
  {
    assert q == x[..|q|] && q != [];
    if |q| > 1 {
      ProperPrefixBranches(t, x[..1], q);
    }
  }

  lemma Agreed(x: Str, p: nat, i: nat, sfx: seq<int>)
    requires p <= i < |x| && i - p == REACH <= |sfx| && x[p..i] == sfx[..i - p]
    ensures RunsOver(x[p..], sfx)
  {
    assert x[p..][..REACH] == x[p..i];
  }

  lemma PartsHere(x: Str, p: nat, i: nat, sfx: seq<int>)
    requires p <= i < |x| && i - p < REACH && i - p <= |sfx| && x[i] != (sfx + [0])[i - p]
    requires Terminated(x) && SuffixSyntax(sfx)
    ensures x[p..] != sfx + [0] && !RunsOver(x[p..], sfx)
  {
    assert x[p..][i - p] == x[i];
    if RunsOver(x[p..], sfx) {
      PrefixAt(x[p..], sfx, REACH, i - p);
      assert false;
    }
  }

  lemma PrefixAt(a: seq<int>, b: seq<int>, n: nat, i: nat)
    requires n <= |a| && n <= |b| && a[..n] == b[..n] && i < n
    ensures a[i] == b[i]
  {
    assert a[i] == a[..n][i];
  }

  lemma EndsHere(x: Str, p: nat, i: nat, sfx: seq<int>)
    requires p <= i < |x| && i - p < REACH && i - p <= |sfx| && x[i] == (sfx + [0])[i - p] == 0
    requires Terminated(x) && SuffixSyntax(sfx) && x[p..i] == sfx[..i - p]
    ensures x[p..] == sfx + [0] && !RunsOver(x[p..], sfx)
  {
    assert i == |x| - 1 && i - p == |sfx|;
    assert x[p..] == x[p..i] + [0];
  }

  lemma Overwritten(t: map<Label, Kind>, l: Label, j: Kind, k: Kind)
    ensures t[l := j][l := k] == t[l := k]
  {
  }

  /** The C pointer past the symbol of the new arc; it does not move past the NUL. */
  function AfterArc(y: Str): Str
    requires y != []
  {
    if y[0] == 0 then y else y[1..]
  }

  lemma AfterArcIsRest(q: Label, y: Str)
    requires y != [] && KeyStr(q + y)
    ensures AfterArc(y) != [] && AfterArc(y)[..|AfterArc(y)| - 1] == Rest(y) && 0 <= y[0] < 0x80
  {
    var x := q + y;
    assert forall i :: 0 <= i < |y| ==> y[i] == x[|q| + i];
    assert y[0] == 0 <==> |y| == 1;
  }

  /** The walk along the old suffix has come to s, the end of a chain of new branches below q. */
  ghost predicate OnChain(path: map<int, Label>, t: map<Label, Kind>, t0: map<Label, Kind>, q: Label, w: seq<int>,
                          sep: int, s: int) {
    && s in path && path[s] == q + w
    && sep in path && path[sep] == q
    && exists k: Kind :: k.Separate? && t == Chained(t0, q, w, k)
  }

  lemma OneFurther(x: seq<int>, p: nat, i: nat, y: seq<int>, n: nat)
    requires p <= i < |x| && n == i - p < |y| && x[p..i] == y[..n] && x[i] == y[n]
    ensures x[p..i + 1] == y[..n + 1]
  {
    assert x[p..i + 1] == x[p..i] + [x[i]];
  }

  lemma NotAChild(cs: seq<Cell>, path: map<int, Label>, node: map<Label, int>, a: int, s: int)
    requires NodesOk(cs, path, node) && a in path && s in path && path[a] <= path[s]
    ensures cs[a].check != s
  {
    assert cs[a].check == s ==> a != ROOT && ChildOk(cs, path, a);
  }

  lemma ChildLabel(cs: seq<Cell>, path: map<int, Label>, node: map<Label, int>, n: int) returns (c: int)
    requires NodesOk(cs, path, node) && n in path && cs[n].check in path
    ensures path[n] == path[cs[n].check] + [c] && path[cs[n].check] + [c] in node
  {
    assert n != ROOT;
    assert ChildOk(cs, path, n);
    c := n - cs[cs[n].check].base;
  }

  lemma ChildlessByLabels(cs: seq<Cell>, path: map<int, Label>, node: map<Label, int>, n: int)
    requires NodesOk(cs, path, node) && n in path && forall c: int {:trigger path[n] + [c]} :: path[n] + [c] !in node
    ensures forall m {:trigger m in path} :: m in path ==> cs[m].check != n
  {
    forall m {:trigger m in path} | m in path ensures cs[m].check != n {
      if cs[m].check == n {
        var c := ChildLabel(cs, path, node, m);
        assert false;
      }
    }
  }

  /** A stored suffix and the rest of a key that is not stored part before either ends. */
  lemma SuffixesDiffer(t: map<Label, Kind>, ts: seq<Block>, m: map<Str, int>, q: Label, y: Str)
    requires Represents(t, ts, m) && LeafOk(t, ts, q) && !EndsInNul(q) && KeyStr(q + y) && q + y !in m
    ensures Parts(ts[t[q].tail - 1].suffix.value + [0], y)
  {
    var v := ts[t[q].tail - 1].suffix.value;
    assert Full(t, ts, q) == q + v + [0];
    RestEndsInNul(q, y);
    NulEnds(v);
    assert v + [0] == y ==> q + v + [0] == q + y;
    PartAtNul(v + [0], y);
  }

  /** NUL is at the end and nowhere else. */
  ghost predicate NulAtEnd(x: Str) {
    x != [] && forall j {:trigger x[j]} :: 0 <= j < |x| ==> (x[j] == 0 <==> j == |x| - 1)
  }

  lemma NulEnds(v: seq<int>)
    requires SuffixSyntax(v)
    ensures NulAtEnd(v + [0]) && AllSyms(v + [0])
  {
  }

  lemma RestEndsInNul(q: Label, y: Str)
    requires Terminated(q + y) && !EndsInNul(q)
    ensures NulAtEnd(y)
  {
    var x := q + y;
    assert y == [] ==> x == q;
    forall j {:trigger y[j]} | 0 <= j < |y| ensures y[j] == 0 <==> j == |y| - 1 {
      assert y[j] == x[|q| + j];
    }
  }

  lemma PartAtNul(x: Str, y: Str)
    requires AllSyms(x) && x != y && NulAtEnd(x) && NulAtEnd(y)
    ensures Parts(x, y)
  {
    forall i {:trigger GoOn(x, y, i)} | 0 <= i < |x| && i < |y| ensures GoOn(x, y, i) {
      if x[..i] == y[..i] && x[i] == y[i] && (i == |x| - 1 || i == |y| - 1) {
        EndTogether(x, y, i);
      }
    }
  }

  lemma EndTogether(x: Str, y: Str, i: nat)
    requires i < |x| && i < |y| && x[..i] == y[..i] && x[i] == y[i] && (i == |x| - 1 || i == |y| - 1)
    requires NulAtEnd(x) && NulAtEnd(y)
    ensures x == y
  {
    assert x == x[..i] + [x[i]] && y == y[..i] + [y[i]];
  }

  /** As long as x and y agree neither is at its end. */
  ghost predicate Parts(x: Str, y: Str) {
    && x != [] && y != [] && AllSyms(x)
    && forall i {:trigger GoOn(x, y, i)} :: 0 <= i < |x| && i < |y| ==> GoOn(x, y, i)
  }

  ghost predicate GoOn(x: Str, y: Str, i: nat)
    requires i < |x| && i < |y|
  {
    x[..i] == y[..i] && x[i] == y[i] ==> i + 1 < |x| && i + 1 < |y|
  }

  /** Where the old and the new key part there is no arc for the new one yet. */
  lemma SplitPoint(t: map<Label, Kind>, q: Label, sfx: Str, n: nat, c: int, k: Kind)
    requires Shape(t) && q in t && t[q].Separate? && n < |sfx| && sfx[n] != c
    ensures var t' := Chained(t, q, sfx[..n + 1], k);
            q + sfx[..n] in t' && t'[q + sfx[..n]] == Branch && q + sfx[..n] + [c] !in t'
  {
    var w, p := sfx[..n + 1], q + sfx[..n] + [c];
    assert q + w == q + sfx[..n] + [sfx[n]];
    assert q <= q + sfx[..n] <= q + w && q + sfx[..n] != q + w;
    assert n == 0 ==> q + sfx[..n] == q;
    ChainedAt(t, q, w, k, q + sfx[..n]);
    ChainedAt(t, q, w, k, p);
    assert q < p && p[|p| - 1] == c;
    assert (q + w)[..|p|] == q + w && (q + w)[|p| - 1] == sfx[n];
    if p in t {
      ProperPrefixBranches(t, q, p);
      assert false;
    }
  }

  /** Storing under the encoded key is storing under the key. */
  lemma StoredKey(strs0: map<Str, int>, strs: map<Str, int>, key: Key, d: int, ok: bool)
    requires ValidKey(key) && forall x :: x in strs0 ==> KeyStr(x)
    requires strs == if ok then strs0[Encode(key) := d] else strs0
    ensures forall x :: x in strs ==> KeyStr(x)
    ensures KeyMap(strs) == if ok then KeyMap(strs0)[key := d] else KeyMap(strs0)
  {
    EncodeDecode(key);
    if ok {
      var m, m' := KeyMap(strs), KeyMap(strs0)[key := d];
      forall k ensures (k in m <==> k in m') && (k in m ==> m[k] == m'[k]) {
        KeyMapAt(strs, k);
        KeyMapAt(strs0, k);
        if ValidKey(k) && k != key {
          EncodeDecode(k);
        }
      }
    }
  }

  lemma DeletedKey(strs0: map<Str, int>, key: Key)
    requires ValidKey(key) && forall x :: x in strs0 ==> KeyStr(x)
    ensures KeyMap(strs0 - {Encode(key)}) == KeyMap(strs0) - {key}
  {
    EncodeDecode(key);
    var m, m' := KeyMap(strs0 - {Encode(key)}), KeyMap(strs0) - {key};
    forall k ensures (k in m <==> k in m') && (k in m ==> m[k] == m'[k]) {
      KeyMapAt(strs0 - {Encode(key)}, k);
      KeyMapAt(strs0, k);
      if ValidKey(k) && k != key {
        EncodeDecode(k);
      }
    }
  }

  /** A separate node at the end of a key has an empty suffix, so its tail always matches. */
  lemma NulTailMatches(t: map<Label, Kind>, ts: seq<Block>, q: Label, x: Str)
    requires LeafOk(t, ts, q) && q <= x && Terminated(x)
    ensures EndsInNul(q) ==> x[TailStart(q)..] == ts[t[q].tail - 1].suffix.value + [0]
  {
    if EndsInNul(q) {
      assert q == x[..|q|] && q[|q| - 1] == x[|q| - 1];
      assert x[TailStart(q)..] == [0];
    }
  }
}