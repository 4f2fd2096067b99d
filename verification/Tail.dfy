/** The tail table of src/tail.c: one block per key holding what remains of the key after
    its branch in the double array, and a chain of freed blocks that get used again. */
module Tails {

  datatype Option<+T> = None | Some(value: T)

  const DATA_ERROR: int := -1
  const START_BLOCKNO: int := 1
  const ALLOCATED: int := -1

  /** A suffix without its terminating NUL; None is the null pointer of a fresh or freed block. */
  type Suffix = Option<seq<int>>

  datatype Block = Block(nextFree: int, data: int, suffix: Suffix)

  ghost predicate InUse(ts: seq<Block>, b: int) {
    0 <= b < |ts| && ts[b].nextFree == ALLOCATED
  }

  ghost predicate IsFreed(ts: seq<Block>, b: int) {
    0 <= b < |ts| && ts[b].nextFree != ALLOCATED
  }

  /** `chain` lists the blocks the allocator can still reach: ascending, block 0 never among
      them because 0 is also the end mark. */
  ghost predicate ChainOk(ts: seq<Block>, firstFree: int, chain: seq<int>) {
    && (forall i, j :: 0 <= i < j < |chain| ==> chain[i] < chain[j])
    && (forall i {:trigger chain[i]} :: 0 <= i < |chain| ==> 0 < chain[i] && IsFreed(ts, chain[i]))
    && firstFree == Link(chain, 0)
    && (forall i {:trigger PointsOn(ts, chain, i)} :: 0 <= i < |chain| ==> PointsOn(ts, chain, i))
  }

  /** The i-th chain element points at the one after it. */
  ghost predicate PointsOn(ts: seq<Block>, chain: seq<int>, i: nat) {
    i < |chain| && 0 <= chain[i] < |ts| && ts[chain[i]].nextFree == Link(chain, i + 1)
  }

  /** What points at the i-th chain element. */
  function Link(chain: seq<int>, i: nat): int {
    if i < |chain| then chain[i] else 0
  }

  /** Freed blocks that no later allocation will find. */
  ghost function Lost(ts: seq<Block>, chain: seq<int>): set<int> {
    set b | 0 <= b < |ts| && IsFreed(ts, b) && b !in chain
  }

  /** Freed blocks hold nothing but a link into the table. */
  ghost predicate FreedBlank(ts: seq<Block>) {
    forall b {:trigger ts[b]} :: 0 <= b < |ts| ==> BlankIfFreed(ts[b], |ts|)
  }

  predicate BlankIfFreed(b: Block, n: nat) {
    b.nextFree == ALLOCATED || (0 <= b.nextFree < n && b.data == DATA_ERROR && SuffixOf(b) == [])
  }

  function SuffixOf(b: Block): seq<int> {
    if b.suffix.Some? then b.suffix.value else []
  }

  class Tail {
    var tails: seq<Block>
    var firstFree: int
    ghost var chain: seq<int>

    ghost predicate Valid()
      reads this
    {
      ChainOk(tails, firstFree, chain) && FreedBlank(tails)
    }

    constructor ()
      ensures Valid() && tails == [] && firstFree == 0 && chain == []
    {
      firstFree := 0;
      tails := [];
      chain := [];
    }

    /** What tail_fmread leaves: blocks taken as they are. */
    constructor FromBlocks(ts: seq<Block>, ff: int, ghost chain: seq<int>)
      requires ChainOk(ts, ff, chain) && FreedBlank(ts)
      ensures tails == ts && firstFree == ff && this.chain == chain
    {
      tails := ts;
      firstFree := ff;
      this.chain := chain;
    }

    function GetSuffix(idx: int): Suffix
      requires idx >= START_BLOCKNO
      reads this
    {
      if idx - START_BLOCKNO < |tails| then tails[idx - START_BLOCKNO].suffix else None
    }

    function GetData(idx: int): int
      requires idx >= START_BLOCKNO
      reads this
    {
      if idx - START_BLOCKNO < |tails| then tails[idx - START_BLOCKNO].data else DATA_ERROR
    }

    method SetSuffix(idx: int, suffix: Suffix)
      requires Valid() && idx >= START_BLOCKNO && (idx <= |tails| ==> InUse(tails, idx - 1))
      modifies this`tails
      ensures Valid()
      ensures tails == if idx <= |old(tails)| then old(tails)[idx - 1 := old(tails)[idx - 1].(suffix := suffix)]
            else old(tails)
    {
      if idx - START_BLOCKNO < |tails| {
        tails := tails[idx - START_BLOCKNO := tails[idx - START_BLOCKNO].(suffix := suffix)];
        ChainElsewhere(old(tails), tails, chain);
      }
    }

    method SetData(idx: int, data: int)
      requires Valid() && idx >= START_BLOCKNO && (idx <= |tails| ==> InUse(tails, idx - 1))
      modifies this`tails
      ensures Valid()
      ensures tails == if idx <= |old(tails)| then old(tails)[idx - 1 := old(tails)[idx - 1].(data := data)]
            else old(tails)
    {
      if idx - START_BLOCKNO < |tails| {
        tails := tails[idx - START_BLOCKNO := tails[idx - START_BLOCKNO].(data := data)];
        ChainElsewhere(old(tails), tails, chain);
      }
    }

    /** Takes the lowest freed block it can reach, or a new one at the end. */
    method AllocBlock() returns (idx: int)
      requires Valid()
      modifies this
      ensures Valid() && idx >= START_BLOCKNO
      ensures !InUse(old(tails), idx - 1) && |tails| == if old(chain) == [] then |old(tails)| + 1 else |old(tails)|
      ensures 0 <= idx - 1 < |tails| && tails[idx - 1] == Block(ALLOCATED, DATA_ERROR, None)
      ensures forall b {:trigger tails[b]} :: 0 <= b < |old(tails)| && b != idx - 1 ==> tails[b] == old(tails)[b]
      ensures idx - 1 == if old(chain) == [] then |old(tails)| else old(chain)[0]
      ensures chain == if old(chain) == [] then [] else old(chain)[1..]
      ensures Lost(tails, chain) == Lost(old(tails), old(chain))
    {
      var block;
      if firstFree != 0 {
        block := firstFree;
        firstFree := tails[block].nextFree;
        assert PointsOn(tails, chain, 0);
        chain := chain[1..];
        ChainTail(tails, old(chain));
      } else {
        block := |tails|;
        tails := tails + [Block(ALLOCATED, DATA_ERROR, None)];
      }
      ghost var was := tails;
      tails := tails[block := Block(ALLOCATED, DATA_ERROR, None)];
      ChainElsewhere(was, tails, chain);
      idx := block + START_BLOCKNO;
    }

    method AddSuffix(suffix: seq<int>) returns (idx: int)
      requires Valid()
      modifies this
      ensures Valid() && idx >= START_BLOCKNO && !InUse(old(tails), idx - 1)
      ensures 0 <= idx - 1 < |tails| && tails[idx - 1] == Block(ALLOCATED, DATA_ERROR, Some(suffix))
      ensures |old(tails)| <= |tails| <= |old(tails)| + 1
      ensures forall b {:trigger tails[b]} ::
                0 <= b < |tails| && b != idx - 1 ==> b < |old(tails)| && tails[b] == old(tails)[b]
    {
      idx := AllocBlock();
      SetSuffix(idx, Some(suffix));
    }

    /** Frees a block. Freeing block 0 makes the chain empty: every block on it is lost. */
    method FreeBlock(idx: int)
      requires Valid() && InUse(tails, idx - 1)
      modifies this
      ensures Valid() && |tails| == |old(tails)| && IsFreed(tails, idx - 1)
      ensures tails[idx - 1].data == DATA_ERROR && tails[idx - 1].suffix == None
      ensures forall b {:trigger tails[b]} :: 0 <= b < |tails| && b != idx - 1 ==>
                && tails[b].data == old(tails)[b].data && tails[b].suffix == old(tails)[b].suffix
                && (InUse(tails, b) <==> InUse(old(tails), b))
      ensures forall b {:trigger b in chain} ::
                b in chain <==> idx != START_BLOCKNO && (b in old(chain) || b == idx - 1)
    {
      var block := idx - START_BLOCKNO;
      tails := tails[block := tails[block].(data := DATA_ERROR, suffix := None)];
      ChainElsewhere(old(tails), tails, chain);
      ghost var was := tails;
      assert forall b {:trigger InUse(was, b)} :: InUse(was, b) <==> InUse(old(tails), b);
      var j, i;
      ghost var n;
      j, i, n := InsertionPoint(block);
      LinkIn(block, j, i, n);
      assert forall b {:trigger InUse(tails, b)} :: b != block ==> (InUse(tails, b) <==> InUse(was, b));
      SplicedMembers(old(chain), n, block);
    }

    /** The chain elements between which a block belongs, 0 standing for either end. */
    method InsertionPoint(block: int) returns (j: int, i: int, ghost n: nat)
      requires Valid() && 0 <= block < |tails|
      ensures n <= |chain| && i == Link(chain, n) && j == if n == 0 then 0 else chain[n - 1]
      ensures forall k :: 0 <= k < n ==> chain[k] < block
      ensures forall k :: n <= k < |chain| ==> chain[k] >= block
    {
      n := 0;
      j := 0;
      i := firstFree;
      while i != 0 && i < block
        invariant 0 <= n <= |chain| && i == Link(chain, n) && j == if n == 0 then 0 else chain[n - 1]
        invariant forall k :: 0 <= k < n ==> chain[k] < block
        decreases |chain| - n
      {
        assert PointsOn(tails, chain, n);
        j := i;
        i := tails[i].nextFree;
        n := n + 1;
      }
    }

    /** Inserts the block between j and i. */
    method LinkIn(block: int, j: int, i: int, ghost n: nat)
      requires Valid() && InUse(tails, block) && tails[block].data == DATA_ERROR && tails[block].suffix == None
      requires n <= |chain| && i == Link(chain, n) && j == if n == 0 then 0 else chain[n - 1]
      requires forall k :: 0 <= k < n ==> chain[k] < block
      requires forall k :: n <= k < |chain| ==> chain[k] >= block
      modifies this
      ensures Valid() && |tails| == |old(tails)| && IsFreed(tails, block)
      ensures Relinked(old(tails), tails, block)
      ensures chain == if block == 0 then [] else Spliced(old(chain), n, block)
    {
      assert n > 0 ==> IsFreed(tails, chain[n - 1]);
      assert forall k {:trigger chain[k]} :: n <= k < |chain| ==> IsFreed(tails, chain[k]);
      ghost var was := tails;
      tails := tails[block := tails[block].(nextFree := i)];
      if j != 0 {
        tails := tails[j := tails[j].(nextFree := block)];
      } else {
        firstFree := block;
      }
      LinksSet(was, tails, block, j, i);
      if block == 0 {
        chain := [];
      } else {
        SpliceChain(was, tails, chain, n, block);
        chain := Spliced(chain, n, block);
      }
    }
  }

  /** Links set in a freed block j and in one that is just being freed. */
  lemma LinksSet(ts: seq<Block>, ts': seq<Block>, block: int, j: int, i: int)
    requires FreedBlank(ts) && InUse(ts, block) && ts[block].data == DATA_ERROR && ts[block].suffix == None
    requires 0 <= i < |ts|
    requires j != 0 ==> IsFreed(ts, j)
    requires |ts'| == |ts| && forall b {:trigger ts'[b]} :: 0 <= b < |ts| ==>
               ts'[b] == if b == block then ts[b].(nextFree := i)
                     else if b == j && j != 0 then ts[b].(nextFree := block) else ts[b]
    ensures FreedBlank(ts') && Relinked(ts, ts', block)
  {
    forall b {:trigger ts'[b]} | 0 <= b < |ts|
      ensures ts'[b].data == ts[b].data && ts'[b].suffix == ts[b].suffix
      ensures (b != block ==> (InUse(ts', b) <==> InUse(ts, b)))
      ensures BlankIfFreed(ts'[b], |ts|)
    {
      assert BlankIfFreed(ts[b], |ts|);
    }
  }

  /** Only links of freed blocks and that of `block` have changed. */
  ghost predicate Relinked(ts: seq<Block>, ts': seq<Block>, block: int) {
    && |ts'| == |ts|
    && (forall b {:trigger ts'[b]} :: 0 <= b < |ts| ==>
          && ts'[b].data == ts[b].data && ts'[b].suffix == ts[b].suffix
          && (b != block ==> (InUse(ts', b) <==> InUse(ts, b))))
  }

  function Spliced(chain: seq<int>, n: nat, block: int): (c: seq<int>)
    requires n <= |chain|
    ensures |c| == |chain| + 1
    ensures forall i {:trigger c[i]} ::
              0 <= i < |c| ==> c[i] == if i < n then chain[i] else if i == n then block else chain[i - 1]
  {
    chain[..n] + [block] + chain[n..]
  }

  lemma SplicedMembers(chain: seq<int>, n: nat, block: int)
    requires n <= |chain|
    ensures forall b {:trigger b in Spliced(chain, n, block)} ::
              b in Spliced(chain, n, block) <==> b in chain || b == block
  {
    assert chain == chain[..n] + chain[n..];
  }

  /** Putting a block into the chain between its neighbours. */
  lemma SpliceChain(ts: seq<Block>, ts': seq<Block>, chain: seq<int>, n: nat, block: int)
    requires ChainOk(ts, Link(chain, 0), chain) && 0 < block < |ts| && n <= |chain|
    requires forall k :: 0 <= k < n ==> chain[k] < block
    requires forall k :: n <= k < |chain| ==> chain[k] > block
    requires |ts'| == |ts| && ts'[block].nextFree == Link(chain, n)
    requires forall b {:trigger ts'[b]} :: 0 <= b < |ts| && b != block ==>
               ts'[b].nextFree == if n > 0 && b == chain[n - 1] then block else ts[b].nextFree
    ensures ChainOk(ts', if n == 0 then block else Link(chain, 0), Spliced(chain, n, block))
  {
    var c := Spliced(chain, n, block);
    forall i {:trigger PointsOn(ts', c, i)} | 0 <= i < |c| ensures PointsOn(ts', c, i) {
      if i < n {
        assert PointsOn(ts, chain, i);
      } else if i > n {
        assert PointsOn(ts, chain, i - 1);
      }
    }
    forall i {:trigger c[i]} | 0 <= i < |c| ensures 0 < c[i] && IsFreed(ts', c[i]) {
      assert i < n ==> PointsOn(ts, chain, i);
    }
  }

  /** Dropping the first element of a chain. */
  lemma ChainTail(ts: seq<Block>, chain: seq<int>)
    requires chain != [] && ChainOk(ts, chain[0], chain)
    ensures ChainOk(ts, Link(chain, 1), chain[1..])
  {
    var c := chain[1..];
    forall i {:trigger PointsOn(ts, c, i)} | 0 <= i < |c| ensures PointsOn(ts, c, i) {
      assert PointsOn(ts, chain, i + 1);
    }
  }

  /** Changes to blocks outside the chain do not matter to it. */
  lemma ChainElsewhere(ts: seq<Block>, ts': seq<Block>, chain: seq<int>)
    requires ChainOk(ts, Link(chain, 0), chain) && |ts'| >= |ts|
    requires forall i {:trigger chain[i]} :: 0 <= i < |chain| ==> ts'[chain[i]].nextFree == ts[chain[i]].nextFree
    ensures ChainOk(ts', Link(chain, 0), chain)
  {
    forall i {:trigger PointsOn(ts', chain, i)} | 0 <= i < |chain| ensures PointsOn(ts', chain, i) {
      assert PointsOn(ts, chain, i);
    }
  }
}
