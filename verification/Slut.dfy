/** The symbol table of src/uteslut.c: symbols to indices by way of a trie, indices back to
    symbols by way of a table of fixed-size slots. */
module Slut {
  import opened DoubleArray
  import opened Tails
  import opened TrieTheory
  import opened TailReach
  import opened TrieMap
  import opened TrieIO
  import opened TrieWalk
  import opened Streams

  const SYMLEN: nat := 64
  const MAX_SYMS: nat := 65535

  // ---------------------------------------------------------------- symbols and their indices

  /** The map takes each symbol to its position, counted from 1, and knows nothing else. */
  ghost predicate Indexes(m: map<Key, int>, syms: seq<Key>) {
    && (forall i {:trigger syms[i]} :: 0 <= i < |syms| ==> syms[i] in m && m[syms[i]] == i + 1)
    && (forall k {:trigger IndexOf(m, syms, k)} :: k in m ==> IndexOf(m, syms, k))
  }

  ghost predicate IndexOf(m: map<Key, int>, syms: seq<Key>, k: Key) {
    k in m && 1 <= m[k] <= |syms| && syms[m[k] - 1] == k
  }

  ghost predicate GoodSymbols(syms: seq<Key>) {
    && |syms| <= MAX_SYMS
    && forall i {:trigger syms[i]} :: 0 <= i < |syms| ==> ValidKey(syms[i]) && |syms[i]| < SYMLEN
  }

  lemma KnownSymbol(m: map<Key, int>, syms: seq<Key>, sym: Key)
    requires Indexes(m, syms)
    ensures sym in m <==> sym in syms
    ensures sym in m ==> IndexOf(m, syms, sym)
  {
    assert sym in m ==> IndexOf(m, syms, sym);
  }

  ghost predicate Distinct(syms: seq<Key>) {
    forall i, j {:trigger syms[i], syms[j]} :: 0 <= i < j < |syms| ==> syms[i] != syms[j]
  }

  /** No two indices are for the same symbol. */
  lemma OneIndex(st: State, syms: seq<Key>)
    requires Holds(st, syms)
    ensures Distinct(syms)
  {
    assert Opened(st);
    var m := KeyMap(st.strs);
    assert forall i {:trigger syms[i]} :: 0 <= i < |syms| ==> syms[i] in m && m[syms[i]] == i + 1;
  }

  /** Next to symbols this short no key is out of reach. */
  lemma SymbolInReach(m: map<Key, int>, syms: seq<Key>, sym: Key)
    requires Indexes(m, syms) && GoodSymbols(syms)
    ensures InReach(m, sym)
  {
    forall k {:trigger k in m} | k in m ensures |k| <= REACH {
      KnownSymbol(m, syms, k);
    }
  }

  lemma OneMoreSymbol(m: map<Key, int>, syms: seq<Key>, sym: Key)
    requires Indexes(m, syms) && sym !in m
    ensures Indexes(m[sym := |syms| + 1], syms + [sym])
  {
    KnownSymbol(m, syms, sym);
    var m', syms' := m[sym := |syms| + 1], syms + [sym];
    forall i {:trigger syms'[i]} | 0 <= i < |syms'| ensures syms'[i] in m' && m'[syms'[i]] == i + 1 {
      if i < |syms| {
        assert syms'[i] == syms[i];
      }
    }
    forall k {:trigger IndexOf(m', syms', k)} | k in m' ensures IndexOf(m', syms', k) {
      assert k in m ==> IndexOf(m, syms, k);
    }
  }

  lemma OneMoreGood(syms: seq<Key>, sym: Key)
    requires GoodSymbols(syms) && ValidKey(sym) && |sym| < SYMLEN && |syms| < MAX_SYMS
    ensures GoodSymbols(syms + [sym])
  {
    var syms' := syms + [sym];
    forall i {:trigger syms'[i]} | 0 <= i < |syms'| ensures ValidKey(syms'[i]) && |syms'[i]| < SYMLEN {
      if i < |syms| {
        assert syms'[i] == syms[i];
      }
    }
  }

  // ---------------------------------------------------------------- the trie of a table

  /** What the pool and the tail table have taken for so many symbols. */
  predicate Room(cells: nat, blocks: nat, n: nat) {
    cells <= POOL_BEGIN + n * (STRIDE * (SYMLEN + 1)) && blocks <= n
  }

  /** With 65535 symbols of 63 characters the pool still has room for one more. */
  lemma RoomForOneMore(cells: nat, blocks: nat, n: nat, len: nat)
    requires Room(cells, blocks, n) && n < MAX_SYMS && len < SYMLEN
    ensures cells + STRIDE * (len + 2) < INDEX_MAX
    ensures Room(cells + STRIDE * (len + 2), blocks + 1, n + 1)
  {
    assert STRIDE * (len + 2) <= STRIDE * (SYMLEN + 1);
  }

  /** A trie in this state has exactly these symbols, with their indices. */
  ghost predicate Holding(st: State, syms: seq<Key>) {
    && SoundState(st) && GoodSymbols(syms) && Indexes(KeyMap(st.strs), syms)
    && Room(|st.cells|, |st.tails|, |syms|)
  }

  /** Marks a state that a proof looks into. */
  ghost predicate Opened(st: State) { true }

  /** Holding, with its parts out of sight until the state is opened. */
  ghost predicate Holds(st: State, syms: seq<Key>) {
    forall u {:trigger Opened(u)} :: Opened(u) && u == st ==> Holding(u, syms)
  }

  /** mem is what a table with these symbols has written. */
  ghost predicate ImageOf(mem: seq<Byte>, st: State, syms: seq<Key>) {
    Holds(st, syms) && Fits(st.cells, st.tails, st.firstFree) && mem == Image(st)
  }

  lemma HoldsOneMore(st: State, syms: seq<Key>, st': State, sym: Key)
    requires Holding(st, syms) && SoundState(st') && ValidKey(sym) && |sym| < SYMLEN && |syms| < MAX_SYMS
    requires sym !in KeyMap(st.strs) && KeyMap(st'.strs) == KeyMap(st.strs)[sym := |syms| + 1]
    requires Room(|st'.cells|, |st'.tails|, |syms| + 1)
    ensures Holds(st', syms + [sym])
  {
    OneMoreSymbol(KeyMap(st.strs), syms, sym);
    OneMoreGood(syms, sym);
  }

  lemma SymbolsStorable(st: State, syms: seq<Key>)
    requires Holding(st, syms)
    ensures Storable(st) && Fits(st.cells, st.tails, st.firstFree) && ShortSuffixes(st.tails)
  {
    forall x {:trigger x in st.strs} | x in st.strs ensures |x| <= 0x8000 && IsI32(st.strs[x]) {
      var k := Decode(x);
      DecodeEncode(x);
      KeyMapAt(st.strs, k);
      KnownSymbol(KeyMap(st.strs), syms, k);
    }
    StorableFits(st);
    ShortKeys(st);
  }

  /** slut_tg_put of a symbol the trie does not know yet. */
  method Put(t: Trie, sym: Key, idx: nat, ghost syms: seq<Key>)
    requires Holds(t.Now(), syms) && ValidKey(sym) && |sym| < SYMLEN && sym !in syms
    requires |syms| < MAX_SYMS && idx == |syms| + 1
    modifies t`strs, t`dirty, t.da, t.tail
    ensures Holds(t.Now(), syms + [sym])
  {
    ghost var st := t.Now();
    assert Opened(st);
    RoomForOneMore(|st.cells|, |st.tails|, |syms|, |sym|);
    KnownSymbol(KeyMap(st.strs), syms, sym);
    var r := t.Store(sym, idx);
    AnswerIs(r);
    HoldsOneMore(st, syms, t.Now(), sym);
  }

  /** slut_tg_get. */
  method Get(t: Trie, sym: Key, ghost syms: seq<Key>) returns (data: Option<int>)
    requires Holds(t.Now(), syms) && ValidKey(sym)
    ensures data.Some? <==> sym in syms
    ensures data.Some? ==> 1 <= data.value <= |syms| && syms[data.value - 1] == sym && |syms| <= MAX_SYMS
  {
    assert Opened(t.Now());
    KnownSymbol(t.Contents(), syms, sym);
    SymbolInReach(t.Contents(), syms, sym);
    var r := t.Retrieve(sym);
    data := r.value;
  }

  /** slut_tg_seria. */
  method Serialise(t: Trie, ghost syms: seq<Key>) returns (mem: seq<Byte>)
    requires Holds(t.Now(), syms)
    modifies t`dirty
    ensures t.Now() == old(t.Now()) && ImageOf(mem, t.Now(), syms)
  {
    ghost var st := t.Now();
    assert Opened(st);
    SymbolsStorable(st, syms);
    mem := Mwrite(t);
    assert t.Now() == st;
  }

  /** slut_tg_deser. */
  method Deserialise(mem: seq<Byte>, ghost st: State, ghost syms: seq<Key>) returns (t: Trie)
    requires ImageOf(mem, st, syms)
    ensures fresh(t) && fresh(t.da) && fresh(t.tail) && Holds(t.Now(), syms)
  {
    assert Opened(st);
    SymbolsStorable(st, syms);
    assert mem == Image(st) + [];
    var o := Mread(mem, st, []);
    t := o.value;
  }

  /** The trie of a table that starts from what another one has written, or from nothing. */
  method Reborn(mem: seq<Byte>, ghost st: State, ghost syms: seq<Key>) returns (t: Trie)
    requires if mem == [] then syms == [] else ImageOf(mem, st, syms)
    ensures fresh(t) && fresh(t.da) && fresh(t.tail) && Holds(t.Now(), syms)
  {
    if mem != [] {
      t := Deserialise(mem, st, syms);
    } else {
      t := Unborn();
    }
  }

  /** The trie of an empty table. */
  method Unborn() returns (t: Trie)
    ensures fresh(t) && fresh(t.da) && fresh(t.tail) && Holds(t.Now(), [])
  {
    t := new Trie();
  }

  /** slut_tg_walk: each symbol once, with its index. */
  method Enumerate(t: Trie, ghost syms: seq<Key>) returns (r: seq<(Key, int)>)
    requires Holds(t.Now(), syms)
    ensures Enumerates(r, syms) && |syms| <= MAX_SYMS
  {
    assert Opened(t.Now());
    r := Walk(t);
    ListsSymbols(r, t.Contents(), syms);
  }

  ghost predicate Enumerates(r: seq<(Key, int)>, syms: seq<Key>) {
    && (forall i {:trigger r[i]} :: 0 <= i < |r| ==> 1 <= r[i].1 <= |syms| && syms[r[i].1 - 1] == r[i].0)
    && (forall i, j {:trigger r[i], r[j]} :: 0 <= i < j < |r| ==> r[i].1 != r[j].1)
    && (forall n {:trigger Listed(r, n)} :: 1 <= n <= |syms| ==> Listed(r, n))
  }

  ghost predicate Listed(r: seq<(Key, int)>, n: int) {
    exists i :: 0 <= i < |r| && r[i].1 == n
  }

  lemma OtherIndex(e: (Key, int), f: (Key, int), syms: seq<Key>)
    requires 1 <= e.1 <= |syms| && syms[e.1 - 1] == e.0 && 1 <= f.1 <= |syms| && syms[f.1 - 1] == f.0
    requires KeyLess(e.0, f.0)
    ensures e.1 != f.1
  {
    BeforeIsStrict(e.0 + [0], f.0 + [0]);
  }

  lemma ListsSymbols(r: seq<(Key, int)>, m: map<Key, int>, syms: seq<Key>)
    requires Lists(r, m) && Indexes(m, syms)
    ensures Enumerates(r, syms)
  {
    forall i {:trigger r[i]} | 0 <= i < |r| ensures 1 <= r[i].1 <= |syms| && syms[r[i].1 - 1] == r[i].0 {
      ListedEntry(r[i], m, syms);
    }
    forall i, j {:trigger r[i], r[j]} | 0 <= i < j < |r| ensures r[i].1 != r[j].1 {
      ListedApart(r, m, syms, i, j);
    }
    ListsAll(r, m, syms);
  }

  lemma ListedApart(r: seq<(Key, int)>, m: map<Key, int>, syms: seq<Key>, i: nat, j: nat)
    requires Lists(r, m) && Indexes(m, syms) && i < j < |r|
    ensures r[i].1 != r[j].1
  {
    ListedEntry(r[i], m, syms);
    ListedEntry(r[j], m, syms);
    OtherIndex(r[i], r[j], syms);
  }

  lemma ListsAll(r: seq<(Key, int)>, m: map<Key, int>, syms: seq<Key>)
    requires Lists(r, m) && Indexes(m, syms)
    ensures forall n {:trigger Listed(r, n)} :: 1 <= n <= |syms| ==> Listed(r, n)
  {
    forall n {:trigger Listed(r, n)} | 1 <= n <= |syms| ensures Listed(r, n) {
      assert syms[n - 1] in m;
    }
  }

  lemma ListedEntry(e: (Key, int), m: map<Key, int>, syms: seq<Key>)
    requires e.0 in m && m[e.0] == e.1 && Indexes(m, syms)
    ensures 1 <= e.1 <= |syms| && syms[e.1 - 1] == e.0
  {
    KnownSymbol(m, syms, e.0);
  }

  // ---------------------------------------------------------------- the table

  /** Slots to allocate when the table is to hold at least so many. */
  function AllocSize(atLeast: nat): nat {
    if atLeast >= 8192 then 65536
    else if atLeast >= 1024 then 8192
    else if atLeast >= 128 then 1024
    else 128
  }

  /** There is a slot for an index after a resize exactly up to the largest 16-bit index. */
  lemma ResizeMakesRoom(slot: nat)
    ensures slot < AllocSize(slot) <==> slot <= MAX_SYMS
  {
  }

  predicate AllocStep(n: nat) { n == 128 || n == 1024 || n == 8192 || n == 65536 }

  class SymbolTable {
    var stbl: Trie
    var itbl: seq<Key>
    var nsyms: nat

    ghost predicate Valid()
      reads this, stbl, stbl.da, stbl.tail
    {
      && nsyms < |itbl| && nsyms <= MAX_SYMS && AllocStep(|itbl|)
      && Holds(stbl.Now(), Symbols())
    }

    /** The symbols in the order of their indices 1, 2, ... */
    ghost function Symbols(): seq<Key>
      requires nsyms < |itbl|
      reads this
    {
      itbl[1..nsyms + 1]
    }

    constructor ()
      ensures Valid() && fresh(stbl) && fresh(stbl.da) && fresh(stbl.tail) && Symbols() == []
    {
      var trie := Unborn();
      itbl := seq(128, _ => []);
      nsyms := 0;
      stbl := trie;
      new;
      assert Symbols() == [];
    }

    method ResizeI2s(atLeast: nat)
      requires |itbl| <= AllocSize(atLeast)
      modifies this`itbl
      ensures |itbl| == AllocSize(atLeast) && itbl[..|old(itbl)|] == old(itbl)
      ensures forall i {:trigger itbl[i]} :: |old(itbl)| <= i < |itbl| ==> itbl[i] == []
    {
      itbl := itbl + seq(AllocSize(atLeast) - |itbl|, _ => []);
    }

    /** A new symbol gets the next index. */
    method Create(sym: Key) returns (res: nat)
      requires Valid() && ValidKey(sym) && |sym| < SYMLEN
      requires sym !in Symbols() && nsyms < MAX_SYMS
      modifies this`itbl, this`nsyms, stbl`strs, stbl`dirty, stbl.da, stbl.tail
      ensures Valid() && res == nsyms && Symbols() == old(Symbols()) + [sym]
    {
      ghost var syms, table := Symbols(), itbl;
      res := NextSlot();
      Put(stbl, sym, res, syms);
      SlotFilled(table, itbl, res, sym);
      itbl := itbl[res := sym];
    }

    /** Counts one more symbol and makes sure it has a slot. */
    method NextSlot() returns (res: nat)
      requires nsyms < |itbl| && nsyms < MAX_SYMS && AllocStep(|itbl|)
      modifies this`itbl, this`nsyms
      ensures res == nsyms == old(nsyms) + 1 && nsyms < |itbl| && AllocStep(|itbl|)
      ensures |old(itbl)| <= |itbl| && itbl[..|old(itbl)|] == old(itbl)
    {
      nsyms := nsyms + 1;
      res := nsyms;
      if res >= |itbl| {
        ResizeMakesRoom(res);
        ResizeI2s(res);
      }
    }

    /** The index of a symbol, a new one if it has none. */
    method Sym2Idx(sym: Key) returns (res: nat)
      requires Valid() && ValidKey(sym)
      requires sym !in Symbols() ==> |sym| < SYMLEN && nsyms < MAX_SYMS
      modifies this`itbl, this`nsyms, stbl`strs, stbl`dirty, stbl.da, stbl.tail
      ensures Valid()
      ensures Symbols() == if sym in old(Symbols()) then old(Symbols()) else old(Symbols()) + [sym]
      ensures 1 <= res <= |Symbols()| && Symbols()[res - 1] == sym
      ensures Distinct(Symbols())
    {
      var data := Get(stbl, sym, Symbols());
      if data.None? {
        res := Create(sym);
        res := ToU16(res);
      } else {
        res := ToU16(data.value);
      }
      OneIndex(stbl.Now(), Symbols());
    }

    /** The symbol of an index. */
    function Idx2Sym(idx: nat): (r: Option<Key>)
      requires nsyms < |itbl|
      reads this
      ensures r == if 1 <= idx <= |Symbols()| then Some(Symbols()[idx - 1]) else None
    {
      if idx == 0 || idx > nsyms then None else Some(itbl[idx])
    }

    method Seria() returns (mem: seq<Byte>)
      requires Valid()
      modifies stbl`dirty
      ensures Valid() && Symbols() == old(Symbols()) && ImageOf(mem, stbl.Now(), Symbols())
    {
      mem := Serialise(stbl, Symbols());
    }

    /** A table read back from what another one has written, or an empty one from nothing. */
    constructor Deser(mem: seq<Byte>, ghost st: State, ghost syms: seq<Key>)
      requires if mem == [] then syms == [] else ImageOf(mem, st, syms)
      ensures Valid() && fresh(stbl) && fresh(stbl.da) && fresh(stbl.tail) && Symbols() == syms
    {
      var trie := Reborn(mem, st, syms);
      stbl := trie;
      itbl := seq(128, _ => []);
      nsyms := 0;
      new;
      var r := Enumerate(stbl, syms);
      Fill(r, syms);
      assert Symbols() == syms;
    }

    /** The enumeration's callbacks, one after the other, on an empty table. */
    method Fill(r: seq<(Key, int)>, ghost syms: seq<Key>)
      requires Enumerates(r, syms) && |syms| <= MAX_SYMS
      requires nsyms == 0 && |itbl| == 128 && forall n {:trigger itbl[n]} :: 0 <= n < 128 ==> itbl[n] == []
      modifies this`itbl, this`nsyms
      ensures nsyms == |syms| < |itbl| && AllocStep(|itbl|) && itbl[1..nsyms + 1] == syms
    {
      for i := 0 to |r|
        invariant nsyms < |itbl| && nsyms <= |syms| && AllocStep(|itbl|)
        invariant forall j {:trigger r[j]} :: 0 <= j < i ==> r[j].1 <= nsyms && itbl[r[j].1] == r[j].0
        invariant forall n {:trigger itbl[n]} ::
                  0 <= n < |itbl| && (forall j {:trigger r[j]} :: 0 <= j < i ==> r[j].1 != n) ==> itbl[n] == []
      {
        TakeEntry(r[i].0, r[i].1);
      }
      forall n | 1 <= n <= |syms| ensures n <= nsyms && itbl[n] == syms[n - 1] {
        assert Listed(r, n);
      }
      assert syms != [] ==> Listed(r, |syms|);
    }

    /** tri_cb: copies the characters of the symbol over those of its slot. */
    method TakeEntry(sym: Key, val: nat)
      requires nsyms < |itbl| && AllocStep(|itbl|) && val <= MAX_SYMS
      modifies this`itbl, this`nsyms
      ensures nsyms == (if old(nsyms) < val then val else old(nsyms)) && nsyms < |itbl| && AllocStep(|itbl|)
      ensures |old(itbl)| <= |itbl| && val < |itbl|
      ensures itbl[val] == Overlaid(if val < |old(itbl)| then old(itbl)[val] else [], sym)
      ensures forall n {:trigger itbl[n]} ::
                0 <= n < |itbl| && n != val ==> itbl[n] == if n < |old(itbl)| then old(itbl)[n] else []
    {
      if val >= |itbl| {
        ResizeMakesRoom(val);
        ResizeI2s(val);
      }
      assert forall n {:trigger itbl[n]} :: 0 <= n < |old(itbl)| ==> itbl[n] == itbl[..|old(itbl)|][n];
      itbl := itbl[val := Overlaid(itbl[val], sym)];
      if nsyms < val {
        nsyms := val;
      }
    }
  }

  /** Characters written over those of a slot; the terminator is not written. */
  function Overlaid(slot: Key, sym: Key): Key {
    if |sym| < |slot| then sym + slot[|sym|..] else sym
  }

  lemma SlotFilled(table: seq<Key>, itbl: seq<Key>, n: nat, sym: Key)
    requires 0 < n <= |table| <= |itbl| && n < |itbl| && itbl[..|table|] == table
    ensures itbl[n := sym][1..n + 1] == table[1..n] + [sym]
  {
    assert forall i :: 0 <= i < |table| ==> itbl[i] == itbl[..|table|][i];
  }
}
