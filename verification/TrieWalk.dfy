/** Enumeration of a trie: the recursive walk over the double array (src/darray.c), the
    rebuilding of keys from CHECK links, and trie_walk (src/trie.c). */
module TrieWalk {
  import opened Basics
  import opened DoubleArray
  import opened Tails
  import opened TrieTheory
  import opened TrieMap

  /** a and b part at some position, and there a is the smaller one. On NUL-terminated
      strings this is the order of strcmp. */
  ghost predicate Before(a: seq<int>, b: seq<int>) {
    exists i: nat :: PartAt(a, b, i)
  }

  ghost predicate PartAt(a: seq<int>, b: seq<int>, i: nat) {
    i < |a| && i < |b| && (forall k :: 0 <= k < i ==> a[k] == b[k]) && a[i] < b[i]
  }

  lemma BeforeIsStrict(a: seq<int>, b: seq<int>)
    requires Before(a, b)
    ensures a != b && !Before(b, a)
  {
    var i: nat :| PartAt(a, b, i);
    forall j: nat ensures !PartAt(b, a, j) {}
  }

  // ---------------------------------------------------------------- the walk over the double array

  ghost predicate Under(path: map<int, Label>, st: int, n: int) {
    st in path && n in path && path[st] <= path[n]
  }

  ghost predicate SeparateUnder(cs: seq<Cell>, path: map<int, Label>, st: int, n: int) {
    Under(path, st, n) && 0 <= n < |cs| && cs[n].base < 0
  }

  ghost predicate InOrder(path: map<int, Label>, ns: seq<int>) {
    && (forall i {:trigger ns[i]} :: 0 <= i < |ns| ==> ns[i] in path)
    && (forall i, j {:trigger path[ns[i]], path[ns[j]]} :: 0 <= i < j < |ns| ==> Before(path[ns[i]], path[ns[j]]))
  }

  /** ns are the separate nodes from st on downwards, each once, in ascending label order. */
  ghost predicate Visited(cs: seq<Cell>, path: map<int, Label>, st: int, ns: seq<int>) {
    && InOrder(path, ns)
    && (forall n {:trigger SeparateUnder(cs, path, st, n)} :: n in ns <==> SeparateUnder(cs, path, st, n))
  }

  /** The same for the children of st along symbols below c. */
  ghost predicate VisitedArcs(cs: seq<Cell>, path: map<int, Label>, st: int, c: int, ns: seq<int>) {
    && InOrder(path, ns)
    && (forall n {:trigger SeparateUnder(cs, path, st, n)} :: n in ns <==>
          SeparateUnder(cs, path, st, n) && 0 <= Turn(path, st, n) < c)
  }

  /** The first symbol on the way from st down to n. */
  ghost function Turn(path: map<int, Label>, st: int, n: int): int {
    if Under(path, st, n) && |path[st]| < |path[n]| then path[n][|path[st]|] else -1
  }

  lemma JoinArcs(cs: seq<Cell>, path: map<int, Label>, node: map<Label, int>, st: int, c: Sym, ns: seq<int>,
                 ms: seq<int>)
    requires NodesOk(cs, path, node) && st in path && 0 <= st < |cs| && cs[st].base > 0 && ArcTo(cs, path, st, c)
    requires VisitedArcs(cs, path, st, c, ns)
    requires Visited(cs, path, cs[st].base + c, ms)
    ensures VisitedArcs(cs, path, st, c + 1, ns + ms)
  {
    var ch := cs[st].base + c;
    assert ChildOk(cs, path, ch);
    forall n {:trigger SeparateUnder(cs, path, st, n)}
      ensures n in ns + ms <==> SeparateUnder(cs, path, st, n) && 0 <= Turn(path, st, n) < c + 1
    {
      assert n in ms <==> SeparateUnder(cs, path, ch, n);
      UnderChild(path, st, ch, c, n);
    }
    forall i, j {:trigger path[(ns + ms)[i]], path[(ns + ms)[j]]} | 0 <= i < j < |ns + ms|
      ensures Before(path[(ns + ms)[i]], path[(ns + ms)[j]])
    {
      if i < |ns| <= j {
        var a, b := ns[i], ms[j - |ns|];
        assert a in ns && SeparateUnder(cs, path, st, a);
        assert b in ms && SeparateUnder(cs, path, ch, b);
        UnderChild(path, st, ch, c, b);
        TurnOrders(path, st, a, b);
      }
    }
    forall i {:trigger (ns + ms)[i]} | 0 <= i < |ns + ms| ensures (ns + ms)[i] in path {
      assert (ns + ms)[i] in ns || (ns + ms)[i] in ms;
    }
  }

  lemma TurnOrders(path: map<int, Label>, st: int, a: int, b: int)
    requires Under(path, st, a) && Under(path, st, b) && 0 <= Turn(path, st, a) < Turn(path, st, b)
    ensures Before(path[a], path[b])
  {
    var l := |path[st]|;
    assert path[a][..l] == path[st] == path[b][..l];
    assert PartAt(path[a], path[b], l);
  }

  lemma UnderChild(path: map<int, Label>, st: int, ch: int, c: int, n: int)
    requires st in path && ch in path && path[ch] == path[st] + [c] && c >= 0
    ensures Under(path, ch, n) <==> Under(path, st, n) && Turn(path, st, n) == c
  {
    if Under(path, st, n) {
      assert path[st] == path[n][..|path[st]|];
      if |path[n]| > |path[st]| {
        assert path[n][..|path[st]| + 1] == path[st] + [path[n][|path[st]|]];
      }
    }
    if Under(path, ch, n) {
      assert path[ch] == path[n][..|path[ch]|];
      assert path[st] <= path[n];
    }
  }

  /** Whoever sits below st does so by way of one of its arcs. */
  lemma TurnIsArc(cs: seq<Cell>, path: map<int, Label>, node: map<Label, int>, st: int, syms: seq<Sym>, n: int)
    requires NodesOk(cs, path, node) && Arcs(cs, path, st, syms) && cs[st].base > 0 && Under(path, st, n) && n != st
    ensures 0 <= Turn(path, st, n) < 0x80 && Turn(path, st, n) in syms
  {
    assert node[path[st]] == st && node[path[n]] == n;
    assert path[st] == path[n][..|path[st]|] && path[n][..|path[n]|] == path[n] != path[st];
    var q := path[n][..|path[st]| + 1];
    TreeShape(cs, path, node);
    if q != path[n] {
      ProperPrefixBranches(Tree(cs, path, node), q, path[n]);
    }
    assert q in node && q[..|q| - 1] == path[st];
    Parent(cs, path, node, node[q]);
    assert path[node[q]] == q && node[q] - cs[st].base in syms;
  }

  lemma Widen(cs: seq<Cell>, path: map<int, Label>, node: map<Label, int>, st: int, syms: seq<Sym>, b: int, c: int,
              ns: seq<int>)
    requires NodesOk(cs, path, node) && Arcs(cs, path, st, syms) && cs[st].base > 0
    requires VisitedArcs(cs, path, st, b, ns) && b <= c
    requires forall d :: d in syms ==> d < b || c <= d
    ensures VisitedArcs(cs, path, st, c, ns)
  {
    forall n {:trigger SeparateUnder(cs, path, st, n)}
      ensures n in ns <==> SeparateUnder(cs, path, st, n) && 0 <= Turn(path, st, n) < c
    {
      if SeparateUnder(cs, path, st, n) && n != st {
        TurnIsArc(cs, path, node, st, syms, n);
      }
    }
  }

  /** What lies below a node, the measure by which the recursion descends. */
  ghost function Below(path: map<int, Label>, st: int): set<int> {
    set n | n in path && Under(path, st, n)
  }

  /** da_walk_recursive with a callback that never asks to stop: the nodes it is called on. */
  method WalkRecursive(d: DArray, st: int) returns (ns: seq<int>)
    requires d.Valid() && st in d.path
    requires forall n {:trigger d.cells[n]} :: n in d.path ==> d.cells[n].base != 0
    ensures Visited(d.cells, d.path, st, ns)
    decreases Below(d.path, st)
  {
    var base := d.GetBase(st);
    if base < 0 {
      ns := [st];
      forall n {:trigger SeparateUnder(d.cells, d.path, st, n)}
        ensures n in ns <==> SeparateUnder(d.cells, d.path, st, n)
      {
        if Under(d.path, st, n) && n != st {
          NothingBelowSeparate(d.cells, d.path, d.node, st, n);
        }
      }
    } else {
      var symbols := d.OutputSymbols(st);
      ns := [];
      ghost var b: int := 0;
      for i := 0 to |symbols|
        invariant VisitedArcs(d.cells, d.path, st, b, ns)
        invariant forall j :: 0 <= j < i ==> symbols[j] < b
        invariant i < |symbols| ==> b <= symbols[i]
        invariant 0 <= b
      {
        var c := symbols[i];
        assert c in symbols && ArcTo(d.cells, d.path, st, c);
        assert forall e :: e in symbols ==> e < b || c <= e;
        Widen(d.cells, d.path, d.node, st, symbols, b, c, ns);
        ChildBelow(d.cells, d.path, d.node, st, c);
        var ms := WalkRecursive(d, base + c);
        JoinArcs(d.cells, d.path, d.node, st, c, ns, ms);
        ns := ns + ms;
        b := c + 1;
      }
      Widen(d.cells, d.path, d.node, st, symbols, b, if b < 0x80 then 0x80 else b, ns);
      forall n {:trigger SeparateUnder(d.cells, d.path, st, n)}
        ensures n in ns <==> SeparateUnder(d.cells, d.path, st, n)
      {
        if Under(d.path, st, n) && n != st {
          TurnIsArc(d.cells, d.path, d.node, st, symbols, n);
        }
      }
    }
  }

  lemma ChildBelow(cs: seq<Cell>, path: map<int, Label>, node: map<Label, int>, st: int, c: Sym)
    requires NodesOk(cs, path, node) && st in path && 0 <= st < |cs| && cs[st].base > 0 && ArcTo(cs, path, st, c)
    ensures Below(path, cs[st].base + c) < Below(path, st)
  {
    var ch := cs[st].base + c;
    assert ChildOk(cs, path, ch);
    forall n | n in Below(path, ch) ensures n in Below(path, st) {
      UnderChild(path, st, ch, c, n);
    }
    UnderChild(path, st, ch, c, st);
    assert st in Below(path, st) && st !in Below(path, ch);
  }

  lemma NothingBelowSeparate(cs: seq<Cell>, path: map<int, Label>, node: map<Label, int>, st: int, n: int)
    requires NodesOk(cs, path, node) && Under(path, st, n) && n != st
    ensures cs[st].base > 0
  {
    assert node[path[st]] == st && node[path[n]] == n;
    assert path[st] == path[n][..|path[st]|] && path[n][..|path[n]|] == path[n] != path[st];
    TreeShape(cs, path, node);
    ProperPrefixBranches(Tree(cs, path, node), path[st], path[n]);
  }

  // ---------------------------------------------------------------- keys from nodes

  /** Traces CHECK back to the root and reverses what it has read on the way. */
  method GetStateKey(d: DArray, state: int) returns (key: seq<int>)
    requires d.Valid() && state in d.path
    ensures key == d.path[state]
  {
    key := [];
    var s := state;
    while s != ROOT
      invariant s in d.path && d.path[state] == d.path[s] + Reversed(key)
      decreases |d.path[s]|
    {
      assert d.node[d.path[s]] == s && d.node[[]] == ROOT by { assert d.node[d.path[ROOT]] == ROOT; }
      Parent(d.cells, d.path, d.node, s);
      var parent := d.GetCheck(s);
      key := key + [s - d.GetBase(parent)];
      s := parent;
    }
    ghost var was := key;
    var i, len := 0, |key| - 1;
    while i < len
      invariant 0 <= i <= len + 1 && len == |was| - 1 - i && |key| == |was|
      invariant forall k :: 0 <= k < i || len < k < |key| ==> key[k] == was[|was| - 1 - k]
      invariant forall k :: i <= k <= len ==> key[k] == was[k]
    {
      key := key[i := key[len]][len := key[i]];
      i := i + 1;
      len := len - 1;
    }
    assert key == Reversed(was);
    assert key == [] + key;
  }

  /** A label sequence read as a C string: it ends at the NUL. */
  function AsCString(p: Label): seq<int> {
    if EndsInNul(p) then p[..|p| - 1] else p
  }

  function ToChars(s: seq<int>): (r: seq<int>)
    ensures |r| == |s|
  {
    seq(|s|, i requires 0 <= i < |s| => TrieToChar(s[i]))
  }

  /** strcmp order of C strings. */
  ghost predicate KeyLess(a: Key, b: Key) {
    Before(a + [0], b + [0])
  }

  /** r lists the entries of m, each once, in ascending key order. */
  ghost predicate Lists(r: seq<(Key, int)>, m: map<Key, int>) {
    && (forall i {:trigger r[i]} :: 0 <= i < |r| ==> r[i].0 in m && m[r[i].0] == r[i].1)
    && (forall k {:trigger k in m} :: k in m ==> exists i :: 0 <= i < |r| && r[i].0 == k)
    && (forall i, j {:trigger r[i], r[j]} :: 0 <= i < j < |r| ==> KeyLess(r[i].0, r[j].0))
  }

  /** trie_walk with a callback that never asks to stop: the entries it is called with. */
  method Walk(t: Trie) returns (r: seq<(Key, int)>)
    requires t.Valid()
    ensures Lists(r, t.Contents())
  {
    ghost var tree, ts := t.da.Contents(), t.tail.tails;
    forall n {:trigger t.da.cells[n]} | n in t.da.path ensures t.da.cells[n].base != 0 {
      assert NodeOk(tree, t.da.path[n]) && t.da.node[t.da.path[n]] == n;
    }
    var ns := WalkRecursive(t.da, ROOT);
    forall j {:trigger ns[j]} | 0 <= j < |ns| ensures SeparateUnder(t.da.cells, t.da.path, ROOT, ns[j]) {
      assert ns[j] in ns;
    }
    r := Entries(t, ns);
    EntriesList(t.da.cells, t.da.path, t.da.node, ts, t.strs, ns, r);
  }

  method Entries(t: Trie, ns: seq<int>) returns (r: seq<(Key, int)>)
    requires t.Valid()
    requires forall j {:trigger ns[j]} :: 0 <= j < |ns| ==> SeparateUnder(t.da.cells, t.da.path, ROOT, ns[j])
    ensures |r| == |ns| && AreEntries(t.da.path, t.da.Contents(), t.tail.tails, ns, r)
  {
    ghost var path, tree, ts := t.da.path, t.da.Contents(), t.tail.tails;
    r := [];
    for i := 0 to |ns|
      invariant |r| == i && AreEntries(path, tree, ts, ns, r)
    {
      var e := Entry(t, ns[i]);
      OneEntryMore(path, tree, ts, ns, r, e);
      r := r + [e];
    }
  }

  ghost predicate AreEntries(path: map<int, Label>, t: map<Label, Kind>, ts: seq<Block>, ns: seq<int>,
                             r: seq<(Key, int)>) {
    |r| <= |ns| && forall j {:trigger r[j]} :: 0 <= j < |r| ==> IsEntry(path, t, ts, ns[j], r[j])
  }

  lemma OneEntryMore(path: map<int, Label>, t: map<Label, Kind>, ts: seq<Block>, ns: seq<int>, r: seq<(Key, int)>,
                     e: (Key, int))
    requires AreEntries(path, t, ts, ns, r) && |r| < |ns| && IsEntry(path, t, ts, ns[|r|], e)
    ensures AreEntries(path, t, ts, ns, r + [e])
  {
  }

  /** What the callback trie_da_enum_func makes of a separate node. */
  method Entry(t: Trie, n: int) returns (e: (Key, int))
    requires t.Valid() && SeparateUnder(t.da.cells, t.da.path, ROOT, n)
    ensures IsEntry(t.da.path, t.da.Contents(), t.tail.tails, n, e)
  {
    ghost var tree, ts := t.da.Contents(), t.tail.tails;
    assert t.da.node[t.da.path[n]] == n;
    LeafFacts(tree, ts, t.strs, t.da.path[n]);
    var key := GetStateKey(t.da, n);
    var idx := -t.da.GetBase(n);
    var suffix := t.tail.GetSuffix(idx);
    assert suffix.Some?;
    EntryKey(tree, ts, t.da.path[n]);
    return (ToChars(AsCString(key)) + ToChars(suffix.value), t.tail.GetData(idx));
  }

  /** The entries of the separate nodes list the map. */
  lemma EntriesList(cs: seq<Cell>, path: map<int, Label>, node: map<Label, int>, ts: seq<Block>, m: map<Str, int>,
                    ns: seq<int>, r: seq<(Key, int)>)
    requires NodesOk(cs, path, node) && Represents(Tree(cs, path, node), ts, m) && forall x :: x in m ==> KeyStr(x)
    requires Visited(cs, path, ROOT, ns) && |r| == |ns|
    requires AreEntries(path, Tree(cs, path, node), ts, ns, r)
    ensures Lists(r, KeyMap(m))
  {
    var tree := Tree(cs, path, node);
    forall i {:trigger r[i]} | 0 <= i < |r| ensures r[i].0 in KeyMap(m) && KeyMap(m)[r[i].0] == r[i].1 {
      EntryInMap(path, tree, ts, m, ns[i], r[i]);
    }
    forall k {:trigger k in KeyMap(m)} | k in KeyMap(m) ensures exists i :: 0 <= i < |r| && r[i].0 == k {
      var p := KeySpelled(tree, ts, m, k);
      var n := node[p];
      assert SeparateUnder(cs, path, ROOT, n);
      var i :| 0 <= i < |ns| && ns[i] == n;
      assert IsEntry(path, tree, ts, ns[i], r[i]);
    }
    forall i, j {:trigger r[i], r[j]} | 0 <= i < j < |r| ensures KeyLess(r[i].0, r[j].0) {
      assert IsEntry(path, tree, ts, ns[i], r[i]) && IsEntry(path, tree, ts, ns[j], r[j]);
      assert Before(path[ns[i]], path[ns[j]]);
      EntriesOrdered(tree, ts, path[ns[i]], path[ns[j]]);
    }
  }

  ghost predicate IsEntry(path: map<int, Label>, t: map<Label, Kind>, ts: seq<Block>, n: int, e: (Key, int)) {
    && n in path && LeafOk(t, ts, path[n])
    && e.0 == Decode(Full(t, ts, path[n])) && e.1 == ts[t[path[n]].tail - 1].data
  }

  lemma EntryKey(t: map<Label, Kind>, ts: seq<Block>, p: Label)
    requires LeafOk(t, ts, p)
    ensures ToChars(AsCString(p)) + ToChars(ts[t[p].tail - 1].suffix.value) == Decode(Full(t, ts, p))
  {
  }

  lemma EntryInMap(path: map<int, Label>, t: map<Label, Kind>, ts: seq<Block>, m: map<Str, int>, n: int, e: (Key, int))
    requires Represents(t, ts, m) && (forall x :: x in m ==> KeyStr(x)) && IsEntry(path, t, ts, n, e)
    ensures e.0 in KeyMap(m) && KeyMap(m)[e.0] == e.1
  {
    LeafFacts(t, ts, m, path[n]);
    DecodeEncode(Full(t, ts, path[n]));
    KeyMapAt(m, e.0);
  }

  lemma KeySpelled(t: map<Label, Kind>, ts: seq<Block>, m: map<Str, int>, k: Key) returns (p: Label)
    requires Represents(t, ts, m) && (forall x :: x in m ==> KeyStr(x)) && k in KeyMap(m)
    ensures LeafOk(t, ts, p) && Decode(Full(t, ts, p)) == k
  {
    KeyMapAt(m, k);
    EncodeDecode(k);
    p := MapFacts(t, ts, m, Encode(k));
  }

  lemma EntriesOrdered(t: map<Label, Kind>, ts: seq<Block>, p: Label, q: Label)
    requires LeafOk(t, ts, p) && LeafOk(t, ts, q) && Before(p, q)
    requires KeyStr(Full(t, ts, p)) && KeyStr(Full(t, ts, q))
    ensures KeyLess(Decode(Full(t, ts, p)), Decode(Full(t, ts, q)))
  {
    var i: nat :| PartAt(p, q, i);
    var x, y := Full(t, ts, p), Full(t, ts, q);
    assert PartAt(x, y, i);
    CharsOrdered(x, y, i);
  }

  lemma CharsOrdered(x: Str, y: Str, i: nat)
    requires KeyStr(x) && KeyStr(y) && PartAt(x, y, i)
    ensures KeyLess(Decode(x), Decode(y))
  {
    DecodedChars(x);
    DecodedChars(y);
    assert PartAt(ToChars(x), ToChars(y), i);
  }

  lemma DecodedChars(x: Str)
    requires KeyStr(x)
    ensures Decode(x) + [0] == ToChars(x)
  {
  }
}
