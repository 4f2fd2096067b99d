/** How far the comparison of a key with a tail can go: the position in the suffix is a
    signed 16-bit number, so 0x8000 symbols in agreement take it out of the suffix. */
module TailReach {
  import opened DoubleArray
  import opened Tails
  import opened TrieTheory

  const REACH: nat := 0x8000

  /** What ++ does to a short int. */
  function NextIdx(i: int): int { (i + 1 + 0x8000) % 0x1_0000 - 0x8000 }

  /** The rest of a key, its NUL with it, agrees with a suffix on 0x8000 symbols and goes on. */
  ghost predicate RunsOver(rest: Str, sfx: seq<int>) {
    |rest| > REACH && |sfx| >= REACH && rest[..REACH] == sfx[..REACH]
  }

  ghost predicate OverrunsAt(t: map<Label, Kind>, ts: seq<Block>, x: Str, p: Label) {
    LeafOk(t, ts, p) && p <= x && RunsOver(x[TailStart(p)..], ts[t[p].tail - 1].suffix.value)
  }

  /** On the way along x there is a tail whose comparison with x leaves the suffix. */
  ghost predicate Overruns(t: map<Label, Kind>, ts: seq<Block>, x: Str) {
    exists p :: OverrunsAt(t, ts, x, p)
  }

  /** No key of m shares its first 0x8001 symbols with x. */
  ghost predicate Clear(m: map<Str, int>, x: Str) {
    forall z {:trigger z in m} :: z in m ==> !SharesLongPrefix(z, x)
  }

  ghost predicate SharesLongPrefix(z: Str, x: Str) {
    |z| > REACH + 1 && |x| > REACH + 1 && z[..REACH + 1] == x[..REACH + 1]
  }

  /** Only one separate node is on the way along x. */
  lemma OneOnTheWay(t: map<Label, Kind>, p: Label, q: Label, x: Str)
    requires Shape(t) && p in t && q in t && t[p].Separate? && t[q].Separate? && p <= x && q <= x
    ensures p == q
  {
    PrefixesComparable(p, q, x);
    if p < q {
      ProperPrefixBranches(t, p, q);
    } else if q < p {
      ProperPrefixBranches(t, q, p);
    } else {
      assert p == q[..|p|] == q;
    }
  }

  /** None is where the branches for x lead nowhere. */
  lemma NoneOnTheWay(t: map<Label, Kind>, x: Str, i: nat, p: Label)
    requires Shape(t) && i < |x| && x[..i] in t && t[x[..i]] == Branch && x[..i] + [x[i]] !in t
    ensures !(p in t && t[p].Separate? && p <= x)
  {
    var q := x[..i + 1];
    assert q == x[..i] + [x[i]];
    if p in t && t[p].Separate? && p <= x {
      PrefixesComparable(p, x[..i], x);
      PrefixesComparable(p, q, x);
      assert p == x[..|p|];
      if |p| <= i {
        assert p <= x[..i];
        if p != x[..i] {
          ProperPrefixBranches(t, p, x[..i]);
        }
      } else if p != q {
        ProperPrefixBranches(t, q, p);
      }
    }
  }

  lemma ReachedOverruns(t: map<Label, Kind>, ts: seq<Block>, m: map<Str, int>, x: Str, p: Label)
    requires Represents(t, ts, m) && p in t && t[p].Separate? && p <= x
    ensures LeafOk(t, ts, p)
    ensures Overruns(t, ts, x) <==> RunsOver(x[TailStart(p)..], ts[t[p].tail - 1].suffix.value)
  {
    assert LeafOk(t, ts, p);
    if Overruns(t, ts, x) {
      var q :| OverrunsAt(t, ts, x, q);
      OneOnTheWay(t, p, q, x);
    }
    assert RunsOver(x[TailStart(p)..], ts[t[p].tail - 1].suffix.value) ==> OverrunsAt(t, ts, x, p);
  }

  lemma FellOffInReach(t: map<Label, Kind>, ts: seq<Block>, x: Str, i: nat)
    requires Shape(t) && i < |x| && x[..i] in t && t[x[..i]] == Branch && x[..i] + [x[i]] !in t
    ensures !Overruns(t, ts, x)
  {
    if Overruns(t, ts, x) {
      var q :| OverrunsAt(t, ts, x, q);
      NoneOnTheWay(t, x, i, q);
    }
  }

  /** An overrun takes a stored key that shares the first 0x8001 symbols. */
  lemma ClearInReach(t: map<Label, Kind>, ts: seq<Block>, m: map<Str, int>, x: Str)
    requires Represents(t, ts, m) && Clear(m, x)
    ensures !Overruns(t, ts, x)
  {
    if Overruns(t, ts, x) {
      var p :| OverrunsAt(t, ts, x, p);
      var sfx, z := ts[t[p].tail - 1].suffix.value, Full(t, ts, p);
      assert z in m && p != [] && !EndsInNul(p);
      LongPrefix(p, sfx, z, x);
    }
  }

  lemma LongPrefix(p: seq<int>, sfx: seq<int>, z: seq<int>, x: seq<int>)
    requires p != [] && p <= x && z == p + sfx + [0] && RunsOver(x[|p|..], sfx)
    ensures SharesLongPrefix(z, x)
  {
    forall i | 0 <= i < REACH + 1 ensures z[i] == x[i] {
      assert i >= |p| ==> x[i] == x[|p|..][..REACH][i - |p|] && z[i] == sfx[..REACH][i - |p|];
    }
  }

  /** A key whose first symbol starts no other key keeps all the rest in its tail. */
  lemma HeadOverruns(t: map<Label, Kind>, ts: seq<Block>, m: map<Str, int>, x: Str, n: int)
    requires Represents(t, ts, m) && Terminated(x) && x[..1] in t && t[x[..1]] == Separate(n)
    requires 0 < n <= |ts| && ts[n - 1].suffix == Some(Rest(x))
    ensures Overruns(t, ts, x) <==> |x| > REACH + 1
  {
    var p, y := x[..1], Rest(x);
    ReachedOverruns(t, ts, m, x, p);
    if |x| > 1 {
      assert y == x[1..|x| - 1] && x[1..][..|x| - 2] == y;
      assert |y| >= REACH ==> x[1..][..REACH] == y[..REACH];
    }
  }
}
