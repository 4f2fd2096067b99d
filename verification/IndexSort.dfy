/** The first stage of sorting a tick page (src/utetpc.c): (key, index) pairs in a scratch
    array are put in order in groups of 4 and then merged, back and forth between its halves. */
module IndexSort {
  import opened Basics
  import opened Merging

  const IDXSORT_SIZE: nat := 256

  /** A sort key and where the tick it belongs to starts. */
  datatype PermIdx = PermIdx(skey: nat, si: nat)

  function Key(): PermIdx -> int { (p: PermIdx) => p.skey }

  ghost predicate SortedPairs(s: seq<PermIdx>) { Sorted(Key(), s) }

  // ---------------------------------------------------------------- four at a time

  /** The four 2-bit fields of a permutation byte: which element goes to each place. */
  datatype Perm = Perm(a: nat, b: nat, c: nat, d: nat)

  predicate IsPerm(p: Perm) {
    p.a < 4 && p.b < 4 && p.c < 4 && p.d < 4 && p.a != p.b && p.a != p.c && p.a != p.d && p.b != p.c && p.b != p.d
          && p.c != p.d
  }

  /** The permutations that pornsort_apply stops the program for. */
  predicate Aborts(p: Perm) { p == Perm(1, 0, 2, 3) || p == Perm(0, 1, 3, 2) || p == Perm(1, 0, 3, 2) }

  function Permuted(s: seq<PermIdx>, p: Perm): (r: seq<PermIdx>)
    requires |s| == 4 && IsPerm(p)
  {
    [s[p.a], s[p.b], s[p.c], s[p.d]]
  }

  /** The permutations that pornsort_perm comes up with. */
  predicate Arises(p: Perm) {
    || p == Perm(2, 3, 0, 1) || p == Perm(2, 0, 3, 1) || p == Perm(2, 0, 1, 3)
    || p == Perm(0, 2, 3, 1) || p == Perm(0, 2, 1, 3) || p == Perm(0, 1, 2, 3)
  }

  /** The ways to swap within the first and within the second pair. */
  predicate SwapsPairs(p: Perm) {
    p == Perm(0, 1, 2, 3) || p == Perm(1, 0, 2, 3) || p == Perm(0, 1, 3, 2) || p == Perm(1, 0, 3, 2)
  }

  /** The four cells from o on. */
  function Quad(s: seq<PermIdx>, o: nat): (r: seq<PermIdx>)
    requires o + 4 <= |s|
    ensures |r| == 4
  {
    [s[o], s[o + 1], s[o + 2], s[o + 3]]
  }

  /** Only n cells from o on may have changed. */
  ghost predicate OthersKept(was: seq<PermIdx>, now: seq<PermIdx>, o: nat, n: nat) {
    |now| == |was| && forall i {:trigger now[i]} :: 0 <= i < |was| && !(o <= i < o + n) ==> now[i] == was[i]
  }

  method SwapPi(a: array<PermIdx>, i: nat, j: nat)
    requires i < a.Length && j < a.Length
    modifies a
    ensures a[i] == old(a[j]) && a[j] == old(a[i])
    ensures forall k {:trigger a[k]} :: 0 <= k < a.Length && k != i && k != j ==> a[k] == old(a[k])
  {
    a[i], a[j] := a[j], a[i];
  }

  /** Orders the first and the second pair of four and says how to order all four. */
  method PornsortPerm(a: array<PermIdx>, o: nat) returns (perm: Perm, ghost swaps: Perm)
    requires o + 4 <= a.Length
    modifies a
    ensures OthersKept(old(a[..]), a[..], o, 4) && SwapsPairs(swaps)
    ensures Quad(a[..], o) == Permuted(Quad(old(a[..]), o), swaps)
    ensures Arises(perm)
    ensures var r := Permuted(Quad(a[..], o), perm); r[0].skey <= r[1].skey <= r[2].skey <= r[3].skey
  {
    swaps := OrderPairs(a, o);
    var p0, p1, p2, p3 := a[o].skey, a[o + 1].skey, a[o + 2].skey, a[o + 3].skey;
    if p2 < p0 {
      if p3 < p0 {
        perm := Perm(2, 3, 0, 1);
      } else if p3 < p1 {
        perm := Perm(2, 0, 3, 1);
      } else {
        perm := Perm(2, 0, 1, 3);
      }
    } else if p2 < p1 {
      if p3 < p1 {
        perm := Perm(0, 2, 3, 1);
      } else {
        perm := Perm(0, 2, 1, 3);
      }
    } else {
      perm := Perm(0, 1, 2, 3);
    }
  }

  method OrderPairs(a: array<PermIdx>, o: nat) returns (ghost swaps: Perm)
    requires o + 4 <= a.Length
    modifies a
    ensures OthersKept(old(a[..]), a[..], o, 4) && SwapsPairs(swaps)
    ensures Quad(a[..], o) == Permuted(Quad(old(a[..]), o), swaps)
    ensures a[o].skey <= a[o + 1].skey && a[o + 2].skey <= a[o + 3].skey
  {
    swaps := Perm(0, 1, 2, 3);
    if a[o + 1].skey < a[o].skey {
      SwapPi(a, o, o + 1);
      swaps := Perm(1, 0, 2, 3);
    }
    if a[o + 3].skey < a[o + 2].skey {
      SwapPi(a, o + 2, o + 3);
      swaps := swaps.(c := 3, d := 2);
    }
  }

  /** Applies a permutation in place: single swaps and pairs of swaps as such, the rest by way
      of a temporary. */
  method PornsortApply(a: array<PermIdx>, o: nat, perm: Perm)
    requires o + 4 <= a.Length && IsPerm(perm) && !Aborts(perm)
    modifies a
    ensures OthersKept(old(a[..]), a[..], o, 4) && Quad(a[..], o) == Permuted(Quad(old(a[..]), o), perm)
  {
    if perm == Perm(0, 1, 2, 3) {
    } else if perm == Perm(2, 1, 0, 3) {
      SwapPi(a, o, o + 2);
    } else if perm == Perm(3, 1, 2, 0) {
      SwapPi(a, o, o + 3);
    } else if perm == Perm(0, 2, 1, 3) {
      SwapPi(a, o + 1, o + 2);
    } else if perm == Perm(0, 3, 2, 1) {
      SwapPi(a, o + 1, o + 3);
    } else if perm == Perm(2, 3, 0, 1) {
      SwapPi(a, o, o + 2);
      SwapPi(a, o + 1, o + 3);
    } else if perm == Perm(3, 2, 1, 0) {
      SwapPi(a, o, o + 3);
      SwapPi(a, o + 1, o + 2);
    } else {
      ApplyCycle(a, o, perm);
    }
  }

  /** The default branch. */
  method ApplyCycle(a: array<PermIdx>, o: nat, perm: Perm)
    requires o + 4 <= a.Length && IsPerm(perm)
    modifies a
    ensures OthersKept(old(a[..]), a[..], o, 4) && Quad(a[..], o) == Permuted(Quad(old(a[..]), o), perm)
  {
    ghost var s := Quad(a[..], o);
    var none := PermIdx(0, 0);
    var tmpa := [none, none, none, none];
    if perm.a != 0 {
      tmpa := tmpa[0 := a[o]];
      a[o] := a[o + perm.a];
    }
    assert a[o] == s[perm.a] && a[o + 1] == s[1] && a[o + 2] == s[2] && a[o + 3] == s[3];
    if perm.b != 1 {
      tmpa := tmpa[1 := a[o + 1]];
      a[o + 1] := if perm.b != 0 then a[o + perm.b] else tmpa[0];
    }
    assert a[o] == s[perm.a] && a[o + 1] == s[perm.b] && a[o + 2] == s[2] && a[o + 3] == s[3];
    assert (perm.a != 0 ==> tmpa[0] == s[0]) && (perm.b != 1 ==> tmpa[1] == s[1]);
    if perm.c != 2 {
      tmpa := tmpa[2 := a[o + 2]][3 := a[o + 3]];
      a[o + 2] := tmpa[perm.c];
    }
    assert a[o + 2] == s[perm.c] && a[o + 3] == s[3] && (perm.c != 2 ==> tmpa[2] == s[2]);
    if perm.d != 3 {
      a[o + 3] := tmpa[perm.d];
    }
  }

  lemma PermutedSame(s: seq<PermIdx>, p: Perm)
    requires |s| == 4 && Arises(p)
    ensures multiset(Permuted(s, p)) == multiset(s)
  {
    var r := Permuted(s, p);
    FourInBag(s);
    FourInBag(r);
    AnyOrder(multiset{s[0]}, multiset{s[1]}, multiset{s[2]}, multiset{s[3]});
  }

  lemma PairsSame(s: seq<PermIdx>, p: Perm)
    requires |s| == 4 && SwapsPairs(p)
    ensures multiset(Permuted(s, p)) == multiset(s)
  {
    FourInBag(s);
    FourInBag(Permuted(s, p));
    PairOrder(multiset{s[0]}, multiset{s[1]}, multiset{s[2]}, multiset{s[3]});
  }

  lemma AnyOrder<T>(a: multiset<T>, b: multiset<T>, c: multiset<T>, d: multiset<T>)
    ensures c + d + a + b == a + b + c + d
    ensures c + a + d + b == a + b + c + d
    ensures c + a + b + d == a + b + c + d
    ensures a + c + d + b == a + b + c + d
    ensures a + c + b + d == a + b + c + d
  {
  }

  lemma PairOrder<T>(a: multiset<T>, b: multiset<T>, c: multiset<T>, d: multiset<T>)
    ensures b + a + c + d == a + b + c + d
    ensures a + b + d + c == a + b + c + d
    ensures b + a + d + c == a + b + c + d
  {
  }

  lemma FourInBag(s: seq<PermIdx>)
    requires |s| == 4
    ensures multiset(s) == multiset{s[0]} + multiset{s[1]} + multiset{s[2]} + multiset{s[3]}
  {
    assert s == [s[0]] + [s[1]] + [s[2]] + [s[3]];
  }

  // ---------------------------------------------------------------- merging pairs

  /** Merges two runs of `step` pairs at src into one at tgt. */
  method MergeUp(s: array<PermIdx>, tgt: nat, src: nat, step: nat, max: nat, ghost x: seq<PermIdx>,
                 ghost y: seq<PermIdx>, ghost m: seq<PermIdx>)
    requires step <= max && src + Min(max, 2 * step) <= s.Length && tgt + Min(max, 2 * step) <= s.Length
    requires |m| == Min(max, 2 * step)
    requires tgt + Min(max, 2 * step) <= src || src + Min(max, 2 * step) <= tgt
    requires IsSlice(s[..], src, src + step, x) && IsSlice(s[..], src + step, src + Min(max, 2 * step), y)
    requires IsMerge(Key(), true, x, y, m)
    modifies s
    ensures Filled(old(s[..]), s[..], tgt, m)
  {
    var ei1, ei2 := Min(max, step), Min(max, 2 * step);
    ghost var was := s[..];
    var i, i1, i2, done, x', y' := MergeHeads(s, tgt, src, ei1, ei2, x, y, m);
    SliceOf(was, src + i1, src + ei1, x');
    SliceOf(was, src + i2, src + ei2, y');
    CopyTails(s, tgt, src, i, i1, i2, ei1, ei2, was, done);
    ThreeParts(done, x', y');
  }

  /** The loop that goes on while both runs have elements left. */
  method MergeHeads(s: array<PermIdx>, tgt: nat, src: nat, ei1: nat, ei2: nat, ghost x0: seq<PermIdx>,
                    ghost y0: seq<PermIdx>, ghost m: seq<PermIdx>)
    returns (i: nat, i1: nat, i2: nat, ghost done: seq<PermIdx>, ghost x: seq<PermIdx>, ghost y: seq<PermIdx>)
    requires ei1 <= ei2 && src + ei2 <= s.Length && tgt + ei2 <= s.Length && (tgt + ei2 <= src || src + ei2 <= tgt)
    requires IsSlice(s[..], src, src + ei1, x0) && IsSlice(s[..], src + ei1, src + ei2, y0)
    requires IsMerge(Key(), true, x0, y0, m)
    modifies s
    ensures i1 <= ei1 <= i2 <= ei2 && i == i1 + (i2 - ei1) == |done| && Filled(old(s[..]), s[..], tgt, done)
    ensures IsSlice(old(s[..]), src + i1, src + ei1, x) && IsSlice(old(s[..]), src + i2, src + ei2, y)
    ensures done + (x + y) == m
  {
    ghost var was := s[..];
    i, i1, i2 := 0, 0, ei1;
    ghost var rest := m;
    done, x, y := [], x0, y0;
    FilledNothing(was, tgt);
    while i1 < ei1 && i2 < ei2
      invariant i1 <= ei1 <= i2 <= ei2 && i == i1 + (i2 - ei1) == |done| && Filled(was, s[..], tgt, done)
      invariant IsSlice(was, src + i1, src + ei1, x) && IsSlice(was, src + i2, src + ei2, y)
      invariant IsMerge(Key(), true, x, y, rest) && done + rest == m
      decreases ei1 - i1 + ei2 - i2
    {
      ghost var v, x', y', rest' := MergeAdvance(Key(), true, x, y, rest);
      var first := Emit(s, tgt, i, src + i1, src + i2, src + ei1, src + ei2, was, done, x, y, v);
      if first {
        i1 := i1 + 1;
      } else {
        i2 := i2 + 1;
      }
      HeadTail(done, v, rest);
      done, rest, x, y := done + [v], rest', x', y';
      i := i + 1;
    }
    MergeEnds(Key(), true, x, y, rest);
  }

  /** Copies the smaller of two heads, or the second one if they are equal. */
  method Emit(s: array<PermIdx>, tgt: nat, i: nat, h1: nat, h2: nat, ghost e1: nat, ghost e2: nat,
              ghost was: seq<PermIdx>, ghost done: seq<PermIdx>, ghost x: seq<PermIdx>, ghost y: seq<PermIdx>,
              ghost v: PermIdx) returns (first: bool)
    requires |done| == i && tgt + i < s.Length && h1 < e1 <= h2 < e2 <= s.Length && (e2 <= tgt || tgt + i <= h1)
    requires Filled(was, s[..], tgt, done) && IsSlice(was, h1, e1, x) && IsSlice(was, h2, e2, y)
    requires v == if TakeFirst(Key(), true, x[0], y[0]) then x[0] else y[0]
    modifies s
    ensures Filled(was, s[..], tgt, done + [v]) && first == TakeFirst(Key(), true, x[0], y[0])
    ensures if first then IsSlice(was, h1 + 1, e1, x[1..]) else IsSlice(was, h2 + 1, e2, y[1..])
  {
    FilledRead(was, s[..], tgt, done, h1);
    FilledRead(was, s[..], tgt, done, h2);
    SliceHead(was, h1, e1, x);
    SliceHead(was, h2, e2, y);
    FilledPut(was, s[..], tgt, done, v);
    first := s[h1].skey < s[h2].skey;
    s[tgt + i] := s[if first then h1 else h2];
  }

  lemma HeadTail<T>(done: seq<T>, v: T, rest: seq<T>)
    requires rest != [] && rest[0] == v
    ensures done + [v] + rest[1..] == done + rest
  {
  }

  /** The loops that copy what is left of either run. */
  method CopyTails(s: array<PermIdx>, tgt: nat, src: nat, i: nat, i1: nat, i2: nat, ei1: nat, ei2: nat,
                   ghost was: seq<PermIdx>, ghost done: seq<PermIdx>)
    requires i1 <= ei1 <= i2 <= ei2 && i == i1 + (i2 - ei1) == |done|
    requires src + ei2 <= s.Length && tgt + ei2 <= s.Length && (tgt + ei2 <= src || src + ei2 <= tgt)
    requires Filled(was, s[..], tgt, done)
    modifies s
    ensures Filled(was, s[..], tgt, done + was[src + i1..src + ei1] + was[src + i2..src + ei2])
  {
    ghost var mid := s[..];
    CopyRun(s, tgt + i, src + i1, ei1 - i1);
    FilledCopy(was, mid, s[..], tgt, done, src + i1, src + ei1);
    ghost var done' := done + was[src + i1..src + ei1];
    mid := s[..];
    CopyRun(s, tgt + i + (ei1 - i1), src + i2, ei2 - i2);
    FilledCopy(was, mid, s[..], tgt, done', src + i2, src + ei2);
  }

  method CopyRun(s: array<PermIdx>, to: nat, from: nat, n: nat)
    requires from + n <= s.Length && to + n <= s.Length && (to + n <= from || from + n <= to)
    modifies s
    ensures Filled(old(s[..]), s[..], to, old(s[..])[from..from + n])
  {
    ghost var was := s[..];
    FilledNothing(was, to);
    for i := 0 to n
      invariant Filled(was, s[..], to, was[from..from + i])
    {
      FilledRead(was, s[..], to, was[from..from + i], from + i);
      FilledPut(was, s[..], to, was[from..from + i], s[from + i]);
      assert was[from..from + i] + [was[from + i]] == was[from..from + (i + 1)];
      s[to + i] := s[from + i];
    }
  }

  // ---------------------------------------------------------------- all rounds

  ghost predicate RunsOf(runs: seq<seq<PermIdx>>, step: nat) {
    AllSorted(Key(), runs) && forall i {:trigger runs[i]} :: 0 <= i < |runs| ==> |runs[i]| == step
  }

  lemma {:induction false} PairwiseRuns(runs: seq<seq<PermIdx>>, step: nat)
    requires RunsOf(runs, step) && |runs| % 2 == 0
    ensures RunsOf(Pairwise(Key(), true, runs), 2 * step) && |Pairwise(Key(), true, runs)| == |runs| / 2
    ensures |Flat(Pairwise(Key(), true, runs))| == |Flat(runs)|
    decreases |runs|
  {
    PairwiseSorted(Key(), true, runs);
    if |runs| > 1 {
      MergeLength(Key(), true, runs[0], runs[1]);
      PairwiseRuns(runs[2..], step);
      var r := Pairwise(Key(), true, runs);
      assert r[1..] == Pairwise(Key(), true, runs[2..]);
      assert forall i {:trigger r[i]} :: 0 < i < |r| ==> r[i] == r[1..][i - 1];
      FlatTwo(runs);
    }
  }

  /** Merging the runs in `rest`, found from a to b, pair by pair, gives todo; seen when todo is shown. */
  ghost predicate Round(s: seq<PermIdx>, a: nat, b: nat, step: nat, rest: seq<seq<PermIdx>>, todo: seq<PermIdx>) {
    forall u {:trigger Shown(u)} :: Shown(u) && u == todo ==>
      RunsOf(rest, step) && |rest| % 2 == 0 && IsSlice(s, a, b, Flat(rest)) && u == Flat(Pairwise(Key(), true, rest))
  }

  /** The next two runs x and y, what they merge to, and what is left to do. */
  lemma RoundStep(s: seq<PermIdx>, a: nat, b: nat, step: nat, rest: seq<seq<PermIdx>>, todo: seq<PermIdx>)
    returns (x: seq<PermIdx>, y: seq<PermIdx>, m: seq<PermIdx>, todo': seq<PermIdx>)
    requires Round(s, a, b, step, rest, todo) && a < b
    ensures a + 2 * step <= b && IsSlice(s, a, a + step, x) && IsSlice(s, a + step, a + 2 * step, y)
    ensures IsMerge(Key(), true, x, y, m) && |m| == 2 * step
    ensures todo == m + todo' && |rest| >= 2 && Round(s, a + 2 * step, b, step, rest[2..], todo')
  {
    assert Shown(todo);
    SliceOf(s, a, b, Flat(rest));
    FlatTwo(rest);
    x, y := rest[0], rest[1];
    m, todo' := Merge(Key(), true, x, y), Flat(Pairwise(Key(), true, rest[2..]));
    TwoSlices(s, a, b, x, y, Flat(rest[2..]));
    var p := Pairwise(Key(), true, rest);
    assert p[1..] == Pairwise(Key(), true, rest[2..]);
    MergeLength(Key(), true, x, y);
  }

  lemma TwoSlices(s: seq<PermIdx>, a: nat, b: nat, x: seq<PermIdx>, y: seq<PermIdx>, z: seq<PermIdx>)
    requires a <= b <= |s| && s[a..b] == x + y + z
    ensures IsSlice(s, a, a + |x|, x) && IsSlice(s, a + |x|, a + |x| + |y|, y) && IsSlice(s, a + |x| + |y|, b, z)
  {
    var t := s[a..b];
    Subslice(s, a, b, 0, |x|);
    Subslice(s, a, b, |x|, |x| + |y|);
    Subslice(s, a, b, |x| + |y|, |t|);
    assert t[..|x|] == x && t[|x|..|x| + |y|] == y && t[|x| + |y|..] == z;
    SliceOf(s, a, a + |x|, x);
    SliceOf(s, a + |x|, a + |x| + |y|, y);
    SliceOf(s, a + |x| + |y|, b, z);
  }

  lemma Subslice<T>(s: seq<T>, a: nat, b: nat, i: nat, j: nat)
    requires a <= b <= |s| && i <= j <= b - a
    ensures s[a..b][i..j] == s[a + i..a + j]
  {
    forall k | 0 <= k < j - i ensures s[a..b][i..j][k] == s[a + i..a + j][k] {}
  }

  lemma RoundEnd(s: seq<PermIdx>, a: nat, step: nat, rest: seq<seq<PermIdx>>, todo: seq<PermIdx>)
    requires Round(s, a, a, step, rest, todo) && step > 0
    ensures todo == []
  {
    assert Shown(todo);
    NoRunsLeft(rest, step);
  }

  lemma NoRunsLeft(rest: seq<seq<PermIdx>>, step: nat)
    requires RunsOf(rest, step) && step > 0 && |Flat(rest)| == 0
    ensures rest == [] && Flat(Pairwise(Key(), true, rest)) == []
  {
  }

  /** Merges neighbouring runs of `step` pairs at src into runs of twice the size at tgt. */
  method MergeRound(s: array<PermIdx>, tgt: nat, src: nat, step: nat, n: nat, ghost runs: seq<seq<PermIdx>>,
                    ghost goal: seq<PermIdx>)
    requires step > 0 && src + n <= s.Length && tgt + n <= s.Length && (tgt + n <= src || src + n <= tgt)
    requires Round(s[..], src, src + n, step, runs, goal) && |goal| == n
    modifies s
    ensures Filled(old(s[..]), s[..], tgt, goal)
  {
    ghost var was := s[..];
    ghost var done, rest, todo := [], runs, goal;
    FilledNothing(was, tgt);
    var i := 0;
    while i < n
      invariant i <= n && MidMerge(was, s[..], tgt, src, i, n, step, done, rest, todo, goal)
      decreases n - i
    {
      done, rest, todo := MergePair(s, tgt, src, i, step, n, was, done, rest, todo, goal);
      i := i + 2 * step;
    }
    RoundEnd(was, src + n, step, rest, todo);
    assert done + [] == done;
  }

  /** Between two pairs of runs: i elements are merged at tgt, the rest is still to come. */
  ghost predicate MidMerge(was: seq<PermIdx>, now: seq<PermIdx>, tgt: nat, src: nat, i: nat, n: nat, step: nat,
                           done: seq<PermIdx>, rest: seq<seq<PermIdx>>, todo: seq<PermIdx>, goal: seq<PermIdx>) {
    && i == |done| && Filled(was, now, tgt, done)
    && Round(was, src + i, src + n, step, rest, todo) && done + todo == goal
  }

  method MergePair(s: array<PermIdx>, tgt: nat, src: nat, i: nat, step: nat, n: nat, ghost was: seq<PermIdx>,
                   ghost done: seq<PermIdx>, ghost rest: seq<seq<PermIdx>>, ghost todo: seq<PermIdx>,
                   ghost goal: seq<PermIdx>)
    returns (ghost done': seq<PermIdx>, ghost rest': seq<seq<PermIdx>>, ghost todo': seq<PermIdx>)
    requires step > 0 && src + n <= s.Length && tgt + n <= s.Length && (tgt + n <= src || src + n <= tgt) && i < n
    requires MidMerge(was, s[..], tgt, src, i, n, step, done, rest, todo, goal)
    modifies s
    ensures i + 2 * step <= n && MidMerge(was, s[..], tgt, src, i + 2 * step, n, step, done', rest', todo', goal)
  {
    ghost var now := s[..];
    ghost var x, y, m;
    x, y, m, todo' := RoundStep(was, src + i, src + n, step, rest, todo);
    FilledKeepsSlice(was, now, tgt, done, src + i, src + i + step, x);
    FilledKeepsSlice(was, now, tgt, done, src + i + step, src + i + 2 * step, y);
    MergeUp(s, tgt + i, src + i, step, n, x, y, m);
    FilledMore(was, now, s[..], tgt, done, m);
    ThreeParts(done, m, todo');
    done', rest' := done + m, rest[2..];
  }

  predicate PowerOfTwo(n: nat) { n == 1 || n == 2 || n == 4 || n == 8 || n == 16 || n == 32 || n == 64 }

  /** The state between two rounds: the runs are sorted and together what they were. */
  ghost predicate Sorting(s: seq<PermIdx>, src: nat, n: nat, step: nat, runs: seq<seq<PermIdx>>,
                          bag: multiset<PermIdx>) {
    && IsSlice(s, src, src + n, Flat(runs)) && RunsOf(runs, step) && PowerOfTwo(|runs|) && multiset(Flat(runs)) == bag
  }

  /** What a round is about to do. */
  lemma RoundAhead(s: seq<PermIdx>, src: nat, n: nat, step: nat, runs: seq<seq<PermIdx>>, bag: multiset<PermIdx>)
    returns (goal: seq<PermIdx>, runs': seq<seq<PermIdx>>)
    requires Sorting(s, src, n, step, runs, bag) && 0 < step < n
    ensures Round(s, src, src + n, step, runs, goal) && |goal| == n
    ensures goal == Flat(runs') && RunsOf(runs', 2 * step) && PowerOfTwo(|runs'|) && multiset(goal) == bag
  {
    if |runs| == 1 {
      SingleRun(runs, step);
      assert false;
    }
    PairwiseRuns(runs, step);
    PairwiseMultiset(Key(), true, runs);
    runs' := Pairwise(Key(), true, runs);
    goal := Flat(runs');
  }

  lemma LastRun(s: seq<PermIdx>, src: nat, n: nat, step: nat, runs: seq<seq<PermIdx>>, bag: multiset<PermIdx>)
    requires Sorting(s, src, n, step, runs, bag) && n <= step && step > 0
    ensures SortedPairs(Flat(runs))
  {
    if |runs| >= 2 {
      FlatTwo(runs);
    }
    SingleRun(runs, step);
  }

  lemma SingleRun(runs: seq<seq<PermIdx>>, step: nat)
    requires RunsOf(runs, step) && |runs| == 1
    ensures Flat(runs) == runs[0] && |Flat(runs)| == step
  {
    FlatOne(runs[0]);
    assert runs == [runs[0]];
  }

  /** Rounds with runs of 4, 8, 16, ... pairs, from one half of the scratch to the other and
      back; the result is moved to the first half if it ended up in the second. */
  method MergeAll(s: array<PermIdx>, nticks: nat, ghost runs0: seq<seq<PermIdx>>, ghost bag: multiset<PermIdx>)
    returns (ghost r: seq<PermIdx>)
    requires s.Length == 2 * IDXSORT_SIZE && nticks <= IDXSORT_SIZE && Sorting(s[..], 0, nticks, 4, runs0, bag)
    modifies s
    ensures IsSlice(s[..], 0, nticks, r) && SortedPairs(r) && multiset(r) == bag
  {
    var src, tgt, step := 0, IDXSORT_SIZE, 4;
    ghost var runs := runs0;
    while step < nticks
      invariant (src == 0 && tgt == IDXSORT_SIZE) || (src == IDXSORT_SIZE && tgt == 0)
      invariant step > 0 && Sorting(s[..], src, nticks, step, runs, bag)
      decreases nticks - step
    {
      ghost var was := s[..];
      ghost var goal, runs' := RoundAhead(s[..], src, nticks, step, runs, bag);
      MergeRound(s, tgt, src, step, nticks, runs, goal);
      FilledSlice(was, s[..], tgt, goal);
      SliceOf(s[..], tgt, tgt + nticks, goal);
      if src < tgt {
        tgt := 0;
        src := tgt + IDXSORT_SIZE;
      } else {
        src := 0;
        tgt := src + IDXSORT_SIZE;
      }
      step := 2 * step;
      runs := runs';
    }
    r := Flat(runs);
    LastRun(s[..], src, nticks, step, runs, bag);
    if tgt < src {
      ghost var was := s[..];
      CopyRun(s, tgt, src, IDXSORT_SIZE);
      MovedDown(was, s[..], tgt, src, nticks, r);
    }
  }

  lemma MovedDown(was: seq<PermIdx>, now: seq<PermIdx>, tgt: nat, src: nat, n: nat, r: seq<PermIdx>)
    requires src + IDXSORT_SIZE <= |was| && n <= IDXSORT_SIZE && Filled(was, now, tgt, was[src..src + IDXSORT_SIZE])
    requires IsSlice(was, src, src + n, r)
    ensures IsSlice(now, tgt, tgt + n, r)
  {
    forall k: nat {:trigger SliceAt(now, tgt, r, k)} | k < |r| ensures SliceAt(now, tgt, r, k) {
      assert SliceAt(was, src, r, k) && FilledAt(was, now, tgt, was[src..src + IDXSORT_SIZE], tgt + k);
    }
  }

  // ---------------------------------------------------------------- groups of four

  /** pornsort_perm and pornsort_apply on one group. */
  method PornsortFour(s: array<PermIdx>, o: nat) returns (ghost q: seq<PermIdx>)
    requires o + 4 <= s.Length
    modifies s
    ensures Filled(old(s[..]), s[..], o, q) && |q| == 4 && SortedPairs(q)
    ensures multiset(q) == multiset(Quad(old(s[..]), o))
  {
    ghost var was := s[..];
    var perm, swaps := PornsortPerm(s, o);
    ghost var mid := s[..];
    PornsortApply(s, o, perm);
    q := Quad(s[..], o);
    FourDone(was, mid, s[..], o, swaps, perm);
  }

  lemma FourDone(was: seq<PermIdx>, mid: seq<PermIdx>, now: seq<PermIdx>, o: nat, swaps: Perm, perm: Perm)
    requires o + 4 <= |was| && OthersKept(was, mid, o, 4) && OthersKept(mid, now, o, 4) && SwapsPairs(swaps)
    requires Arises(perm)
    requires Quad(mid, o) == Permuted(Quad(was, o), swaps) && Quad(now, o) == Permuted(Quad(mid, o), perm)
    requires var r := Permuted(Quad(mid, o), perm); r[0].skey <= r[1].skey <= r[2].skey <= r[3].skey
    ensures var q := Quad(now, o); Filled(was, now, o, q) && SortedPairs(q) && multiset(q) == multiset(Quad(was, o))
  {
    var q := Quad(now, o);
    PairsSame(Quad(was, o), swaps);
    PermutedSame(Quad(mid, o), perm);
    FourFilled(was, mid, now, o);
    QuadSorted(q);
  }

  lemma QuadSorted(q: seq<PermIdx>)
    requires |q| == 4 && q[0].skey <= q[1].skey <= q[2].skey <= q[3].skey
    ensures SortedPairs(q)
  {
    SortedFrom(Key(), q);
  }

  lemma FourFilled(was: seq<PermIdx>, mid: seq<PermIdx>, now: seq<PermIdx>, o: nat)
    requires o + 4 <= |was| && OthersKept(was, mid, o, 4) && OthersKept(mid, now, o, 4)
    ensures Filled(was, now, o, Quad(now, o))
  {
    var q := Quad(now, o);
    forall j: nat {:trigger FilledAt(was, now, o, q, j)} | j < |was| ensures FilledAt(was, now, o, q, j) {
      assert !(o <= j < o + 4) ==> now[j] == mid[j] == was[j];
    }
  }

  /** Sorts the groups of four that hold the first nsc pairs. */
  method PornsortGroups(s: array<PermIdx>, nsc: nat, m: nat)
    returns (ghost runs: seq<seq<PermIdx>>, ghost done: seq<PermIdx>)
    requires m % 4 == 0 && nsc <= m <= s.Length
    modifies s
    ensures Filled(old(s[..]), s[..], 0, done) && done == Flat(runs) && RunsOf(runs, 4)
    ensures nsc <= |done| == 4 * |runs| <= m && multiset(done) == multiset(old(s[..])[..|done|])
  {
    ghost var was := s[..];
    runs, done := [], [];
    FilledNothing(was, 0);
    var i := 0;
    while i < nsc
      invariant i % 4 == 0 && i <= m && GroupsDone(was, s[..], i, runs, done)
    {
      runs, done := NextGroup(s, i, was, runs, done);
      i := i + 4;
    }
  }

  /** The first i pairs are in groups of four, each in order. */
  ghost predicate GroupsDone(was: seq<PermIdx>, now: seq<PermIdx>, i: nat, runs: seq<seq<PermIdx>>,
                             done: seq<PermIdx>) {
    && 4 * |runs| == i == |done| <= |was| && RunsOf(runs, 4) && done == Flat(runs)
    && Filled(was, now, 0, done) && multiset(done) == multiset(was[..i])
  }

  method NextGroup(s: array<PermIdx>, i: nat, ghost was: seq<PermIdx>, ghost runs: seq<seq<PermIdx>>,
                   ghost done: seq<PermIdx>)
    returns (ghost runs': seq<seq<PermIdx>>, ghost done': seq<PermIdx>)
    requires i + 4 <= s.Length && |was| == s.Length && GroupsDone(was, s[..], i, runs, done)
    modifies s
    ensures GroupsDone(was, s[..], i + 4, runs', done')
  {
    ghost var now := s[..];
    var q := PornsortFour(s, i);
    FilledMore(was, now, s[..], 0, done, q);
    OneMoreQuad(was, now, i, done, q, runs);
    runs', done' := runs + [q], done + q;
  }

  /** The same, when the other pairs up to m are zeros. */
  method PornsortAll(s: array<PermIdx>, nsc: nat, m: nat) returns (ghost runs: seq<seq<PermIdx>>)
    requires m % 4 == 0 && nsc <= m <= s.Length
    requires forall k {:trigger s[k]} :: nsc <= k < m ==> s[k] == PermIdx(0, 0)
    modifies s
    ensures IsSlice(s[..], 0, m, Flat(runs)) && RunsOf(runs, 4) && 4 * |runs| == m
    ensures multiset(Flat(runs)) == multiset(old(s[..])[..m])
  {
    ghost var was := s[..];
    ghost var done;
    runs, done := PornsortGroups(s, nsc, m);
    ghost var zeros := ZeroRuns(was[|done|..m]);
    FlatConcat(runs, zeros);
    Remaining(was, s[..], |done|, m, done, zeros);
    runs := runs + zeros;
  }

  lemma OneMoreQuad(was: seq<PermIdx>, now: seq<PermIdx>, i: nat, done: seq<PermIdx>, q: seq<PermIdx>,
                    runs: seq<seq<PermIdx>>)
    requires Filled(was, now, 0, done) && |done| == i && i + 4 <= |was| && multiset(done) == multiset(was[..i])
    requires |q| == 4 && SortedPairs(q) && multiset(q) == multiset(Quad(now, i)) && RunsOf(runs, 4)
    requires done == Flat(runs)
    ensures multiset(done + q) == multiset(was[..i + 4]) && RunsOf(runs + [q], 4) && Flat(runs + [q]) == done + q
  {
    FilledBeside(was, now, 0, done, i, i + 4);
    QuadIsSlice(now, i);
    BagGrows(was, i, done, q);
    OneMoreRun(runs, q, 4);
  }

  lemma QuadIsSlice(s: seq<PermIdx>, i: nat)
    requires i + 4 <= |s|
    ensures Quad(s, i) == s[i..i + 4]
  {
  }

  lemma BagGrows(was: seq<PermIdx>, i: nat, done: seq<PermIdx>, q: seq<PermIdx>)
    requires i + 4 <= |was| && multiset(done) == multiset(was[..i]) && multiset(q) == multiset(was[i..i + 4])
    ensures multiset(done + q) == multiset(was[..i + 4])
  {
    assert was[..i + 4] == was[..i] + was[i..i + 4];
  }

  lemma OneMoreRun(runs: seq<seq<PermIdx>>, q: seq<PermIdx>, n: nat)
    requires RunsOf(runs, n) && |q| == n && SortedPairs(q)
    ensures RunsOf(runs + [q], n) && Flat(runs + [q]) == Flat(runs) + q
  {
    FlatConcat(runs, [q]);
    FlatOne(q);
    var u := runs + [q];
    assert forall i {:trigger u[i]} :: 0 <= i < |runs| ==> u[i] == runs[i];
  }

  /** Zeros in groups of four. */
  lemma {:induction false} ZeroRuns(z: seq<PermIdx>) returns (runs: seq<seq<PermIdx>>)
    requires |z| % 4 == 0 && forall k {:trigger z[k]} :: 0 <= k < |z| ==> z[k] == PermIdx(0, 0)
    ensures RunsOf(runs, 4) && Flat(runs) == z && 4 * |runs| == |z|
    decreases |z|
  {
    if z == [] {
      runs := [];
    } else {
      var rest := ZeroRuns(z[4..]);
      SortedFrom(Key(), z[..4]);
      runs := [z[..4]] + rest;
      assert runs[1..] == rest && z == z[..4] + z[4..];
    }
  }

  lemma Remaining(was: seq<PermIdx>, now: seq<PermIdx>, i: nat, m: nat, done: seq<PermIdx>, zeros: seq<seq<PermIdx>>)
    requires Filled(was, now, 0, done) && |done| == i <= m <= |was| && Flat(zeros) == was[i..m]
    requires multiset(done) == multiset(was[..i])
    ensures IsSlice(now, 0, m, done + Flat(zeros)) && multiset(done + Flat(zeros)) == multiset(was[..m])
  {
    FilledSlice(was, now, 0, done);
    FilledBeside(was, now, 0, done, i, m);
    assert now[..m] == now[..i] + now[i..m] && was[..m] == was[..i] + was[i..m];
    SliceOf(now, 0, m, done + Flat(zeros));
  }
}
