/** Merging of sorted sequences by an integer key. */
module Merging {

  ghost predicate AllFrom<T(!new)>(key: T -> int, s: seq<T>, k: int) {
    forall i {:trigger s[i]} :: 0 <= i < |s| ==> k <= key(s[i])
  }

  ghost predicate Sorted<T(!new)>(key: T -> int, s: seq<T>) {
    s != [] ==> AllFrom(key, s[1..], key(s[0])) && Sorted(key, s[1..])
  }

  /** Sortedness position by position. */
  lemma {:induction false} SortedAt<T(!new)>(key: T -> int, s: seq<T>, i: nat, j: nat)
    requires Sorted(key, s) && i <= j < |s|
    ensures key(s[i]) <= key(s[j])
    decreases |s|
  {
    if i > 0 {
      SortedAt(key, s[1..], i - 1, j - 1);
    } else if j > 0 {
      assert s[1..][j - 1] == s[j];
    }
  }

  lemma {:induction false} SortedFrom<T(!new)>(key: T -> int, s: seq<T>)
    requires forall i, j :: 0 <= i <= j < |s| ==> key(s[i]) <= key(s[j])
    ensures Sorted(key, s)
    decreases |s|
  {
    if s != [] {
      SortedFrom(key, s[1..]);
    }
  }

  /** The merge of a and b. If keys are equal the element of a goes first, or that of b if
      strict. */
  function Merge<T>(key: T -> int, strict: bool, a: seq<T>, b: seq<T>): seq<T>
    decreases |a| + |b|
  {
    if a == [] then b
    else if b == [] then a
    else if TakeFirst(key, strict, a[0], b[0]) then [a[0]] + Merge(key, strict, a[1..], b)
    else [b[0]] + Merge(key, strict, a, b[1..])
  }

  function TakeFirst<T>(key: T -> int, strict: bool, x: T, y: T): bool {
    if strict then key(x) < key(y) else key(x) <= key(y)
  }

  lemma {:induction false} MergeFrom<T(!new)>(key: T -> int, strict: bool, a: seq<T>, b: seq<T>, k: int)
    requires AllFrom(key, a, k) && AllFrom(key, b, k)
    ensures AllFrom(key, Merge(key, strict, a, b), k) && |Merge(key, strict, a, b)| == |a| + |b|
    decreases |a| + |b|
  {
    if a != [] && b != [] {
      var m := Merge(key, strict, a, b);
      if TakeFirst(key, strict, a[0], b[0]) {
        MergeFrom(key, strict, a[1..], b, k);
      } else {
        MergeFrom(key, strict, a, b[1..], k);
      }
      assert forall i {:trigger m[i]} :: 0 < i < |m| ==> m[i] == m[1..][i - 1];
    }
  }

  lemma {:induction false} MergeSorted<T(!new)>(key: T -> int, strict: bool, a: seq<T>, b: seq<T>)
    requires Sorted(key, a) && Sorted(key, b)
    ensures Sorted(key, Merge(key, strict, a, b))
    decreases |a| + |b|
  {
    if a != [] && b != [] {
      var m := Merge(key, strict, a, b);
      if TakeFirst(key, strict, a[0], b[0]) {
        MergeSorted(key, strict, a[1..], b);
        FromHead(key, b, key(a[0]));
        MergeFrom(key, strict, a[1..], b, key(a[0]));
        assert m[1..] == Merge(key, strict, a[1..], b);
      } else {
        MergeSorted(key, strict, a, b[1..]);
        FromHead(key, a, key(b[0]));
        MergeFrom(key, strict, a, b[1..], key(b[0]));
        assert m[1..] == Merge(key, strict, a, b[1..]);
      }
    }
  }

  lemma FromHead<T(!new)>(key: T -> int, s: seq<T>, k: int)
    requires Sorted(key, s) && (s != [] ==> k <= key(s[0]))
    ensures AllFrom(key, s, k)
  {
    forall i {:trigger s[i]} | 0 <= i < |s| ensures k <= key(s[i]) {
      SortedAt(key, s, 0, i);
    }
  }

  lemma {:induction false} MergeMultiset<T>(key: T -> int, strict: bool, a: seq<T>, b: seq<T>)
    ensures multiset(Merge(key, strict, a, b)) == multiset(a) + multiset(b)
    decreases |a| + |b|
  {
    if a != [] && b != [] {
      assert a == [a[0]] + a[1..] && b == [b[0]] + b[1..];
      if TakeFirst(key, strict, a[0], b[0]) {
        MergeMultiset(key, strict, a[1..], b);
      } else {
        MergeMultiset(key, strict, a, b[1..]);
      }
    }
  }

  lemma MergeLength<T(!new)>(key: T -> int, strict: bool, a: seq<T>, b: seq<T>)
    ensures |Merge(key, strict, a, b)| == |a| + |b|
  {
    MergeMultiset(key, strict, a, b);
    assert |multiset(Merge(key, strict, a, b))| == |multiset(a)| + |multiset(b)|;
  }

  /** Marks a sequence whose make-up a proof looks into. */
  ghost predicate Shown<T(!new)>(s: seq<T>) { true }

  /** m is the merge of a and b, which comes to light when m is shown. */
  ghost predicate IsMerge<T(!new)>(key: T -> int, strict: bool, a: seq<T>, b: seq<T>, m: seq<T>) {
    forall u {:trigger Shown(u)} :: Shown(u) && u == m ==> u == Merge(key, strict, a, b)
  }

  /** The next element v of a merge and what is left of it and its two parts. */
  lemma MergeAdvance<T(!new)>(key: T -> int, strict: bool, a: seq<T>, b: seq<T>, m: seq<T>)
    returns (v: T, a': seq<T>, b': seq<T>, m': seq<T>)
    requires a != [] && b != [] && IsMerge(key, strict, a, b, m)
    ensures m != [] && m[0] == v && m' == m[1..] && IsMerge(key, strict, a', b', m')
    ensures TakeFirst(key, strict, a[0], b[0]) ==> v == a[0] && a' == a[1..] && b' == b
    ensures !TakeFirst(key, strict, a[0], b[0]) ==> v == b[0] && a' == a && b' == b[1..]
  {
    assert Shown(m);
    if TakeFirst(key, strict, a[0], b[0]) {
      v, a', b' := a[0], a[1..], b;
    } else {
      v, a', b' := b[0], a, b[1..];
    }
    m' := m[1..];
  }

  lemma MergeEnds<T(!new)>(key: T -> int, strict: bool, a: seq<T>, b: seq<T>, m: seq<T>)
    requires IsMerge(key, strict, a, b, m) && (a == [] || b == [])
    ensures m == a + b
  {
    assert Shown(m);
  }

  // ---------------------------------------------------------------- permutations

  lemma MemberAt<T>(s: seq<T>, x: T) returns (i: nat)
    requires x in multiset(s)
    ensures i < |s| && s[i] == x
  {
    i :| 0 <= i < |s| && s[i] == x;
  }

  lemma MultisetTail<T>(s: seq<T>)
    requires s != []
    ensures multiset(s[1..]) == multiset(s) - multiset{s[0]}
    ensures multiset(s) == multiset(s[1..]) + multiset{s[0]}
  {
    assert s == [s[0]] + s[1..];
  }

  function Mapped<T, U>(f: T -> U, s: seq<T>): (r: seq<U>)
    ensures |r| == |s| && forall i {:trigger r[i]} :: 0 <= i < |s| ==> r[i] == f(s[i])
  {
    seq(|s|, i requires 0 <= i < |s| => f(s[i]))
  }

  lemma MappedSplit<T, U>(f: T -> U, l: seq<T>, x: T, r: seq<T>)
    ensures Mapped(f, l + [x] + r) == Mapped(f, l) + [f(x)] + Mapped(f, r)
  {
  }

  lemma MappedConcat<T, U>(f: T -> U, l: seq<T>, r: seq<T>)
    ensures Mapped(f, l + r) == Mapped(f, l) + Mapped(f, r)
  {
  }

  /** An element in the middle, taken out. */
  lemma BagWithout<T>(l: seq<T>, x: T, r: seq<T>)
    ensures multiset(l + [x] + r) == multiset(l + r) + multiset{x}
  {
  }

  lemma TakenOut<T>(b: seq<T>, i: nat)
    requires i < |b|
    ensures b == b[..i] + [b[i]] + b[i + 1..]
  {
  }

  /** Mapping two arrangements of the same elements gives two arrangements of the same images. */
  lemma {:induction false} MappedMultiset<T, U>(f: T -> U, a: seq<T>, b: seq<T>)
    requires multiset(a) == multiset(b)
    ensures multiset(Mapped(f, a)) == multiset(Mapped(f, b))
    decreases |a|
  {
    if a == [] {
      assert |multiset(a)| == |multiset(b)|;
    } else {
      MultisetTail(a);
      var i := MemberAt(b, a[0]);
      var l, r := b[..i], b[i + 1..];
      TakenOut(b, i);
      BagWithout(l, a[0], r);
      MappedMultiset(f, a[1..], l + r);
      MappedFirst(f, a);
      MappedSplit(f, l, a[0], r);
      MappedConcat(f, l, r);
      BagWithout(Mapped(f, l), f(a[0]), Mapped(f, r));
    }
  }

  lemma MappedFirst<T, U>(f: T -> U, a: seq<T>)
    requires a != []
    ensures multiset(Mapped(f, a)) == multiset(Mapped(f, a[1..])) + multiset{f(a[0])}
  {
    assert Mapped(f, a) == [f(a[0])] + Mapped(f, a[1..]);
  }

  /** Arrangements of the same pieces are of the same length. */
  lemma {:induction false} FlatBag<T>(a: seq<seq<T>>, b: seq<seq<T>>)
    requires multiset(a) == multiset(b)
    ensures |Flat(a)| == |Flat(b)|
    decreases |a|
  {
    if a == [] {
      assert |multiset(a)| == |multiset(b)|;
    } else {
      assert a[0] in multiset(b);
      var i := MemberAt(b, a[0]);
      var l, r := b[..i], b[i + 1..];
      assert b == l + [b[i]] + r;
      MultisetTail(a);
      FlatBag(a[1..], l + r);
      FlatConcat(l, r);
      FlatConcat(l + [b[i]], r);
      FlatConcat(l, [b[i]]);
      FlatOne(b[i]);
    }
  }

  // ---------------------------------------------------------------- runs

  function Flat<T>(ss: seq<seq<T>>): seq<T> {
    if ss == [] then [] else ss[0] + Flat(ss[1..])
  }

  lemma {:induction false} FlatConcat<T>(a: seq<seq<T>>, b: seq<seq<T>>)
    ensures Flat(a + b) == Flat(a) + Flat(b)
    decreases |a|
  {
    if a == [] {
      assert a + b == b;
    } else {
      assert (a + b)[1..] == a[1..] + b;
      FlatConcat(a[1..], b);
    }
  }

  /** One round of bottom-up merging: neighbouring runs are merged, an odd last one stays. */
  function Pairwise<T>(key: T -> int, strict: bool, runs: seq<seq<T>>): seq<seq<T>> {
    if |runs| <= 1 then runs
    else [Merge(key, strict, runs[0], runs[1])] + Pairwise(key, strict, runs[2..])
  }

  ghost predicate AllSorted<T(!new)>(key: T -> int, runs: seq<seq<T>>) {
    forall i {:trigger runs[i]} :: 0 <= i < |runs| ==> Sorted(key, runs[i])
  }

  lemma {:induction false} PairwiseSorted<T(!new)>(key: T -> int, strict: bool, runs: seq<seq<T>>)
    requires AllSorted(key, runs)
    ensures AllSorted(key, Pairwise(key, strict, runs))
    ensures |Pairwise(key, strict, runs)| == (|runs| + 1) / 2
    decreases |runs|
  {
    if |runs| > 1 {
      MergeSorted(key, strict, runs[0], runs[1]);
      PairwiseSorted(key, strict, runs[2..]);
      var r := Pairwise(key, strict, runs);
      assert forall i {:trigger r[i]} :: 0 < i < |r| ==> r[i] == r[1..][i - 1];
    }
  }

  lemma {:induction false} PairwiseMultiset<T>(key: T -> int, strict: bool, runs: seq<seq<T>>)
    ensures multiset(Flat(Pairwise(key, strict, runs))) == multiset(Flat(runs))
    decreases |runs|
  {
    if |runs| > 1 {
      var r := Pairwise(key, strict, runs);
      MergeMultiset(key, strict, runs[0], runs[1]);
      PairwiseMultiset(key, strict, runs[2..]);
      assert r[1..] == Pairwise(key, strict, runs[2..]);
      FlatTwo(runs);
      assert Flat(runs) == runs[0] + runs[1] + Flat(runs[2..]);
    }
  }

  lemma FlatTwo<T>(runs: seq<seq<T>>)
    requires |runs| >= 2
    ensures Flat(runs) == runs[0] + runs[1] + Flat(runs[2..])
  {
    assert runs[1..][1..] == runs[2..];
  }

  lemma FlatOne<T>(run: seq<T>)
    ensures Flat([run]) == run
  {
    assert [run][1..] == [];
  }

  // ---------------------------------------------------------------- buffers being filled

  /** The buffer `was` with `done` written over it from o on. */
  ghost predicate Filled<T(!new)>(was: seq<T>, now: seq<T>, o: nat, done: seq<T>) {
    && o + |done| <= |was| == |now|
    && forall j: nat {:trigger FilledAt(was, now, o, done, j)} :: j < |was| ==> FilledAt(was, now, o, done, j)
  }

  ghost predicate FilledAt<T(!new)>(was: seq<T>, now: seq<T>, o: nat, done: seq<T>, j: nat)
    requires o + |done| <= |was| == |now| && j < |was|
  {
    now[j] == if o <= j < o + |done| then done[j - o] else was[j]
  }

  lemma FilledRead<T(!new)>(was: seq<T>, now: seq<T>, o: nat, done: seq<T>, j: nat)
    requires Filled(was, now, o, done) && j < |was|
    ensures j < o || o + |done| <= j ==> now[j] == was[j]
  {
    assert FilledAt(was, now, o, done, j);
  }

  lemma FilledPut<T(!new)>(was: seq<T>, now: seq<T>, o: nat, done: seq<T>, v: T)
    requires Filled(was, now, o, done) && o + |done| < |was|
    ensures Filled(was, now[o + |done| := v], o, done + [v])
  {
    var now', done' := now[o + |done| := v], done + [v];
    forall j: nat {:trigger FilledAt(was, now', o, done', j)} | j < |was| ensures FilledAt(was, now', o, done', j) {
      assert FilledAt(was, now, o, done, j);
    }
  }

  lemma FilledMore<T(!new)>(was: seq<T>, now: seq<T>, now': seq<T>, o: nat, done: seq<T>, more: seq<T>)
    requires Filled(was, now, o, done) && Filled(now, now', o + |done|, more)
    ensures Filled(was, now', o, done + more)
  {
    var done' := done + more;
    forall j: nat {:trigger FilledAt(was, now', o, done', j)} | j < |was| ensures FilledAt(was, now', o, done', j) {
      assert FilledAt(was, now, o, done, j) && FilledAt(now, now', o + |done|, more, j);
    }
  }

  /** A slice from beside the filled part copied right behind it. */
  lemma FilledCopy<T(!new)>(was: seq<T>, now: seq<T>, now': seq<T>, o: nat, done: seq<T>, a: nat, b: nat)
    requires Filled(was, now, o, done) && a <= b <= |was| && (b <= o || o + |done| <= a)
    requires Filled(now, now', o + |done|, now[a..b])
    ensures Filled(was, now', o, done + was[a..b])
  {
    var done' := done + was[a..b];
    forall j: nat {:trigger FilledAt(was, now', o, done', j)} | j < |was| ensures FilledAt(was, now', o, done', j) {
      assert FilledAt(was, now, o, done, j) && FilledAt(now, now', o + |done|, now[a..b], j);
      if o + |done| <= j < o + |done'| {
        assert FilledAt(was, now, o, done, a + (j - o - |done|));
      }
    }
  }

  lemma FilledSlice<T(!new)>(was: seq<T>, now: seq<T>, o: nat, done: seq<T>)
    requires Filled(was, now, o, done)
    ensures now[o..o + |done|] == done
  {
    forall k: nat | k < |done| ensures now[o + k] == done[k] {
      assert FilledAt(was, now, o, done, o + k);
    }
  }

  /** What lies beside the filled part is as it was. */
  lemma FilledBeside<T(!new)>(was: seq<T>, now: seq<T>, o: nat, done: seq<T>, a: nat, b: nat)
    requires Filled(was, now, o, done) && a <= b <= |was| && (b <= o || o + |done| <= a)
    ensures now[a..b] == was[a..b]
  {
    forall k: nat | k < b - a ensures now[a..b][k] == was[a..b][k] {
      assert FilledAt(was, now, o, done, a + k);
    }
  }

  lemma FilledNothing<T(!new)>(was: seq<T>, o: nat)
    requires o <= |was|
    ensures Filled(was, was, o, [])
  {
    forall j: nat {:trigger FilledAt(was, was, o, [], j)} | j < |was| ensures FilledAt(was, was, o, [], j) {}
  }

  /** x is what s holds from a to b. */
  ghost predicate IsSlice<T(!new)>(s: seq<T>, a: nat, b: nat, x: seq<T>) {
    a <= b <= |s| && |x| == b - a && forall k: nat {:trigger SliceAt(s, a, x, k)} :: k < |x| ==> SliceAt(s, a, x, k)
  }

  ghost predicate SliceAt<T(!new)>(s: seq<T>, a: nat, x: seq<T>, k: nat)
    requires a + k < |s| && k < |x|
  {
    s[a + k] == x[k]
  }

  lemma SliceOf<T(!new)>(s: seq<T>, a: nat, b: nat, x: seq<T>)
    requires a <= b <= |s|
    ensures IsSlice(s, a, b, x) <==> x == s[a..b]
  {
    if x == s[a..b] {
      forall k: nat {:trigger SliceAt(s, a, x, k)} | k < |x| ensures SliceAt(s, a, x, k) {}
    }
    if IsSlice(s, a, b, x) {
      forall k: nat | k < |x| ensures x[k] == s[a..b][k] {
        assert SliceAt(s, a, x, k);
      }
    }
  }

  /** One element off the front of a slice. */
  lemma SliceHead<T(!new)>(s: seq<T>, a: nat, b: nat, x: seq<T>)
    requires a < b && IsSlice(s, a, b, x)
    ensures x[0] == s[a] && IsSlice(s, a + 1, b, x[1..])
  {
    assert SliceAt(s, a, x, 0);
    forall k: nat {:trigger SliceAt(s, a + 1, x[1..], k)} | k < |x| - 1 ensures SliceAt(s, a + 1, x[1..], k) {
      assert SliceAt(s, a, x, k + 1);
    }
  }

  lemma FilledKeepsSlice<T(!new)>(was: seq<T>, now: seq<T>, o: nat, done: seq<T>, a: nat, b: nat, x: seq<T>)
    requires Filled(was, now, o, done) && IsSlice(was, a, b, x) && (b <= o || o + |done| <= a)
    ensures IsSlice(now, a, b, x)
  {
    forall k: nat {:trigger SliceAt(now, a, x, k)} | k < |x| ensures SliceAt(now, a, x, k) {
      assert SliceAt(was, a, x, k) && FilledAt(was, now, o, done, a + k);
    }
  }
}
