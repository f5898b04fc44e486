/** Sorting and de-duplicating key/value pairs: the bottom-up ping-pong merge sort and the
    normalisation that keeps the last write of every key. */
module KvSort {
  import opened Bytes

  type Key = seq<byte>

  datatype Pair = Pair(key: Key, val: seq<byte>)

  // ----- what sorting and normalising mean

  ghost predicate Sorted(s: seq<Pair>) {
    forall i, j :: 0 <= i < j < |s| ==> Leq(s[i].key, s[j].key)
  }

  ghost predicate Strict(s: seq<Pair>) {
    forall i, j :: 0 <= i < j < |s| ==> Less(s[i].key, s[j].key)
  }

  /** The pairs with one key, in order. */
  ghost function With(s: seq<Pair>, k: Key): seq<Pair> {
    if s == [] then []
    else With(s[..|s| - 1], k) + (if s[|s| - 1].key == k then [s[|s| - 1]] else [])
  }

  /** The same pairs, with equal keys in the same order. */
  ghost predicate StablePerm(s: seq<Pair>, t: seq<Pair>) {
    |s| == |t| && forall k :: With(s, k) == With(t, k)
  }

  /** The value last written for a key. */
  function Last(s: seq<Pair>, k: Key): Option<seq<byte>> {
    if s == [] then None
    else if s[|s| - 1].key == k then Some(s[|s| - 1].val)
    else Last(s[..|s| - 1], k)
  }

  lemma {:induction false} WithConcat(a: seq<Pair>, b: seq<Pair>, k: Key)
    ensures With(a + b, k) == With(a, k) + With(b, k)
    decreases |b|
  {
    if b == [] {
      assert a + b == a;
    } else {
      WithConcat(a, b[..|b| - 1], k);
      assert (a + b)[..|a + b| - 1] == a + b[..|b| - 1];
    }
  }

  lemma {:induction false} LastConcat(a: seq<Pair>, b: seq<Pair>, k: Key)
    ensures Last(a + b, k) == if Last(b, k).Some? then Last(b, k) else Last(a, k)
    decreases |b|
  {
    if b == [] {
      assert a + b == a;
    } else {
      LastConcat(a, b[..|b| - 1], k);
      assert (a + b)[..|a + b| - 1] == a + b[..|b| - 1];
    }
  }

  /** A stable permutation has the same last writes. */
  lemma {:induction false} LastIsLastWith(s: seq<Pair>, k: Key)
    ensures var w := With(s, k);
            Last(s, k) == if w == [] then None else Some(w[|w| - 1].val)
  {
    if s != [] {
      LastIsLastWith(s[..|s| - 1], k);
    }
  }

  /** A stable permutation is a permutation. */
  lemma {:induction false} CountWith(s: seq<Pair>, p: Pair)
    ensures multiset(s)[p] == multiset(With(s, p.key))[p]
  {
    if s != [] {
      var init, last := s[..|s| - 1], s[|s| - 1];
      CountWith(init, p);
      assert s == init + [last];
      assert multiset(s) == multiset(init) + multiset{last};
    }
  }

  lemma StableIsPermutation(s: seq<Pair>, t: seq<Pair>)
    requires StablePerm(s, t)
    ensures multiset(s) == multiset(t)
  {
    forall p: Pair ensures multiset(s)[p] == multiset(t)[p] {
      CountWith(s, p);
      CountWith(t, p);
      assert With(s, p.key) == With(t, p.key);
    }
  }

  // ----- merging

  /** Stable merge: on equal keys the left pair goes first. */
  function Merge(a: seq<Pair>, b: seq<Pair>): (r: seq<Pair>)
    ensures |r| == |a| + |b|
    decreases |a| + |b|
  {
    if a == [] then b
    else if b == [] then a
    else if Leq(a[0].key, b[0].key) then [a[0]] + Merge(a[1..], b)
    else [b[0]] + Merge(a, b[1..])
  }

  ghost predicate AllGeq(s: seq<Pair>, k: Key) {
    forall i :: 0 <= i < |s| ==> Leq(k, s[i].key)
  }

  lemma {:induction false} MergeBound(a: seq<Pair>, b: seq<Pair>, k: Key)
    requires AllGeq(a, k) && AllGeq(b, k)
    ensures AllGeq(Merge(a, b), k)
    decreases |a| + |b|
  {
    hide Leq;
    if a != [] && b != [] {
      if Leq(a[0].key, b[0].key) {
        MergeBound(a[1..], b, k);
      } else {
        MergeBound(a, b[1..], k);
      }
    }
  }

  lemma AboveFirst(s: seq<Pair>, k: Key)
    requires Sorted(s) && s != [] && Leq(k, s[0].key)
    ensures AllGeq(s, k) && Sorted(s[1..])
  {
    hide Less;
    forall i | 0 <= i < |s| ensures Leq(k, s[i].key) {
      LeqTransitive(k, s[0].key, s[i].key);
    }
  }

  lemma {:induction false} MergeSorted(a: seq<Pair>, b: seq<Pair>)
    requires Sorted(a) && Sorted(b)
    ensures Sorted(Merge(a, b))
    decreases |a| + |b|
  {
    hide Less;
    if a != [] && b != [] {
      var x, y := a[0], b[0];
      LessTrichotomy(x.key, y.key);
      if Leq(x.key, y.key) {
        AboveFirst(a, x.key);
        AboveFirst(b, x.key);
        MergeSorted(a[1..], b);
        MergeBound(a[1..], b, x.key);
      } else {
        AboveFirst(a, y.key);
        AboveFirst(b, y.key);
        MergeSorted(a, b[1..]);
        MergeBound(a, b[1..], y.key);
      }
    }
  }

  /** Merging sorted sequences keeps each key's pairs, the left ones first. */
  lemma {:induction false} MergeStable(a: seq<Pair>, b: seq<Pair>, k: Key)
    requires Sorted(a) && Sorted(b)
    ensures With(Merge(a, b), k) == With(a, k) + With(b, k)
    decreases |a| + |b|
  {
    hide Less, Leq, With, Merge, Sorted;
    WithNone(k);
    if a == [] || b == [] {
      MergeEnds(a, b);
      WithConcat(a, b, k);
    } else {
      MergeHead(a, b);
      var x, y := a[0], b[0];
      LessTrichotomy(x.key, y.key);
      LeqSelf(x.key);
      LeqSelf(y.key);
      AboveFirst(a, x.key);
      AboveFirst(b, y.key);
      assert a == [x] + a[1..] && b == [y] + b[1..];
      if Leq(x.key, y.key) {
        MergeStable(a[1..], b, k);
        WithCons(x, a[1..], k);
        WithCons(x, Merge(a[1..], b), k);
        Assoc(if x.key == k then [x] else [], With(a[1..], k), With(b, k));
      } else {
        MergeStable(a, b[1..], k);
        WithCons(y, b[1..], k);
        WithCons(y, Merge(a, b[1..]), k);
        if y.key == k {
          assert Less(k, x.key) by { NotLeq(x.key, y.key); }
          NoneBelow(a, k);
        }
      }
    }
  }

  lemma Assoc(a: seq<Pair>, b: seq<Pair>, c: seq<Pair>)
    ensures a + (b + c) == (a + b) + c
  {
  }

  lemma LeqSelf(k: Key)
    ensures Leq(k, k)
  {
  }

  lemma NotLeq(a: Key, b: Key)
    requires !Leq(a, b)
    ensures Less(b, a) && Leq(b, a)
  {
    LessTrichotomy(a, b);
  }

  lemma WithNone(k: Key)
    ensures With([], k) == []
  {
  }

  lemma WithCons(p: Pair, s: seq<Pair>, k: Key)
    ensures With([p] + s, k) == (if p.key == k then [p] else []) + With(s, k)
  {
    WithConcat([p], s, k);
    assert [p][..0] == [];
    assert With([p], k) == if p.key == k then [p] else [];
  }

  lemma {:induction false} NoneBelow(s: seq<Pair>, k: Key)
    requires Sorted(s) && s != [] && Less(k, s[0].key)
    ensures With(s, k) == []
  {
    hide Less;
    LessTrichotomy(k, s[|s| - 1].key);
    if |s| > 1 {
      LeqTransitive(k, s[0].key, s[|s| - 1].key);
      NoneBelow(s[..|s| - 1], k);
    }
  }

  // ----- one pass over runs of a given width

  function Min(a: nat, b: nat): nat {
    if a < b then a else b
  }

  /** Every run of `w` pairs is sorted. */
  ghost predicate Runs(s: seq<Pair>, w: nat)
    requires w > 0
    decreases |s|
  {
    Sorted(s[..Min(w, |s|)]) && (|s| > w ==> Runs(s[w..], w))
  }

  /** Merging neighbouring runs. */
  ghost function Pass(s: seq<Pair>, w: nat): seq<Pair>
    requires w > 0
    decreases |s|
  {
    if s == [] then []
    else
      var mid, end := Min(w, |s|), Min(2 * w, |s|);
      Merge(s[..mid], s[mid..end]) + Pass(s[end..], w)
  }

  lemma {:induction false} PassRuns(s: seq<Pair>, w: nat)
    requires w > 0 && Runs(s, w)
    ensures |Pass(s, w)| == |s| && Runs(Pass(s, w), 2 * w)
    decreases |s|
  {
    hide Merge, Sorted;
    if s == [] {
      EmptyRuns(2 * w);
    } else {
      var mid, end := Min(w, |s|), Min(2 * w, |s|);
      var m := Merge(s[..mid], s[mid..end]);
      SecondRun(s, w);
      MergeSorted(s[..mid], s[mid..end]);
      PassRuns(s[end..], w);
      var rest := Pass(s[end..], w);
      assert (m + rest)[..Min(2 * w, |s|)] == m;
      if |s| > 2 * w {
        assert (m + rest)[2 * w..] == rest;
      }
    }
  }

  lemma EmptyRuns(w: nat)
    requires w > 0
    ensures Runs([], w) && Sorted([])
  {
  }

  lemma SecondRun(s: seq<Pair>, w: nat)
    requires w > 0 && Runs(s, w)
    ensures var mid, end := Min(w, |s|), Min(2 * w, |s|);
            Sorted(s[mid..end]) && Runs(s[end..], w)
  {
    hide Sorted;
    EmptyRuns(w);
    var mid, end := Min(w, |s|), Min(2 * w, |s|);
    if |s| > w {
      var t := s[w..];
      assert t[..Min(w, |t|)] == s[mid..end];
      if |t| > w {
        assert t[w..] == s[end..];
      } else {
        assert s[end..] == [];
      }
    } else {
      assert s[mid..end] == [] && s[end..] == [];
    }
  }

  lemma {:induction false} PassStable(s: seq<Pair>, w: nat, k: Key)
    requires w > 0 && Runs(s, w)
    ensures With(Pass(s, w), k) == With(s, k)
    decreases |s|
  {
    hide Merge, Sorted, With;
    if s != [] {
      var mid, end := Min(w, |s|), Min(2 * w, |s|);
      var a, b, c := s[..mid], s[mid..end], s[end..];
      SecondRun(s, w);
      MergeStable(a, b, k);
      PassStable(c, w, k);
      WithConcat(Merge(a, b), Pass(c, w), k);
      WithConcat(a, b, k);
      WithConcat(a + b, c, k);
      assert s == a + b + c;
    }
  }

  lemma WideRun(s: seq<Pair>, w: nat)
    requires w > 0 && Runs(s, w) && |s| <= w
    ensures Sorted(s)
  {
    hide Sorted;
    assert s[..Min(w, |s|)] == s;
  }

  lemma {:induction false} SingleRuns(s: seq<Pair>)
    ensures Runs(s, 1)
  {
    if |s| > 1 {
      SingleRuns(s[1..]);
    }
  }

  // ----- the sort

  /** `src[from..to]` copied to `dst[pos..]`, one pair at a time. */
  method CopyRun(src: array<Pair>, dst: array<Pair>, from: nat, to: nat, pos: nat, ghost start: nat, ghost end: nat)
    requires src != dst && from <= to <= src.Length && start <= pos && pos + (to - from) <= end <= dst.Length
    modifies dst
    ensures dst[start..pos + (to - from)] == old(dst[start..pos]) + src[from..to]
    ensures forall i :: 0 <= i < dst.Length && !(start <= i < end) ==> dst[i] == old(dst[i])
  {
    ghost var done := dst[start..pos];
    for i := from to to
      invariant dst[start..pos + (i - from)] == done + src[from..i]
      invariant forall x :: 0 <= x < dst.Length && !(start <= x < end) ==> dst[x] == old(dst[x])
    {
      assert src[from..i + 1] == src[from..i] + [src[i]];
      Store(dst, pos + (i - from), src[i], start, end);
    }
  }

  method Store(dst: array<Pair>, pos: nat, p: Pair, ghost start: nat, ghost end: nat)
    requires start <= pos < end <= dst.Length
    modifies dst
    ensures dst[start..pos + 1] == old(dst[start..pos]) + [p]
    ensures forall i :: 0 <= i < dst.Length && !(start <= i < end) ==> dst[i] == old(dst[i])
  {
    dst[pos] := p;
  }

  /** The first inner loop of a merge: until one run is used up. */
  method MergeHeads(src: array<Pair>, dst: array<Pair>, start: nat, mid: nat, end: nat, ghost s: seq<Pair>) returns (left: nat, right: nat)
    requires src != dst && start <= mid <= end <= src.Length && end <= dst.Length && s == src[..]
    modifies dst
    ensures start <= left <= mid <= right <= end && (left == mid || right == end)
    ensures dst[start..left + (right - mid)] + Merge(s[left..mid], s[right..end]) == Merge(s[start..mid], s[mid..end])
    ensures forall i :: 0 <= i < dst.Length && !(start <= i < end) ==> dst[i] == old(dst[i])
  {
    hide Leq, Merge;
    left, right := start, mid;
    ghost var all := Merge(s[start..mid], s[mid..end]);
    assert dst[start..start] == [];
    assert MergedSoFar(s, left, mid, right, end, [], all);
    hide MergedSoFar;
    while left < mid && right < end
      invariant start <= left <= mid <= right <= end
      invariant MergedSoFar(s, left, mid, right, end, dst[start..left + (right - mid)], all)
      invariant forall x :: 0 <= x < dst.Length && !(start <= x < end) ==> dst[x] == old(dst[x])
      decreases mid - left + end - right
    {
      left, right := MergeStep(src, dst, start, mid, end, left, right, s, all);
    }
    MergedGives(s, left, mid, right, end, dst[start..left + (right - mid)], all);
  }

  /** One turn of that loop. */
  method MergeStep(src: array<Pair>, dst: array<Pair>, start: nat, mid: nat, end: nat, left: nat, right: nat, ghost s: seq<Pair>, ghost all: seq<Pair>)
      returns (left': nat, right': nat)
    requires src != dst && start <= left < mid <= right < end <= src.Length && end <= dst.Length && s == src[..]
    requires MergedSoFar(s, left, mid, right, end, dst[start..left + (right - mid)], all)
    modifies dst
    ensures start <= left' <= mid <= right' <= end && left' + right' == left + right + 1
    ensures MergedSoFar(s, left', mid, right', end, dst[start..left' + (right' - mid)], all)
    ensures forall x :: 0 <= x < dst.Length && !(start <= x < end) ==> dst[x] == old(dst[x])
  {
    hide Leq, Merge, MergedSoFar;
    var pos := left + (right - mid);
    MergeOne(s, left, mid, right, end, dst[start..pos], all);
    var x, y := src[left], src[right];
    if Leq(x.key, y.key) {
      Store(dst, pos, x, start, end);
      left', right' := left + 1, right;
    } else {
      Store(dst, pos, y, start, end);
      left', right' := left, right + 1;
    }
  }

  /** What is merged so far, and what is left, make up the whole merge. */
  ghost predicate MergedSoFar(s: seq<Pair>, left: nat, mid: nat, right: nat, end: nat, done: seq<Pair>, all: seq<Pair>) {
    left <= mid <= right <= end <= |s| && done + Merge(s[left..mid], s[right..end]) == all
  }

  lemma MergedGives(s: seq<Pair>, left: nat, mid: nat, right: nat, end: nat, done: seq<Pair>, all: seq<Pair>)
    requires MergedSoFar(s, left, mid, right, end, done, all)
    ensures left <= mid <= right <= end <= |s| && done + Merge(s[left..mid], s[right..end]) == all
  {
  }

  lemma MergeOne(s: seq<Pair>, left: nat, mid: nat, right: nat, end: nat, done: seq<Pair>, all: seq<Pair>)
    requires MergedSoFar(s, left, mid, right, end, done, all) && left < mid && right < end <= |s|
    ensures if Leq(s[left].key, s[right].key) then MergedSoFar(s, left + 1, mid, right, end, done + [s[left]], all)
            else MergedSoFar(s, left, mid, right + 1, end, done + [s[right]], all)
  {
    hide Leq, Merge;
    MergeSlices(s, left, mid, right, end);
    Assoc(done, [s[left]], Merge(s[left + 1..mid], s[right..end]));
    Assoc(done, [s[right]], Merge(s[left..mid], s[right + 1..end]));
  }

  /** One merge: `src[start..end]` merged into `dst[start..end]`. */
  method MergeInto(src: array<Pair>, dst: array<Pair>, start: nat, mid: nat, end: nat)
    requires src != dst && start <= mid <= end <= src.Length && end <= dst.Length
    modifies dst
    ensures dst[start..end] == Merge(src[start..mid], src[mid..end])
    ensures forall i :: 0 <= i < dst.Length && !(start <= i < end) ==> dst[i] == old(dst[i])
  {
    hide Merge;
    ghost var s := src[..];
    var left, right := MergeHeads(src, dst, start, mid, end, s);
    var pos := left + (right - mid);
    MergeEnds(s[left..mid], s[right..end]);
    Assoc(dst[start..pos], s[left..mid], s[right..end]);
    CopyRun(src, dst, left, mid, pos, start, end);
    CopyRun(src, dst, right, end, pos + (mid - left), start, end);
    assert src[..] == s && s[left..mid] == src[left..mid] && s[right..end] == src[right..end];
    assert s[start..mid] == src[start..mid] && s[mid..end] == src[mid..end];
  }

  lemma MergeSlices(s: seq<Pair>, left: nat, mid: nat, right: nat, end: nat)
    requires left < mid <= right < end <= |s|
    ensures Merge(s[left..mid], s[right..end]) ==
              if Leq(s[left].key, s[right].key) then [s[left]] + Merge(s[left + 1..mid], s[right..end])
              else [s[right]] + Merge(s[left..mid], s[right + 1..end])
  {
    hide Leq, Merge;
    MergeHead(s[left..mid], s[right..end]);
    assert s[left..mid][1..] == s[left + 1..mid] && s[right..end][1..] == s[right + 1..end];
  }

  lemma MergeHead(a: seq<Pair>, b: seq<Pair>)
    requires a != [] && b != []
    ensures Merge(a, b) == if Leq(a[0].key, b[0].key) then [a[0]] + Merge(a[1..], b) else [b[0]] + Merge(a, b[1..])
  {
  }

  lemma MergeEnds(a: seq<Pair>, b: seq<Pair>)
    requires a == [] || b == []
    ensures Merge(a, b) == a + b
  {
  }

  /** One pass of the outer loop: every pair of neighbouring runs merged from `src` into `dst`. */
  method MergePass(src: array<Pair>, dst: array<Pair>, n: nat, w: nat)
    requires src != dst && n <= src.Length && n <= dst.Length && w > 0
    modifies dst
    ensures dst[..n] == Pass(src[..n], w) && dst[n..] == old(dst[n..])
  {
    hide Merge, Pass;
    ghost var s := src[..n];
    var start := 0;
    assert s[0..] == s;
    while start < n
      invariant src[..n] == s
      invariant dst[..Min(start, n)] + Pass(s[Min(start, n)..], w) == Pass(s, w)
      invariant forall x :: n <= x < dst.Length ==> dst[x] == old(dst[x])
    {
      var mid, end := Min(start + w, n), Min(start + 2 * w, n);
      ghost var done := dst[..start];
      PassStep(s, start, w);
      Assoc(done, Merge(s[start..mid], s[mid..end]), Pass(s[end..], w));
      MergePair(src, dst, start, mid, end, n, s);
      start := start + 2 * w;
    }
    assert Pass(s[n..], w) == [] by { PassNone(s[n..], w); }
  }

  lemma PrefixSlice(s: seq<Pair>, n: nat, i: nat, j: nat)
    requires i <= j <= n <= |s|
    ensures s[..n][i..j] == s[i..j]
  {
    var x, y := s[..n][i..j], s[i..j];
    assert forall k :: 0 <= k < |x| ==> x[k] == y[k];
  }

  /** One pair of runs, after the runs already merged. */
  method MergePair(src: array<Pair>, dst: array<Pair>, start: nat, mid: nat, end: nat, ghost n: nat, ghost s: seq<Pair>)
    requires src != dst && start <= mid <= end <= n <= src.Length && n <= dst.Length && s == src[..n]
    modifies dst
    ensures dst[..end] == old(dst[..start]) + Merge(s[start..mid], s[mid..end])
    ensures forall x :: n <= x < dst.Length ==> dst[x] == old(dst[x])
  {
    hide Merge;
    ghost var done := dst[..start];
    PrefixSlice(src[..], n, start, mid);
    PrefixSlice(src[..], n, mid, end);
    assert src[..][..n] == s && src[..][start..mid] == src[start..mid] && src[..][mid..end] == src[mid..end];
    MergeInto(src, dst, start, mid, end);
    assert dst[..start] == done;
    assert dst[..end] == dst[..start] + dst[start..end];
  }

  lemma PassStep(s: seq<Pair>, start: nat, w: nat)
    requires w > 0 && start < |s|
    ensures var mid, end := Min(start + w, |s|), Min(start + 2 * w, |s|);
            Pass(s[start..], w) == Merge(s[start..mid], s[mid..end]) + Pass(s[end..], w)
  {
    hide Merge, Pass;
    var t := s[start..];
    var m, e := Min(w, |t|), Min(2 * w, |t|);
    PassOnce(t, w);
    TailSlice(s, start, 0, m);
    TailSlice(s, start, m, e);
    TailSlice(s, start, e, |t|);
    assert t[..m] == t[0..m] && t[e..] == t[e..|t|] && s[start + e..] == s[start + e..|s|];
  }

  lemma PassOnce(s: seq<Pair>, w: nat)
    requires w > 0 && s != []
    ensures var mid, end := Min(w, |s|), Min(2 * w, |s|);
            Pass(s, w) == Merge(s[..mid], s[mid..end]) + Pass(s[end..], w)
  {
    hide Merge;
  }

  lemma TailSlice(s: seq<Pair>, start: nat, i: nat, j: nat)
    requires start <= |s| && i <= j <= |s| - start
    ensures s[start..][i..j] == s[start + i..start + j]
  {
    var x, y := s[start..][i..j], s[start + i..start + j];
    assert forall k :: 0 <= k < |x| ==> x[k] == y[k];
  }

  lemma PassNone(s: seq<Pair>, w: nat)
    requires w > 0 && s == []
    ensures Pass(s, w) == []
  {
  }

  /** Stands for `sort.SliceStable`, used for short inputs: only its documented result matters. */
  method SliceStable(a: array<Pair>, n: nat)
    requires n <= a.Length
    modifies a
    ensures Sorted(a[..n]) && StablePerm(a[..n], old(a[..n])) && a[n..] == old(a[n..])
  {
    hide Merge, Sorted, With;
    ghost var s := a[..n];
    var r: seq<Pair> := [];
    EmptyRuns(1);
    for i := 0 to n
      invariant a[..] == old(a[..]) && |r| == i && Sorted(r) && forall k :: With(r, k) == With(s[..i], k)
    {
      assert s[..i + 1] == s[..i] + [a[i]];
      Inserted(r, s[..i], a[i]);
      r := Merge(r, [a[i]]);
    }
    assert s[..n] == s;
    for i := 0 to n
      invariant a[..i] == r[..i] && a[n..] == old(a[n..])
    {
      a[i] := r[i];
    }
    assert a[..n] == r;
  }

  lemma Inserted(r: seq<Pair>, s: seq<Pair>, p: Pair)
    requires Sorted(r) && forall k :: With(r, k) == With(s, k)
    ensures Sorted(Merge(r, [p])) && forall k :: With(Merge(r, [p]), k) == With(s + [p], k)
  {
    hide Merge, With;
    MergeSorted(r, [p]);
    forall k ensures With(Merge(r, [p]), k) == With(s + [p], k) {
      MergeStable(r, [p], k);
      WithConcat(s, [p], k);
    }
  }

  /** `sortKVPairs` on the first `n` pairs: a sorted, stable permutation. */
  method SortKv(entries: array<Pair>, n: nat)
    requires n <= entries.Length
    modifies entries
    ensures Sorted(entries[..n]) && StablePerm(entries[..n], old(entries[..n]))
    ensures entries[n..] == old(entries[n..])
  {
    hide Merge, Pass, With, Runs;
    if n < 2 {
      return;
    }
    if n <= 65536 {
      SliceStable(entries, n);
      return;
    }
    PingPong(entries, n);
  }

  /** The bottom-up sort: each pass merges runs of `width` from one array into the other, and the
      arrays change roles. */
  method PingPong(entries: array<Pair>, n: nat)
    requires 0 < n <= entries.Length
    modifies entries
    ensures Sorted(entries[..n]) && StablePerm(entries[..n], old(entries[..n]))
    ensures entries[n..] == old(entries[n..])
  {
    hide Merge, Pass, With, Runs, Sorted;
    var buf := new Pair[n](i requires 0 <= i < n reads entries => entries[i]);
    ghost var s := entries[..n];
    assert buf[..n] == s;
    SingleRuns(s);
    var src, dst, srcIsEntries, width := buf, entries, false, 1;
    while width < n
      invariant width > 0 && src != dst && src.Length >= n && dst.Length >= n
      invariant if srcIsEntries then src == entries && dst == buf else src == buf && dst == entries
      invariant Runs(src[..n], width) && StablePerm(src[..n], s)
      invariant entries[n..] == old(entries[n..])
      decreases n - width
    {
      Passed(src[..n], s, width);
      MergePass(src, dst, n, width);
      src, dst := dst, src;
      srcIsEntries, width := !srcIsEntries, 2 * width;
    }
    WideRun(src[..n], width);
    if !srcIsEntries {
      CopyRun(src, entries, 0, n, 0, 0, n);
      assert src[0..n] == src[..n] && entries[0..n] == entries[..n];
    }
  }

  lemma Passed(s: seq<Pair>, orig: seq<Pair>, w: nat)
    requires w > 0 && Runs(s, w) && StablePerm(s, orig)
    ensures Runs(Pass(s, w), 2 * w) && StablePerm(Pass(s, w), orig)
  {
    hide Pass, With, Runs;
    PassRuns(s, w);
    forall k ensures With(Pass(s, w), k) == With(orig, k) {
      PassStable(s, w, k);
    }
  }

  // ----- normalising

  /** The pairs that no later pair overwrites. */
  ghost function KeepLast(s: seq<Pair>): seq<Pair> {
    if s == [] then []
    else (if Last(s[1..], s[0].key).Some? then [] else [s[0]]) + KeepLast(s[1..])
  }

  lemma {:induction false} LastNone(s: seq<Pair>, k: Key)
    ensures Last(s, k).None? <==> forall i :: 0 <= i < |s| ==> s[i].key != k
  {
    if s != [] {
      LastNone(s[..|s| - 1], k);
      assert forall i :: 0 <= i < |s| - 1 ==> s[..|s| - 1][i] == s[i];
    }
  }

  lemma {:induction false} KeepLastSame(s: seq<Pair>, k: Key)
    ensures Last(KeepLast(s), k) == Last(s, k)
  {
    if s != [] {
      var x, t := s[0], s[1..];
      var head := if Last(t, x.key).Some? then [] else [x];
      assert s == [x] + t;
      KeepLastSame(t, k);
      LastConcat([x], t, k);
      LastConcat(head, KeepLast(t), k);
      assert [x][..0] == [];
    }
  }

  ghost predicate DistinctKeys(s: seq<Pair>) {
    forall i, j :: 0 <= i < j < |s| ==> s[i].key != s[j].key
  }

  lemma {:induction false} KeepLastDistinct(s: seq<Pair>)
    ensures DistinctKeys(KeepLast(s))
  {
    if s != [] {
      var x, t := s[0], s[1..];
      KeepLastDistinct(t);
      KeepLastSame(t, x.key);
      LastNone(KeepLast(t), x.key);
    }
  }

  lemma {:induction false} KeepLastSorted(s: seq<Pair>)
    requires Sorted(s)
    ensures Sorted(KeepLast(s)) && (s != [] ==> AllGeq(KeepLast(s), s[0].key))
  {
    hide Less, Last, Sorted, AllGeq;
    SortedTail(s);
    if s != [] {
      var x, t := s[0], s[1..];
      KeepLastSorted(t);
      if t != [] {
        AllGeqBelow(KeepLast(t), t[0].key, x.key);
      }
      Prepended(x, KeepLast(t));
    } else {
      SortedTail(KeepLast(s));
    }
  }

  lemma SortedTail(s: seq<Pair>)
    ensures s == [] ==> Sorted(s) && forall k :: AllGeq(s, k)
    ensures Sorted(s) && s != [] ==> Sorted(s[1..]) && (|s| > 1 ==> Leq(s[0].key, s[1].key))
  {
    hide Leq;
  }

  lemma AllGeqBelow(r: seq<Pair>, k: Key, l: Key)
    requires AllGeq(r, k) && Leq(l, k)
    ensures AllGeq(r, l)
  {
    hide Less;
    forall i | 0 <= i < |r| ensures Leq(l, r[i].key) {
      LeqTransitive(l, k, r[i].key);
    }
  }

  lemma Prepended(x: Pair, r: seq<Pair>)
    ensures Sorted(r) && AllGeq(r, x.key) ==> Sorted([x] + r) && AllGeq([x] + r, x.key)
    ensures [] + r == r && AllGeq([], x.key)
  {
    hide Less;
  }

  lemma SortedDistinct(s: seq<Pair>)
    requires Sorted(s) && DistinctKeys(s)
    ensures Strict(s)
  {
    hide Less;
  }

  /** In sorted pairs a group of equal keys leaves its last pair. */
  lemma {:induction false} KeepGroup(s: seq<Pair>, g: nat)
    requires Sorted(s) && 0 < g <= |s| && (forall i :: 0 <= i < g ==> s[i].key == s[0].key)
    requires g < |s| ==> s[g].key != s[0].key
    ensures KeepLast(s) == [s[g - 1]] + KeepLast(s[g..])
  {
    hide Less;
    var t, k := s[1..], s[0].key;
    if g == 1 {
      LastNone(t, k);
      forall i | 0 <= i < |t| ensures t[i].key != k {
        assert Leq(s[0].key, s[1].key);
        LessTrichotomy(s[0].key, s[1].key);
        if i > 0 {
          LeqTransitive(s[0].key, s[1].key, s[i + 1].key);
          LessTrichotomy(s[0].key, s[i + 1].key);
        }
      }
    } else {
      assert t[0].key == k;
      LastNone(t, k);
      KeepGroup(t, g - 1);
      assert t[g - 1..] == s[g..] && t[g - 2] == s[g - 1];
    }
  }

  lemma KeepStep(s: seq<Pair>, i: nat)
    requires i < |s|
    ensures KeepLast(s[i..]) == (if Last(s[i + 1..], s[i].key).Some? then [] else [s[i]]) + KeepLast(s[i + 1..])
  {
    assert s[i..][1..] == s[i + 1..];
  }

  /** Where a key was last written. */
  ghost predicate LastAt(s: seq<Pair>, n: nat, last: map<Key, nat>)
    requires n <= |s|
  {
    && (forall i :: 0 <= i < n ==> s[i].key in last)
    && (forall k :: k in last ==> last[k] < n && s[last[k]].key == k)
    && (forall k, i :: k in last && last[k] < i < n ==> s[i].key != k)
  }

  lemma LastAtTells(s: seq<Pair>, last: map<Key, nat>, i: nat)
    requires LastAt(s, |s|, last) && i < |s|
    ensures last[s[i].key] != i <==> Last(s[i + 1..], s[i].key).Some?
  {
    var k, t := s[i].key, s[i + 1..];
    LastNone(t, k);
    assert forall j :: 0 <= j < |t| ==> t[j] == s[i + 1 + j];
    if last[k] != i {
      assert last[k] > i;
      assert t[last[k] - (i + 1)].key == k;
    }
  }

  /** The fast-path scan of `normalizeStorageEntries`. */
  method ScanOrder(a: array<Pair>) returns (sorted: bool, strictly: bool)
    requires a.Length > 1
    ensures sorted ==> Sorted(a[..])
    ensures strictly ==> Strict(a[..])
  {
    hide Less;
    sorted, strictly := true, true;
    for i := 1 to a.Length
      invariant Sorted(a[..i]) && (strictly ==> Strict(a[..i]))
    {
      assert a[..i + 1] == a[..i] + [a[i]];
      LessTrichotomy(a[i - 1].key, a[i].key);
      if Less(a[i].key, a[i - 1].key) {
        return false, false;
      }
      SortedSnoc(a[..i], a[i]);
      if a[i - 1].key == a[i].key {
        strictly := false;
      }
    }
    assert a[..a.Length] == a[..];
  }

  lemma SortedSnoc(s: seq<Pair>, p: Pair)
    requires s != [] && Sorted(s) && Leq(s[|s| - 1].key, p.key)
    ensures Sorted(s + [p]) && (Strict(s) && Less(s[|s| - 1].key, p.key) ==> Strict(s + [p]))
  {
    hide Less;
    var t := s + [p];
    forall i, j | 0 <= i < j < |t| ensures Leq(t[i].key, t[j].key) && (Strict(s) && Less(s[|s| - 1].key, p.key) ==> Less(t[i].key, t[j].key)) {
      if j == |s| {
        LeqTransitive(s[i].key, s[|s| - 1].key, p.key);
      }
    }
  }

  /** Sorted with duplicates: each group's last pair, written over the front of the same array. */
  method CompactSorted(a: array<Pair>) returns (out: nat)
    requires Sorted(a[..])
    modifies a
    ensures out <= a.Length && a[..out] == KeepLast(old(a[..]))
  {
    hide Less, KeepLast, Sorted;
    ghost var s := a[..];
    var i := 0;
    out := 0;
    assert s[0..] == s;
    while i < a.Length
      invariant out <= i <= a.Length && a[i..] == s[i..]
      invariant a[..out] + KeepLast(s[i..]) == KeepLast(s)
    {
      var j := GroupEnd(a, i, s);
      TailGroup(s, i, j);
      ghost var done := a[..out];
      var p := a[j - 1];
      assert p == s[j - 1] by { assert a[i..][j - 1 - i] == s[i..][j - 1 - i]; }
      Assoc(done, [p], KeepLast(s[j..]));
      Overwrite(a, out, p, j);
      assert a[j..] == s[j..] by { assert a[j..] == old(a[..])[j..]; }
      out, i := out + 1, j;
    }
    assert KeepLast(s[i..]) == [] by { assert s[i..] == []; NothingKept(); }
  }

  method Overwrite(a: array<Pair>, out: nat, p: Pair, ghost j: nat)
    requires out < j <= a.Length
    modifies a
    ensures a[..out + 1] == old(a[..out]) + [p] && a[j..] == old(a[j..])
  {
    a[out] := p;
  }

  lemma NothingKept()
    ensures KeepLast([]) == []
  {
  }

  /** The end of the group of equal keys that starts at `i`. */
  method GroupEnd(a: array<Pair>, i: nat, ghost s: seq<Pair>) returns (j: nat)
    requires i < a.Length == |s| && a[i..] == s[i..]
    ensures i < j <= |s| && (forall l :: i <= l < j ==> s[l].key == s[i].key) && (j < |s| ==> s[j].key != s[i].key)
  {
    assert forall l :: i <= l < |s| ==> a[l] == a[i..][l - i] == s[l];
    j := i + 1;
    while j < a.Length && a[j].key == a[i].key
      invariant i < j <= a.Length && forall l :: i <= l < j ==> s[l].key == s[i].key
    {
      j := j + 1;
    }
  }

  lemma TailGroup(s: seq<Pair>, i: nat, j: nat)
    requires Sorted(s) && i < j <= |s| && (forall l :: i <= l < j ==> s[l].key == s[i].key) && (j < |s| ==> s[j].key != s[i].key)
    ensures KeepLast(s[i..]) == [s[j - 1]] + KeepLast(s[j..])
  {
    hide Less, KeepLast;
    var t := s[i..];
    assert forall l :: 0 <= l < j - i ==> t[l] == s[i + l];
    KeepGroup(t, j - i);
    assert t[j - i..] == s[j..];
  }

  /** The general path: keep the pairs at their key's last index, in place. */
  method CompactByIndex(a: array<Pair>) returns (out: nat)
    modifies a
    ensures out <= a.Length && a[..out] == KeepLast(old(a[..]))
  {
    hide KeepLast, LastAt, Last;
    ghost var s := a[..];
    var last := LastIndices(a);
    out := 0;
    assert s[0..] == s;
    for i := 0 to a.Length
      invariant out <= i && a[i..] == s[i..]
      invariant a[..out] + KeepLast(s[i..]) == KeepLast(s)
    {
      var p := a[i];
      assert p == s[i] by { assert a[i..][0] == s[i..][0]; }
      LastAtTells(s, last, i);
      KeepStep(s, i);
      assert a[i + 1..] == s[i + 1..] by { assert a[i + 1..] == a[i..][1..] && s[i + 1..] == s[i..][1..]; }
      assert p.key in last by { Indexed(s, last, i); }
      if last[p.key] == i {
        Assoc(a[..out], [p], KeepLast(s[i + 1..]));
        Overwrite(a, out, p, i + 1);
        out := out + 1;
      }
    }
    assert KeepLast(s[a.Length..]) == [] by { assert s[a.Length..] == []; NothingKept(); }
  }

  lemma Indexed(s: seq<Pair>, last: map<Key, nat>, i: nat)
    requires LastAt(s, |s|, last) && i < |s|
    ensures s[i].key in last
  {
  }

  method LastIndices(a: array<Pair>) returns (last: map<Key, nat>)
    ensures LastAt(a[..], a.Length, last)
  {
    last := map[];
    for i := 0 to a.Length
      invariant LastAt(a[..], i, last)
    {
      last := last[a[i].key := i];
    }
  }

  /** `normalizeStorageEntries`: the strictly sorted view in which the last write of a key wins. */
  method Normalize(entries: array<Pair>) returns (n: nat)
    modifies entries
    ensures n <= entries.Length && Strict(entries[..n])
    ensures forall k :: Last(entries[..n], k) == Last(old(entries[..]), k)
  {
    hide Less, Last, KeepLast, With, Sorted;
    ghost var s := entries[..];
    assert entries[..entries.Length] == s;
    if entries.Length <= 1 {
      return entries.Length;
    }
    var sorted, strictly := ScanOrder(entries);
    if sorted && strictly {
      return entries.Length;
    }
    forall k ensures Last(KeepLast(s), k) == Last(s, k) {
      KeepLastSame(s, k);
    }
    KeepLastDistinct(s);
    if sorted {
      n := CompactSorted(entries);
      KeepLastSorted(s);
      SortedDistinct(KeepLast(s));
    } else {
      n := CompactByIndex(entries);
      SortKv(entries, n);
      SortedKept(entries[..n], KeepLast(s));
    }
  }

  lemma SortedKept(t: seq<Pair>, s: seq<Pair>)
    requires StablePerm(t, s) && Sorted(t) && DistinctKeys(s)
    ensures Strict(t) && forall k :: Last(t, k) == Last(s, k)
  {
    hide Less, Last, With, Sorted;
    forall k ensures Last(t, k) == Last(s, k) {
      LastIsLastWith(t, k);
      LastIsLastWith(s, k);
    }
    forall i, j | 0 <= i < j < |t| ensures t[i].key != t[j].key {
      DistinctWith(s, t[i].key);
      TwoWith(t, i, j);
    }
    SortedDistinct(t);
  }

  lemma {:induction false} DistinctWith(s: seq<Pair>, k: Key)
    requires DistinctKeys(s)
    ensures |With(s, k)| <= 1 && ((forall i :: 0 <= i < |s| ==> s[i].key != k) ==> With(s, k) == [])
  {
    if s != [] {
      DistinctWith(s[..|s| - 1], k);
    }
  }

  lemma {:induction false} CountsWith(s: seq<Pair>, k: Key, i: nat)
    requires i < |s| && s[i].key == k
    ensures |With(s, k)| >= 1
  {
    if i < |s| - 1 {
      CountsWith(s[..|s| - 1], k, i);
    }
  }

  lemma {:induction false} TwoWith(s: seq<Pair>, i: nat, j: nat)
    requires i < j < |s|
    ensures s[i].key == s[j].key ==> |With(s, s[i].key)| >= 2
  {
    if j < |s| - 1 {
      TwoWith(s[..|s| - 1], i, j);
    } else if s[i].key == s[j].key {
      CountsWith(s[..|s| - 1], s[i].key, i);
    }
  }
}
