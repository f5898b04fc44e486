/** Rewriting one chunk past its size trigger: the decoded records are normalised and merged with the
    additions. The normaliser keeps the first record of a key, while the decoder gives write order. */
module ChunkRewrite {
  import opened Bytes
  import opened KvSort
  import opened ChunkFile

  /** The value first written for a key. */
  ghost function First(s: seq<Pair>, k: Key): Option<seq<byte>> {
    if s == [] then None else if s[0].key == k then Some(s[0].val) else First(s[1..], k)
  }

  /** The pairs that no earlier pair precedes with the same key. */
  ghost function KeepFirst(s: seq<Pair>): seq<Pair> {
    if s == [] then []
    else
      var n := |s| - 1;
      KeepFirst(s[..n]) + (if First(s[..n], s[n].key).Some? then [] else [s[n]])
  }

  lemma {:induction false} FirstSnoc(s: seq<Pair>, p: Pair, k: Key)
    ensures First(s + [p], k) == if First(s, k).Some? then First(s, k) else if p.key == k then Some(p.val) else None
  {
    if s != [] {
      assert (s + [p])[1..] == s[1..] + [p];
      FirstSnoc(s[1..], p, k);
    }
  }

  lemma {:induction false} FirstNone(s: seq<Pair>, k: Key)
    ensures First(s, k).None? <==> forall i :: 0 <= i < |s| ==> s[i].key != k
  {
    if s != [] {
      FirstNone(s[1..], k);
      assert forall i :: 0 < i < |s| ==> s[i] == s[1..][i - 1];
    }
  }

  lemma {:induction false} KeepFirstSame(s: seq<Pair>, k: Key)
    ensures Last(KeepFirst(s), k) == First(s, k)
  {
    if s != [] {
      var n := |s| - 1;
      var init, p := s[..n], s[n];
      KeepFirstSame(init, k);
      assert s == init + [p];
      FirstSnoc(init, p, k);
      var t := if First(init, p.key).Some? then [] else [p];
      LastConcat(KeepFirst(init), t, k);
      assert t != [] ==> t[..0] == [];
    }
  }

  lemma {:induction false} KeepFirstDistinct(s: seq<Pair>)
    ensures DistinctKeys(KeepFirst(s))
  {
    if s != [] {
      var n := |s| - 1;
      KeepFirstDistinct(s[..n]);
      KeepFirstSame(s[..n], s[n].key);
      LastNone(KeepFirst(s[..n]), s[n].key);
    }
  }

  /** With no key repeated, nothing is dropped. */
  lemma {:induction false} KeepFirstAll(s: seq<Pair>)
    requires DistinctKeys(s)
    ensures KeepFirst(s) == s
  {
    if s != [] {
      var n := |s| - 1;
      KeepFirstAll(s[..n]);
      FirstNone(s[..n], s[n].key);
      assert s == s[..n] + [s[n]];
    }
  }

  /** Where a key was first written. */
  ghost predicate FirstAt(s: seq<Pair>, n: nat, at: map<Key, nat>)
    requires n <= |s|
  {
    && (forall i :: 0 <= i < n ==> s[i].key in at)
    && (forall k :: k in at ==> at[k] < n && s[at[k]].key == k)
    && (forall i :: 0 <= i < n ==> at[s[i].key] <= i)
  }

  method FirstIndices(a: array<Pair>) returns (at: map<Key, nat>)
    ensures FirstAt(a[..], a.Length, at)
  {
    at := map[];
    for i := 0 to a.Length
      invariant FirstAt(a[..], i, at)
    {
      if a[i].key !in at {
        at := at[a[i].key := i];
      }
    }
  }

  lemma FirstAtTells(s: seq<Pair>, at: map<Key, nat>, i: nat)
    requires FirstAt(s, |s|, at) && i < |s|
    ensures s[i].key in at && (at[s[i].key] != i <==> First(s[..i], s[i].key).Some?)
  {
    var k := s[i].key;
    FirstNone(s[..i], k);
    if at[k] != i {
      assert s[..i][at[k]].key == k;
    }
  }

  /** `normalizeTailScannedStorageEntries`: the strictly sorted view in which the first record wins. */
  method NormalizeTail(a: array<Pair>) returns (n: nat)
    modifies a
    ensures n <= a.Length && Strict(a[..n])
    ensures forall k :: Last(a[..n], k) == First(old(a[..]), k)
  {
    hide Last, First, KeepFirst, With, Sorted, Less, FirstAt, DistinctKeys;
    ghost var s := a[..];
    KeepFirstDistinct(s);
    forall k ensures Last(KeepFirst(s), k) == First(s, k) {
      KeepFirstSame(s, k);
    }
    if a.Length <= 1 {
      OneIsStrict(s);
      assert a[..a.Length] == s;
      return a.Length;
    }
    var at := FirstIndices(a);
    n := CompactFirst(a, at);
    SortKv(a, n);
    SortedKept(a[..n], KeepFirst(s));
  }

  lemma OneIsStrict(s: seq<Pair>)
    requires |s| <= 1
    ensures Strict(s) && KeepFirst(s) == s
  {
    if s != [] {
      assert s[..0] == [];
    }
  }

  /** The in-place filter. When no key repeats it keeps every pair, as the early exit does. */
  method CompactFirst(a: array<Pair>, at: map<Key, nat>) returns (out: nat)
    requires FirstAt(a[..], a.Length, at)
    modifies a
    ensures out <= a.Length && a[..out] == KeepFirst(old(a[..]))
  {
    hide KeepFirst, FirstAt, First;
    ghost var s := a[..];
    out := 0;
    NothingKeptFirst();
    assert s[..0] == [];
    for i := 0 to a.Length
      invariant out <= i && a[i..] == s[i..] && a[..out] == KeepFirst(s[..i])
    {
      var p := a[i];
      assert p == s[i] by { assert a[i..][0] == s[i..][0]; }
      FirstAtTells(s, at, i);
      KeepFirstStep(s, i);
      assert a[i + 1..] == s[i + 1..] by { assert a[i + 1..] == a[i..][1..] && s[i + 1..] == s[i..][1..]; }
      if at[p.key] == i {
        Overwrite(a, out, p, i + 1);
        out := out + 1;
      }
    }
    assert s[..a.Length] == s;
  }

  lemma NothingKeptFirst()
    ensures KeepFirst([]) == []
  {
  }

  lemma KeepFirstStep(s: seq<Pair>, i: nat)
    requires i < |s|
    ensures KeepFirst(s[..i + 1]) == KeepFirst(s[..i]) + (if First(s[..i], s[i].key).Some? then [] else [s[i]])
  {
    assert s[..i + 1][..i] == s[..i];
  }

  /** `mergeAndDedupPairs`: additions override. */
  method MergeDedup(existing: seq<Pair>, additions: seq<Pair>) returns (r: seq<Pair>)
    requires Strict(existing) && Strict(additions)
    ensures Strict(r)
    ensures forall k :: Last(r, k) == if Last(additions, k).Some? then Last(additions, k) else Last(existing, k)
  {
    hide Last, Less;
    r := [];
    var i, j := 0, 0;
    var e, a := existing, additions;
    assert e[..0] == [] && a[..0] == [];
    forall k ensures Last([], k) == None {
      NoLast(k);
    }
    while i < |existing| && j < |additions|
      invariant 0 <= i <= |e| && 0 <= j <= |a| && Strict(r)
      invariant Merged(r, e[..i], a[..j]) && Below(r, e, i) && Below(r, a, j)
      decreases |e| - i + |a| - j
    {
      LessTrichotomy(e[i].key, a[j].key);
      if Less(e[i].key, a[j].key) {
        TakeExisting(r, e, i, a, j);
        r, i := r + [e[i]], i + 1;
      } else if Less(a[j].key, e[i].key) {
        TakeAddition(r, e, i, a, j);
        r, j := r + [a[j]], j + 1;
      } else {
        TakeBoth(r, e, i, a, j);
        r, i, j := r + [a[j]], i + 1, j + 1;
      }
    }
    while i < |existing|
      invariant 0 <= i <= |e| && 0 <= j <= |a| && Strict(r) && (i < |e| ==> j == |a|)
      invariant Merged(r, e[..i], a[..j]) && Below(r, e, i) && Below(r, a, j)
    {
      TakeExisting(r, e, i, a, j);
      r, i := r + [e[i]], i + 1;
    }
    while j < |additions|
      invariant i == |e| && 0 <= j <= |a| && Strict(r)
      invariant Merged(r, e[..i], a[..j]) && Below(r, e, i) && Below(r, a, j)
    {
      TakeAddition(r, e, i, a, j);
      r, j := r + [a[j]], j + 1;
    }
    assert e[..|e|] == e && a[..|a|] == a;
  }

  /** `r` means the additions `a` over the last writes of `e`. */
  ghost predicate Merged(r: seq<Pair>, e: seq<Pair>, a: seq<Pair>) {
    forall k :: Last(r, k) == if Last(a, k).Some? then Last(a, k) else Last(e, k)
  }

  /** Everything taken so far is below what is left of `s`. */
  ghost predicate Below(r: seq<Pair>, s: seq<Pair>, i: nat) {
    forall x, y :: 0 <= x < |r| && i <= y < |s| ==> Less(r[x].key, s[y].key)
  }

  lemma LastSnoc(s: seq<Pair>, p: Pair, k: Key)
    ensures Last(s + [p], k) == if p.key == k then Some(p.val) else Last(s, k)
  {
    assert (s + [p])[..|s|] == s;
  }

  lemma Took(r: seq<Pair>, s: seq<Pair>, i: nat, p: Pair)
    requires Strict(s) && i < |s| && Below(r, s, i) && p.key == s[i].key
    ensures Below(r + [p], s, i + 1) && (Strict(r) ==> Strict(r + [p]))
  {
    hide Less;
  }

  lemma StillBelow(r: seq<Pair>, s: seq<Pair>, j: nat, p: Pair)
    requires Strict(s) && Below(r, s, j) && (j < |s| ==> Less(p.key, s[j].key))
    ensures Below(r + [p], s, j)
  {
    hide Less;
    forall y | j <= y < |s| ensures Less(p.key, s[y].key) {
      if y > j {
        LessTransitive(p.key, s[j].key, s[y].key);
      }
    }
  }

  lemma TakeExisting(r: seq<Pair>, e: seq<Pair>, i: nat, a: seq<Pair>, j: nat)
    requires Strict(e) && Strict(a) && Strict(r) && i < |e| && j <= |a| && Merged(r, e[..i], a[..j]) && Below(r, e, i) && Below(r, a, j)
    requires j < |a| ==> Less(e[i].key, a[j].key)
    ensures Strict(r + [e[i]]) && Merged(r + [e[i]], e[..i + 1], a[..j]) && Below(r + [e[i]], e, i + 1) && Below(r + [e[i]], a, j)
  {
    hide Less, Last;
    var p := e[i];
    Took(r, e, i, p);
    StillBelow(r, a, j, p);
    assert Last(a[..j], p.key) == None by { TakenBelow(r, e[..i], a[..j], p.key, e, i); }
    assert e[..i + 1] == e[..i] + [p];
    forall k ensures Last(r + [p], k) == if Last(a[..j], k).Some? then Last(a[..j], k) else Last(e[..i + 1], k) {
      LastSnoc(r, p, k);
      LastSnoc(e[..i], p, k);
    }
  }

  /** What has been taken from the additions is in the result, so it is below the key at hand. */
  lemma TakenBelow(r: seq<Pair>, e: seq<Pair>, a: seq<Pair>, k: Key, s: seq<Pair>, i: nat)
    requires Merged(r, e, a) && Below(r, s, i) && i < |s| && s[i].key == k
    ensures Last(a, k) == None && Last(r, k) == None
  {
    hide Less, Last;
    LastNone(r, k);
    forall x | 0 <= x < |r| ensures r[x].key != k {
      LessTrichotomy(r[x].key, k);
    }
  }

  lemma TakeAddition(r: seq<Pair>, e: seq<Pair>, i: nat, a: seq<Pair>, j: nat)
    requires Strict(e) && Strict(a) && Strict(r) && i <= |e| && j < |a| && Merged(r, e[..i], a[..j]) && Below(r, e, i) && Below(r, a, j)
    requires i < |e| ==> Less(a[j].key, e[i].key)
    ensures Strict(r + [a[j]]) && Merged(r + [a[j]], e[..i], a[..j + 1]) && Below(r + [a[j]], e, i) && Below(r + [a[j]], a, j + 1)
  {
    hide Less, Last;
    var p := a[j];
    Took(r, a, j, p);
    StillBelow(r, e, i, p);
    assert a[..j + 1] == a[..j] + [p];
    forall k ensures Last(r + [p], k) == if Last(a[..j + 1], k).Some? then Last(a[..j + 1], k) else Last(e[..i], k) {
      LastSnoc(r, p, k);
      LastSnoc(a[..j], p, k);
    }
  }

  lemma TakeBoth(r: seq<Pair>, e: seq<Pair>, i: nat, a: seq<Pair>, j: nat)
    requires Strict(e) && Strict(a) && Strict(r) && i < |e| && j < |a| && Merged(r, e[..i], a[..j]) && Below(r, e, i) && Below(r, a, j)
    requires e[i].key == a[j].key
    ensures Strict(r + [a[j]]) && Merged(r + [a[j]], e[..i + 1], a[..j + 1]) && Below(r + [a[j]], e, i + 1) && Below(r + [a[j]], a, j + 1)
  {
    hide Less, Last;
    var p := a[j];
    Took(r, a, j, p);
    Took(r, e, i, p);
    assert a[..j + 1] == a[..j] + [p] && e[..i + 1] == e[..i] + [e[i]];
    forall k ensures Last(r + [p], k) == if Last(a[..j + 1], k).Some? then Last(a[..j + 1], k) else Last(e[..i + 1], k) {
      LastSnoc(r, p, k);
      LastSnoc(a[..j], p, k);
      LastSnoc(e[..i], e[i], k);
    }
  }

  /** Every key that the additions leave alone has equal values in its first and its last record. */
  ghost predicate NoStaleFirst(ps: seq<Pair>, additions: seq<Pair>) {
    forall i :: 0 <= i < |ps| && Last(additions, ps[i].key).None? ==> First(ps, ps[i].key) == Last(ps, ps[i].key)
  }

  /** `rewriteChunkWithDedup` up to the split. What the rewritten chunk should hold is the additions
      over the last writes; it does exactly when no key goes back to an older record. */
  method Rewrite(buf: seq<byte>, additions: seq<Pair>, ghost its: seq<Item>) returns (r: seq<Pair>)
    requires ItemsOk(its) && buf == EncodeItems(its) && Strict(additions)
    ensures Strict(r)
    ensures forall k :: Last(r, k) == if Last(additions, k).Some? then Last(additions, k) else First(PairsOf(its), k)
    ensures Merged(r, PairsOf(its), additions) <==> NoStaleFirst(PairsOf(its), additions)
  {
    hide EncodeItems, ItemsOk, PairsOf, Last, First, Less, NoStaleFirst, Merged;
    var decoded := DecodeChunk(buf, its);
    var ps := if decoded.Some? then decoded.value else [];
    var a := new Pair[|ps|](i requires 0 <= i < |ps| => ps[i]);
    assert a[..] == ps;
    var n := NormalizeTail(a);
    r := MergeDedup(a[..n], additions);
    FirstsAreLastsIff(ps, additions, r);
  }

  lemma FirstsAreLastsIff(ps: seq<Pair>, additions: seq<Pair>, r: seq<Pair>)
    requires forall k :: Last(r, k) == if Last(additions, k).Some? then Last(additions, k) else First(ps, k)
    ensures Merged(r, ps, additions) <==> NoStaleFirst(ps, additions)
  {
    hide Last, First;
    if NoStaleFirst(ps, additions) {
      forall k | Last(additions, k).None? ensures First(ps, k) == Last(ps, k) {
        FirstNone(ps, k);
        LastNone(ps, k);
      }
      assert Merged(r, ps, additions);
    }
    if Merged(r, ps, additions) {
      forall i | 0 <= i < |ps| && Last(additions, ps[i].key).None? ensures First(ps, ps[i].key) == Last(ps, ps[i].key) {
        assert Last(r, ps[i].key) == Last(ps, ps[i].key);
      }
      assert NoStaleFirst(ps, additions);
    }
  }

  /** A key written by two tagged appends: the chunk answers with the newer value, and a rewrite that
      does not touch the key brings the older one back. */
  method RewriteLosesUpdate(k: Key, older: seq<byte>, newer: seq<byte>, first: u64, second: u64, additions: seq<Pair>)
      returns (buf: seq<byte>, before: Answer, r: seq<Pair>)
    requires PairOk(Pair(k, older)) && PairOk(Pair(k, newer)) && older != newer
    requires Strict(additions) && Last(additions, k).None?
    ensures var its := Batch([Pair(k, older)], first) + Batch([Pair(k, newer)], second);
            ItemsOk(its) && buf == EncodeItems(its)
    ensures before == if newer == [] then Tombstone else Found(newer)
    ensures Last(r, k) == Some(older)
  {
    hide EncodeItems, ItemsOk, PairsOf, Last, First, Less, NoStaleFirst, Merged, Batch;
    ghost var ps, qs := [Pair(k, older)], [Pair(k, newer)];
    var a := Serialize([Pair(k, older)], first);
    var b := Serialize([Pair(k, newer)], second);
    buf := a.value + b.value;
    ghost var its := Batch(ps, first) + Batch(qs, second);
    EncodeConcat(Batch(ps, first), Batch(qs, second));
    BatchOk(ps, first);
    BatchOk(qs, second);
    PairsConcat(Batch(ps, first), Batch(qs, second));
    TwoRecords(k, older, newer);
    before := TailLookup(buf, k, its);
    r := Rewrite(buf, additions, its);
  }

  lemma TwoRecords(k: Key, older: seq<byte>, newer: seq<byte>)
    ensures var ps := [Pair(k, older)] + [Pair(k, newer)];
            First(ps, k) == Some(older) && Last(ps, k) == Some(newer)
  {
  }

  /** Chunks without repeated keys are safe to rewrite. */
  lemma DistinctKeysAreSafe(ps: seq<Pair>, k: Key)
    requires DistinctKeys(ps)
    ensures First(ps, k) == Last(ps, k)
  {
    KeepFirstAll(ps);
    KeepFirstSame(ps, k);
  }
}
