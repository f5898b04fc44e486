/** The inline storage allocator: payloads are batched into the current storage file, which rolls over
    to a new file before it would pass its size limit. */
module InlineAllocator {
  import opened Bytes

  /** 1 GiB. */
  const MAX_FILE_SIZE := 0x4000_0000

  type Files = map<nat, seq<byte>>

  /** Where a payload was stored. */
  datatype Loc = Loc(file: nat, offset: nat, size: nat)

  // ----- what an allocation must provide

  ghost predicate ReadsBack(files: Files, l: Loc, payload: seq<byte>) {
    l.file in files && l.size == |payload| && l.offset + l.size <= |files[l.file]| && files[l.file][l.offset..l.offset + l.size] == payload
  }

  /** Exactly the non-empty payloads have a place, and it reads back. */
  ghost predicate AllRead(files: Files, ps: seq<seq<byte>>, ls: seq<Option<Loc>>) {
    |ps| == |ls| && forall i :: 0 <= i < |ps| ==> (ps[i] == [] <==> ls[i] == None) && (ls[i].Some? ==> ReadsBack(files, ls[i].value, ps[i]))
  }

  predicate Apart(a: Loc, b: Loc) {
    a.file != b.file || a.offset + a.size <= b.offset || b.offset + b.size <= a.offset
  }

  ghost predicate AllApart(ls: seq<Option<Loc>>) {
    forall i, j :: 0 <= i < j < |ls| && ls[i].Some? && ls[j].Some? ==> Apart(ls[i].value, ls[j].value)
  }

  /** Files only grow, and new places are beyond what a file held before. */
  ghost predicate Grown(was: Files, now: Files) {
    forall f :: f in was ==> f in now && was[f] <= now[f]
  }

  ghost predicate Beyond(was: Files, ls: seq<Option<Loc>>) {
    forall i :: 0 <= i < |ls| && ls[i].Some? && ls[i].value.file in was ==> |was[ls[i].value.file]| <= ls[i].value.offset
  }

  /** A file passes the limit only unchanged or for one payload that is itself too large. */
  ghost predicate Bounded(was: Files, now: Files, ps: seq<seq<byte>>, ls: seq<Option<Loc>>) {
    forall f :: f in now ==> |now[f]| <= 0x4000_0000 || (f in was && now[f] == was[f]) || OnlyOne(now[f], f, ps, ls)
  }

  ghost predicate OnlyOne(content: seq<byte>, f: nat, ps: seq<seq<byte>>, ls: seq<Option<Loc>>) {
    |ps| == |ls| && exists i :: 0 <= i < |ps| && ps[i] == content && ls[i] == Some(Loc(f, 0, |content|))
  }

  ghost predicate Allocated(was: Files, now: Files, ps: seq<seq<byte>>, ls: seq<Option<Loc>>) {
    AllRead(now, ps, ls) && AllApart(ls) && Grown(was, now) && Beyond(was, ls) && Bounded(was, now, ps, ls)
  }

  lemma NothingAllocated(was: Files)
    ensures Allocated(was, was, [], [])
  {
  }

  /** A payload of no bytes changes nothing. */
  lemma SkipEmpty(was: Files, now: Files, ps: seq<seq<byte>>, ls: seq<Option<Loc>>)
    requires Allocated(was, now, ps, ls)
    ensures Allocated(was, now, ps + [[]], ls + [None])
  {
    forall f | f in now ensures |now[f]| <= MAX_FILE_SIZE || (f in was && now[f] == was[f]) || OnlyOne(now[f], f, ps + [[]], ls + [None]) {
      if OnlyOne(now[f], f, ps, ls) {
        StillOne(now[f], f, ps, ls, [], None);
      }
    }
  }

  lemma StillOne(content: seq<byte>, f: nat, ps: seq<seq<byte>>, ls: seq<Option<Loc>>, p: seq<byte>, l: Option<Loc>)
    requires OnlyOne(content, f, ps, ls)
    ensures OnlyOne(content, f, ps + [p], ls + [l])
  {
    var i :| 0 <= i < |ps| && ps[i] == content && ls[i] == Some(Loc(f, 0, |content|));
    assert (ps + [p])[i] == content && (ls + [l])[i] == ls[i];
  }

  /** A new, empty file. */
  lemma RollOver(was: Files, now: Files, ps: seq<seq<byte>>, ls: seq<Option<Loc>>, f: nat)
    requires Allocated(was, now, ps, ls) && f !in now
    ensures Allocated(was, now[f := []], ps, ls)
  {
  }

  /** A payload at the end of a file that has room for it, or is still empty. */
  lemma Append(was: Files, now: Files, ps: seq<seq<byte>>, ls: seq<Option<Loc>>, f: nat, p: seq<byte>)
    requires Allocated(was, now, ps, ls) && f in now && p != [] && (|now[f]| + |p| <= MAX_FILE_SIZE || now[f] == [])
    ensures Allocated(was, now[f := now[f] + p], ps + [p], ls + [Some(Loc(f, |now[f]|, |p|))])
  {
    hide AllRead, AllApart, Grown, Beyond, Bounded;
    AppendReads(now, ps, ls, f, p);
    AppendApart(now, ps, ls, f, p);
    AppendGrows(was, now, f, p, ls);
    AppendBounded(was, now, ps, ls, f, p);
  }

  lemma AppendReads(now: Files, ps: seq<seq<byte>>, ls: seq<Option<Loc>>, f: nat, p: seq<byte>)
    requires AllRead(now, ps, ls) && f in now && p != []
    ensures AllRead(now[f := now[f] + p], ps + [p], ls + [Some(Loc(f, |now[f]|, |p|))])
  {
    var l := Loc(f, |now[f]|, |p|);
    var after, qs, ms := now[f := now[f] + p], ps + [p], ls + [Some(l)];
    assert ReadsBack(after, l, p);
    forall i | 0 <= i < |qs| ensures (qs[i] == [] <==> ms[i] == None) && (ms[i].Some? ==> ReadsBack(after, ms[i].value, qs[i])) {
      if i < |ps| && ls[i].Some? {
        StillReads(now, ls[i].value, ps[i], f, p);
      }
    }
  }

  lemma StillReads(now: Files, l: Loc, payload: seq<byte>, f: nat, p: seq<byte>)
    requires ReadsBack(now, l, payload) && f in now
    ensures ReadsBack(now[f := now[f] + p], l, payload)
  {
    if l.file == f {
      assert (now[f] + p)[l.offset..l.offset + l.size] == now[f][l.offset..l.offset + l.size];
    }
  }

  lemma AppendApart(now: Files, ps: seq<seq<byte>>, ls: seq<Option<Loc>>, f: nat, p: seq<byte>)
    requires AllRead(now, ps, ls) && AllApart(ls) && f in now
    ensures AllApart(ls + [Some(Loc(f, |now[f]|, |p|))])
  {
    var ms := ls + [Some(Loc(f, |now[f]|, |p|))];
    forall i, j | 0 <= i < j < |ms| && ms[i].Some? && ms[j].Some? ensures Apart(ms[i].value, ms[j].value) {
      if j == |ls| {
        assert ReadsBack(now, ls[i].value, ps[i]);
      }
    }
  }

  lemma AppendGrows(was: Files, now: Files, f: nat, p: seq<byte>, ls: seq<Option<Loc>>)
    requires Grown(was, now) && Beyond(was, ls) && f in now
    ensures Grown(was, now[f := now[f] + p]) && Beyond(was, ls + [Some(Loc(f, |now[f]|, |p|))])
  {
  }

  lemma AppendBounded(was: Files, now: Files, ps: seq<seq<byte>>, ls: seq<Option<Loc>>, f: nat, p: seq<byte>)
    requires Bounded(was, now, ps, ls) && |ps| == |ls| && f in now && (|now[f]| + |p| <= MAX_FILE_SIZE || now[f] == [])
    ensures Bounded(was, now[f := now[f] + p], ps + [p], ls + [Some(Loc(f, |now[f]|, |p|))])
  {
    hide OnlyOne;
    var l := Loc(f, |now[f]|, |p|);
    var after, qs, ms := now[f := now[f] + p], ps + [p], ls + [Some(l)];
    forall g | g in after ensures |after[g]| <= MAX_FILE_SIZE || (g in was && after[g] == was[g]) || OnlyOne(after[g], g, qs, ms) {
      if g == f {
        if now[f] == [] {
          assert after[f] == p;
          LastOne(qs, ms, f, p);
        }
      } else if OnlyOne(now[g], g, ps, ls) {
        StillOne(now[g], g, ps, ls, p, Some(l));
      }
    }
  }

  lemma LastOne(qs: seq<seq<byte>>, ms: seq<Option<Loc>>, f: nat, p: seq<byte>)
    requires |qs| == |ms| > 0 && qs[|qs| - 1] == p && ms[|ms| - 1] == Some(Loc(f, 0, |p|))
    ensures OnlyOne(p, f, qs, ms)
  {
    var i := |qs| - 1;
    assert qs[i] == p;
  }

  // ----- the allocator

  /** Ids start at 1. */
  ghost predicate IsNewest(files: Files, f: nat) {
    f in files && f > 0 && forall g :: g in files ==> g <= f
  }

  class Allocator {
    var files: Files
    var isOpen: bool
    var curId: nat
    var curSize: nat

    ghost predicate Valid()
      reads this
    {
      isOpen ==> curId in files && curSize == |files[curId]| && forall f :: f in files ==> f <= curId
    }

    constructor (files: Files)
      ensures Valid() && this.files == files && !isOpen
    {
      this.files, isOpen, curId, curSize := files, false, 0, 0;
    }

    /** `openOrCreateStorageFileLocked`: the file with the largest id when it has room, else a new one. */
    method Open()
      requires Valid() && !isOpen
      modifies this
      ensures Valid() && isOpen
      ensures files == old(files) || (curId !in old(files) && files == old(files)[curId := []])
      ensures forall f: nat :: IsNewest(old(files), f) ==>
                if |old(files)[f]| < 0x4000_0000 then curId == f && files == old(files)
                else curId == f + 1 && files == old(files)[curId := []]
      ensures (forall f :: f in old(files) ==> f == 0) ==> curId == 1 && files == old(files)[curId := []]
    {
      var maxId := MaxId(files);
      isOpen := true;
      if maxId > 0 && maxId in files && |files[maxId]| < MAX_FILE_SIZE {
        curId, curSize := maxId, |files[maxId]|;
        return;
      }
      curId, curSize := maxId + 1, 0;
      files := files[curId := []];
    }

    /** `ensureStorageCapacityLocked`: a file past the limit is closed for a new one. */
    method EnsureCapacity(need: nat)
      requires Valid()
      modifies this
      ensures Valid() && isOpen
      ensures files == old(files) || (curId !in old(files) && files == old(files)[curId := []])
      ensures old(isOpen) ==> curSize + need <= MAX_FILE_SIZE || files[curId] == []
      ensures old(isOpen) && old(curSize) + need <= 0x4000_0000 ==> curId == old(curId) && files == old(files)
      ensures old(isOpen) && old(curSize) + need > 0x4000_0000 ==> curId == old(curId) + 1 && files == old(files)[curId := []]
    {
      if !isOpen {
        Open();
        return;
      }
      if curSize + need > MAX_FILE_SIZE {
        curSize, curId := 0, curId + 1;
        files := files[curId := []];
      }
    }

    /** The batch goes to the end of the current file. */
    method FlushBatch(batch: seq<byte>, batchStart: nat)
      requires Valid() && (batch != [] ==> isOpen && batchStart == curSize)
      modifies this`files, this`curSize
      ensures Valid() && (isOpen ==> curId in old(files) && files == old(files)[curId := old(files)[curId] + batch])
      ensures !isOpen ==> files == old(files)
    {
      if batch == [] {
        NothingPending(files, isOpen, curId);
        return;
      }
      assert files[curId][..batchStart] == files[curId];
      files := files[curId := files[curId][..batchStart] + batch];
      curSize := batchStart + |batch|;
    }

    /** Make room for a payload: after it the batch is empty, or the payload still fits behind it. */
    method MakeRoom(batch: seq<byte>, batchStart: nat, p: seq<byte>, ghost was: Files, ghost ps: seq<seq<byte>>, ghost ls: seq<Option<Loc>>)
      returns (rest: seq<byte>, start: nat)
      requires Valid() && p != [] && (batch != [] ==> isOpen && batchStart == curSize)
      requires Allocated(was, View(files, isOpen, curId, batch), ps, ls)
      modifies this
      ensures Valid() && isOpen && start == curSize
      ensures Allocated(was, View(files, isOpen, curId, rest), ps, ls)
      ensures curSize + |rest| + |p| <= MAX_FILE_SIZE || (rest == [] && files[curId] == [])
      ensures old(isOpen) && old(curSize) + |batch| + |p| <= 0x4000_0000 ==> curId == old(curId) && files == old(files) && rest == batch
    {
      hide Allocated;
      rest, start := batch, batchStart;
      NothingPending(files, isOpen, curId);
      if batch == [] {
        label First:
        EnsureCapacity(|p|);
        AfterEnsure(was, old@First(files), files, curId, ps, ls);
        start := curSize;
      }
      if curSize + |rest| + |p| > MAX_FILE_SIZE {
        FlushBatch(rest, start);
        rest := [];
        label Second:
        assert files[curId] + [] == files[curId];
        EnsureCapacity(|p|);
        AfterEnsure(was, old@Second(files), files, curId, ps, ls);
        start := curSize;
      }
    }

    /** `appendPreparedInlineStorageSegments`. */
    method AppendAll(plans: seq<seq<byte>>) returns (ls: seq<Option<Loc>>)
      requires Valid()
      modifies this
      ensures Valid() && Allocated(old(files), files, plans, ls)
    {
      hide Allocated;
      ghost var was := files;
      ls := [];
      var batch: seq<byte>, batchStart: nat := [], 0;
      NothingAllocated(was);
      assert View(files, isOpen, curId, []) == files by { NothingPending(files, isOpen, curId); }
      for k := 0 to |plans|
        invariant Valid() && (batch != [] ==> isOpen && batchStart == curSize)
        invariant Allocated(was, View(files, isOpen, curId, batch), plans[..k], ls)
      {
        var p := plans[k];
        assert plans[..k + 1] == plans[..k] + [p];
        if p == [] {
          SkipEmpty(was, View(files, isOpen, curId, batch), plans[..k], ls);
          ls := ls + [None];
        } else {
          batch, batchStart := MakeRoom(batch, batchStart, p, was, plans[..k], ls);
          Append(was, View(files, isOpen, curId, batch), plans[..k], ls, curId, p);
          OneMorePending(files, curId, batch, p);
          ls := ls + [Some(Loc(curId, batchStart + |batch|, |p|))];
          batch := batch + p;
        }
      }
      assert plans[..|plans|] == plans;
      FlushBatch(batch, batchStart);
    }
  }

  /** The files as they will be once the batch is written. */
  ghost function View(files: Files, isOpen: bool, cur: nat, batch: seq<byte>): Files {
    if isOpen && cur in files then files[cur := files[cur] + batch] else files
  }

  lemma NothingPending(files: Files, isOpen: bool, cur: nat)
    ensures View(files, isOpen, cur, []) == files
  {
    if cur in files {
      assert files[cur] + [] == files[cur];
      assert files[cur := files[cur]] == files;
    }
  }

  lemma OneMorePending(files: Files, cur: nat, batch: seq<byte>, p: seq<byte>)
    requires cur in files
    ensures var v := View(files, true, cur, batch);
            cur in v && |v[cur]| == |files[cur]| + |batch| && v[cur := v[cur] + p] == View(files, true, cur, batch + p)
  {
    assert (files[cur] + batch) + p == files[cur] + (batch + p);
  }

  lemma AfterEnsure(was: Files, before: Files, after: Files, cur: nat, ps: seq<seq<byte>>, ls: seq<Option<Loc>>)
    requires Allocated(was, before, ps, ls) && cur in after
    requires after == before || (cur !in before && after == before[cur := []])
    ensures Allocated(was, after, ps, ls) && View(after, true, cur, []) == after
  {
    hide Allocated;
    NothingPending(after, true, cur);
    if after != before {
      RollOver(was, before, ps, ls, cur);
    }
  }

  method MaxId(files: Files) returns (m: nat)
    ensures forall f :: f in files ==> f <= m
    ensures m == 0 || m in files
  {
    m := 0;
    var rest := files.Keys;
    while rest != {}
      invariant rest <= files.Keys && (m == 0 || m in files)
      invariant forall f :: f in files && f !in rest ==> f <= m
      decreases rest
    {
      var f :| f in rest;
      rest := rest - {f};
      if f > m {
        m := f;
      }
    }
  }
}
