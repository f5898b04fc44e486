/** The segment index of one folder as it is rewritten and incrementally updated: two levels on
    disk, always the same chunk list. */
module SegmentFolder {
  import opened Bytes
  import opened SegmentIndex
  import opened SegmentLayout

  type Groups = seq<seq<Meta>>

  // ----- groups

  ghost function Flatten(gs: Groups): seq<Meta> {
    if gs == [] then [] else Flatten(gs[..|gs| - 1]) + gs[|gs| - 1]
  }

  ghost predicate NoneEmpty(gs: Groups) {
    forall i :: 0 <= i < |gs| ==> gs[i] != []
  }

  ghost function Heads(gs: Groups): seq<Meta>
    requires NoneEmpty(gs)
  {
    seq(|gs|, i requires 0 <= i < |gs| => gs[i][0])
  }

  lemma FlattenSnoc(gs: Groups, g: seq<Meta>)
    ensures Flatten(gs + [g]) == Flatten(gs) + g
  {
    assert (gs + [g])[..|gs|] == gs;
  }

  lemma LastLeqConcat(a: seq<Meta>, b: seq<Meta>, key: Key)
    ensures LastLeq(a + b, key) == if LastLeq(b, key) >= 0 then |a| + LastLeq(b, key) else LastLeq(a, key)
  {
    hide LastLeq, Leq;
    var i, j := LastLeq(a, key), LastLeq(b, key);
    var r := if j >= 0 then |a| + j else i;
    forall x | r < x < |a| + |b| ensures !Leq((a + b)[x].start, key) {
      if x >= |a| {
        assert (a + b)[x] == b[x - |a|];
      }
    }
    LastLeqIs(a + b, key, r);
  }

  /** Choosing a group by its first start key, then a chunk inside it, is choosing in the whole list. */
  lemma {:induction false} TwoLevelIsLinear(gs: Groups, key: Key)
    requires NoneEmpty(gs) && StartsSorted(Flatten(gs))
    ensures var g := LastLeq(Heads(gs), key);
            Select(Flatten(gs), key) == if g < 0 then None else Select(gs[g], key)
    decreases |gs|
  {
    hide LastLeq, Less, Leq, Select, StartsSorted;
    if gs == [] {
      LastLeqIs([], key, -1);
      NothingToSelect(key);
    } else {
      var n := |gs| - 1;
      var init, last := gs[..n], gs[n];
      assert Heads(gs) == Heads(init) + [last[0]];
      LastLeqConcat(Heads(init), [last[0]], key);
      SelectConcat(Flatten(init), last, key);
      SortedParts(Flatten(init), last);
      if Leq(last[0].start, key) {
        LastLeqIs([last[0]], key, 0);
        HeadTaken(last, key);
      } else {
        LastLeqIs([last[0]], key, -1);
        NoneTaken(last, key);
        TwoLevelIsLinear(init, key);
      }
    }
  }

  lemma NothingToSelect(key: Key)
    ensures Select([], key) == None
  {
  }

  lemma SelectConcat(a: seq<Meta>, b: seq<Meta>, key: Key)
    ensures Select(a + b, key) == if Select(b, key).Some? then Select(b, key) else Select(a, key)
  {
    hide LastLeq;
    LastLeqConcat(a, b, key);
  }

  lemma SortedParts(a: seq<Meta>, b: seq<Meta>)
    requires StartsSorted(a + b)
    ensures StartsSorted(a) && StartsSorted(b)
  {
    hide Less, Leq;
    assert forall i :: 0 <= i < |a| ==> (a + b)[i] == a[i];
    assert forall i :: 0 <= i < |b| ==> (a + b)[|a| + i] == b[i];
  }

  lemma HeadTaken(g: seq<Meta>, key: Key)
    requires g != [] && Leq(g[0].start, key)
    ensures Select(g, key).Some?
  {
    hide LastLeq, Leq;
  }

  lemma NoneTaken(g: seq<Meta>, key: Key)
    requires g != [] && !Leq(g[0].start, key) && StartsSorted(g)
    ensures Select(g, key) == None
  {
    hide LastLeq, Less;
    forall i | 0 <= i < |g| ensures !Leq(g[i].start, key) {
      if i > 0 && Leq(g[i].start, key) {
        LeqTransitive(g[0].start, g[i].start, key);
      }
    }
    LastLeqIs(g, key, -1);
  }

  /** `splitSegmentMetas`. */
  method SplitMetas(ms: seq<Meta>, limit: nat) returns (gs: Groups)
    ensures Flatten(gs) == ms && NoneEmpty(gs)
    ensures forall i :: 0 <= i < |gs| ==> |gs[i]| == 1 || 4 + |gs[i]| * FLAT_ENTRY <= limit
    ensures forall i :: 0 <= i < |gs| - 1 ==> 4 + (|gs[i]| + 1) * FLAT_ENTRY > limit
  {
    hide Flatten;
    gs := [];
    var start, size := 0, 4;
    assert ms[..0] == [] && Flatten([]) == [] by { FlattenNone(); }
    for i := 0 to |ms|
      invariant 0 <= start <= i && size == 4 + (i - start) * FLAT_ENTRY
      invariant Flatten(gs) == ms[..start] && NoneEmpty(gs)
      invariant i - start <= 1 || size <= limit
      invariant forall j :: 0 <= j < |gs| ==> |gs[j]| == 1 || 4 + |gs[j]| * FLAT_ENTRY <= limit
      invariant forall j :: 0 <= j < |gs| ==> 4 + (|gs[j]| + 1) * FLAT_ENTRY > limit
    {
      if size + FLAT_ENTRY > limit && i > start {
        FlattenSnoc(gs, ms[start..i]);
        assert ms[..start] + ms[start..i] == ms[..i];
        gs := gs + [ms[start..i]];
        start, size := i, 4;
      }
      size := size + FLAT_ENTRY;
      if size >= limit {
        FlattenSnoc(gs, ms[start..i + 1]);
        assert ms[..start] + ms[start..i + 1] == ms[..i + 1];
        gs := gs + [ms[start..i + 1]];
        start, size := i + 1, 4;
      }
    }
    if start < |ms| {
      FlattenSnoc(gs, ms[start..]);
      assert ms[..start] + ms[start..] == ms;
      gs := gs + [ms[start..]];
    } else {
      assert ms[..start] == ms;
    }
  }

  /** Groups as they are cut: within the limit or of one chunk, and none with room for one more. */
  ghost predicate GreedyGroups(gs: Groups, limit: nat) {
    && (forall i :: 0 <= i < |gs| ==> |gs[i]| == 1 || 4 + |gs[i]| * FLAT_ENTRY <= limit)
    && forall i :: 0 <= i < |gs| - 1 ==> 4 + (|gs[i]| + 1) * FLAT_ENTRY > limit
  }

  ghost predicate SameSizes(a: Groups, b: Groups) {
    |a| == |b| && forall i :: 0 <= i < |a| ==> |a[i]| == |b[i]|
  }

  lemma FlattenNone()
    ensures Flatten([]) == []
  {
  }

  // ----- the layout on disk

  ghost predicate Ascending(es: seq<Entry>) {
    forall i, j :: 0 <= i < j < |es| ==> es[i].id < es[j].id
  }

  ghost predicate HasId(es: seq<Entry>, id: u32) {
    exists i :: 0 <= i < |es| && es[i].id == id
  }

  /** An entry describes a group, and the group's file holds it. */
  ghost predicate Describes(e: Entry, g: seq<Meta>, l2: map<u32, seq<byte>>) {
    g != [] && Compact(g) && e.count == |g| && e.start == g[0].start && e.id in l2 && l2[e.id] == EncodeFlat(g)
  }

  /** The two levels hold the groups: ids distinct and below the next id, and no stray L2 file. */
  ghost predicate LevelsOk(next: u32, es: seq<Entry>, gs: Groups, l2: map<u32, seq<byte>>) {
    && CompactTop(es) && |es| == |gs| && Ascending(es) && next > 0
    && (forall i :: 0 <= i < |es| ==> 1 <= es[i].id < next && Describes(es[i], gs[i], l2))
    && (forall id :: id in l2 ==> HasId(es, id))
  }

  lemma LevelsNoneEmpty(next: u32, es: seq<Entry>, gs: Groups, l2: map<u32, seq<byte>>)
    requires LevelsOk(next, es, gs, l2)
    ensures |es| == |gs| && NoneEmpty(gs)
  {
    hide EncodeFlat, Compact;
    forall i | 0 <= i < |gs| ensures gs[i] != [] {
      assert Describes(es[i], gs[i], l2);
    }
  }

  /** Group start keys ascend with the ids, so the top level needs no reordering. */
  lemma LevelsOrdered(next: u32, es: seq<Entry>, gs: Groups, l2: map<u32, seq<byte>>)
    requires LevelsOk(next, es, gs, l2) && StartsSorted(Flatten(gs))
    ensures OrderedBy(LessEntry, es)
  {
    hide EncodeFlat, Less;
    LevelsNoneEmpty(next, es, gs, l2);
    forall i, j | 0 <= i < j < |es| ensures !LessEntry(es[j], es[i]) {
      assert Describes(es[i], gs[i], l2) && Describes(es[j], gs[j], l2);
      HeadsSorted(gs, i, j);
      LessTrichotomy(es[i].start, es[j].start);
    }
  }

  lemma {:induction false} HeadsSorted(gs: Groups, i: nat, j: nat)
    requires NoneEmpty(gs) && StartsSorted(Flatten(gs)) && i < j < |gs|
    ensures Leq(gs[i][0].start, gs[j][0].start)
    decreases |gs|
  {
    hide Less;
    var n := |gs| - 1;
    var all := Flatten(gs[..n]);
    SortedParts(all, gs[n]);
    if j < n {
      HeadsSorted(gs[..n], i, j);
    } else {
      var x := HeadAt(gs[..n], i);
      assert Flatten(gs)[x] == all[x] && Flatten(gs)[|all|] == gs[n][0];
    }
  }

  lemma {:induction false} HeadAt(gs: Groups, i: nat) returns (x: nat)
    requires NoneEmpty(gs) && i < |gs|
    ensures x < |Flatten(gs)| && Flatten(gs)[x] == gs[i][0]
    decreases |gs|
  {
    var n := |gs| - 1;
    if i == n {
      x := |Flatten(gs[..n])|;
    } else {
      x := HeadAt(gs[..n], i);
    }
  }

  // ----- regrouping and ids

  method SumCounts(es: seq<Entry>, ghost gs: Groups) returns (sum: nat)
    requires |es| == |gs| && forall i :: 0 <= i < |es| ==> es[i].count == |gs[i]|
    ensures sum == |Flatten(gs)|
  {
    sum := 0;
    for i := 0 to |es|
      invariant sum == |Flatten(gs[..i])|
    {
      assert gs[..i + 1][..i] == gs[..i];
      sum := sum + es[i].count;
    }
    assert gs[..|gs|] == gs;
  }

  /** Cut `ms` by the chunk counts of the top-level entries. */
  method CutByCounts(ms: seq<Meta>, es: seq<Entry>, ghost gs: Groups) returns (r: Groups)
    requires |es| == |gs| && NoneEmpty(gs) && (forall i :: 0 <= i < |es| ==> es[i].count == |gs[i]|) && |Flatten(gs)| == |ms|
    ensures |r| == |es| && Flatten(r) == ms && forall i :: 0 <= i < |r| ==> |r[i]| == |gs[i]|
    ensures ms == Flatten(gs) ==> r == gs
  {
    hide Flatten;
    r := [];
    var off: nat := 0;
    FlattenNone();
    for i := 0 to |es|
      invariant |r| == i && off == |Flatten(gs[..i])| <= |ms| && Flatten(r) == ms[..off]
      invariant forall j :: 0 <= j < i ==> |r[j]| == |gs[j]|
      invariant ms == Flatten(gs) ==> r == gs[..i]
    {
      var cnt: nat := es[i].count;
      GroupInside(gs, i);
      FlattenSnoc(r, ms[off..off + cnt]);
      assert ms[..off] + ms[off..off + cnt] == ms[..off + cnt];
      r := r + [ms[off..off + cnt]];
      off := off + cnt;
    }
    assert gs[..|gs|] == gs && ms[..|ms|] == ms;
  }

  lemma {:induction false} GroupInside(gs: Groups, i: nat)
    requires i < |gs|
    ensures var off := |Flatten(gs[..i])|;
            && |Flatten(gs[..i + 1])| == off + |gs[i]| <= |Flatten(gs)|
            && Flatten(gs)[off..off + |gs[i]|] == gs[i]
    decreases |gs|
  {
    hide Flatten;
    var n := |gs| - 1;
    var init := gs[..n];
    assert gs == init + [gs[n]] && gs[..i + 1] == gs[..i] + [gs[i]];
    FlattenSnoc(init, gs[n]);
    FlattenSnoc(gs[..i], gs[i]);
    if i < n {
      GroupInside(init, i);
      assert init[..i] == gs[..i] && init[..i + 1] == gs[..i + 1] && init[i] == gs[i];
      SliceOfLonger(Flatten(init), gs[n], |Flatten(gs[..i])|, |Flatten(gs[..i])| + |gs[i]|);
    } else {
      assert gs[..i] == init && gs[..i + 1] == gs;
    }
  }

  lemma SliceOfLonger(a: seq<Meta>, b: seq<Meta>, i: nat, j: nat)
    requires i <= j <= |a|
    ensures (a + b)[i..j] == a[i..j]
  {
  }

  /** Existing ids are reused in order; new groups get fresh ids. */
  method AssignIds(es: seq<Entry>, n: nat, next: u32) returns (ids: seq<u32>, last: u32)
    requires Ascending(es) && (forall i :: 0 <= i < |es| ==> 1 <= es[i].id < next) && 1 <= next && next as int + n < 0x1_0000_0000
    ensures |ids| == n && last >= next
    ensures forall i, j :: 0 <= i < j < n ==> ids[i] < ids[j]
    ensures forall i :: 0 <= i < n ==> 1 <= ids[i] < last
  {
    ids, last := [], next;
    for i := 0 to n
      invariant |ids| == i && next <= last <= next as int + i
      invariant forall x, y :: 0 <= x < y < i ==> ids[x] < ids[y]
      invariant forall x :: 0 <= x < i ==> 1 <= ids[x] < last
      invariant i <= |es| ==> last == next && forall x :: 0 <= x < i ==> ids[x] == es[x].id
    {
      if i < |es| {
        ids := ids + [es[i].id];
      } else {
        ids := ids + [last];
        last := last + 1;
      }
    }
  }

  ghost predicate GroupsCompact(gs: Groups) {
    forall i :: 0 <= i < |gs| ==> Compact(gs[i])
  }

  /** Write every group to its file and list it at the top level. */
  method WriteGroups(gs: Groups, ids: seq<u32>, l2: map<u32, seq<byte>>) returns (es: seq<Entry>, files: map<u32, seq<byte>>)
    requires |ids| == |gs| && NoneEmpty(gs) && GroupsCompact(gs)
    requires forall i, j :: 0 <= i < j < |ids| ==> ids[i] < ids[j]
    ensures |es| == |gs| && forall i :: 0 <= i < |es| ==> es[i].id == ids[i] && Describes(es[i], gs[i], files)
    ensures files.Keys == l2.Keys + (set i | 0 <= i < |ids| :: ids[i])
  {
    hide EncodeFlat;
    es, files := [], l2;
    for k := 0 to |gs|
      invariant |es| == k && forall i :: 0 <= i < k ==> es[i].id == ids[i] && Describes(es[i], gs[i], files)
      invariant files.Keys == l2.Keys + (set i | 0 <= i < k :: ids[i])
    {
      assert Compact(gs[k]);
      var buf := WriteFlat(gs[k]);
      var e := Entry(ids[k], |gs[k]|, gs[k][0].start);
      ghost var was := files;
      files := files[ids[k] := buf];
      forall i | 0 <= i < k ensures Describes(es[i], gs[i], files) {
        assert Describes(es[i], gs[i], was) && ids[i] < ids[k];
      }
      es := es + [e];
    }
  }

  /** `removeStaleLevel2IndexFiles`. */
  function RemoveStale(l2: map<u32, seq<byte>>, es: seq<Entry>, keep: set<u32>): map<u32, seq<byte>> {
    l2 - (set i | 0 <= i < |es| && es[i].id !in keep :: es[i].id)
  }

  /** After writing the new groups and dropping the stale files the two levels are right. */
  lemma LevelsWritten(next: u32, last: u32, old_es: seq<Entry>, es: seq<Entry>, gs: Groups, ids: seq<u32>, l2: map<u32, seq<byte>>, files: map<u32, seq<byte>>)
    requires |es| == |gs| == |ids| && CompactTop(es) && last > 0
    requires forall i :: 0 <= i < |es| ==> es[i].id == ids[i] && 1 <= ids[i] < last && Describes(es[i], gs[i], files)
    requires forall i, j :: 0 <= i < j < |ids| ==> ids[i] < ids[j]
    requires files.Keys == l2.Keys + (set i | 0 <= i < |ids| :: ids[i])
    requires forall id :: id in l2 ==> HasId(old_es, id)
    ensures LevelsOk(last, es, gs, RemoveStale(files, old_es, set i | 0 <= i < |ids| :: ids[i]))
  {
    hide EncodeFlat, Compact, CompactTop;
    var keep := set i | 0 <= i < |ids| :: ids[i];
    var l := RemoveStale(files, old_es, keep);
    forall i | 0 <= i < |es| ensures Describes(es[i], gs[i], l) {
      assert Describes(es[i], gs[i], files);
      assert ids[i] in keep;
    }
    forall id | id in l ensures HasId(es, id) {
      assert HasId(old_es, id) || id in keep;
      var i :| 0 <= i < |ids| && ids[i] == id;
      assert es[i].id == id;
    }
  }

  lemma {:induction false} CompactParts(gs: Groups)
    requires Compact(Flatten(gs)) && NoneEmpty(gs)
    ensures GroupsCompact(gs) && |gs| <= |Flatten(gs)|
  {
    if gs != [] {
      var n := |gs| - 1;
      var a, b := Flatten(gs[..n]), gs[n];
      assert forall i :: 0 <= i < |a| ==> (a + b)[i] == a[i];
      assert forall i :: 0 <= i < |b| ==> (a + b)[|a| + i] == b[i];
      CompactParts(gs[..n]);
      forall i | 0 <= i < |gs| ensures Compact(gs[i]) {
        if i < n {
          assert Compact(gs[..n][i]);
        }
      }
    }
  }

  lemma CompactPermuted(a: seq<Meta>, b: seq<Meta>)
    requires multiset(a) == multiset(b) && Compact(a)
    ensures Compact(b)
  {
    assert |a| == |multiset(a)| && |b| == |multiset(b)|;
    forall i | 0 <= i < |b| ensures |b[i].start| <= KEY_START_MAX {
      assert b[i] in multiset(b);
      assert b[i] in a;
    }
  }

  lemma CompactEntries(es: seq<Entry>, gs: Groups, files: map<u32, seq<byte>>)
    requires |es| == |gs| < 0xffff_ffff && forall i :: 0 <= i < |es| ==> Describes(es[i], gs[i], files)
    ensures CompactTop(es)
  {
    hide EncodeFlat;
    forall i | 0 <= i < |es| ensures |es[i].start| <= KEY_START_MAX {
      assert Describes(es[i], gs[i], files);
    }
  }

  datatype Layout = Flat(data: seq<byte>) | Multi(next: u32, entries: seq<Entry>)

  /** What the folder's index file and L2 files hold. */
  ghost predicate Holds(index: Option<seq<byte>>, l2: map<u32, seq<byte>>, ms: seq<Meta>, multi: bool, next: u32, es: seq<Entry>, gs: Groups) {
    && Ordered(ms) && Compact(ms)
    && if multi then
         LevelsOk(next, es, gs, l2) && Flatten(gs) == ms && index == Some(EncodeTop(next, es))
       else
         l2 == map[] && if ms == [] then index == None else index == Some(EncodeFlat(ms))
  }

  class Folder {
    const level2Size: nat
    const threshold: nat

    var index: Option<seq<byte>>
    var l2: map<u32, seq<byte>>

    /** The chunk list, and how the two levels hold it. */
    ghost var metas: seq<Meta>
    ghost var multi: bool
    ghost var next: u32
    ghost var entries: seq<Entry>
    ghost var groups: Groups

    ghost predicate Valid()
      reads this
    {
      Holds(index, l2, metas, multi, next, entries, groups)
    }

    constructor (level2Size: nat, threshold: nat)
      ensures Valid() && metas == [] && this.level2Size == level2Size && this.threshold == threshold && !multi
    {
      this.level2Size, this.threshold := level2Size, threshold;
      index, l2 := None, map[];
      metas, multi, next, entries, groups := [], false, 1, [], [];
    }

    /** `loadSegmentIndexLayout`. */
    method Load() returns (r: Layout)
      requires Valid()
      ensures if multi then r == Multi(next, entries) else r == Flat(if index.Some? then index.value else [])
    {
      hide EncodeTop, EncodeFlat, LevelsOk, Get32, LessEntry, Ordered;
      if index.None? {
        return Flat([]);
      }
      var data := index.value;
      if multi {
        LevelsCompact(next, entries, groups, l2);
        TopReads(next, entries);
        OrderedStarts(metas);
        LevelsOrdered(next, entries, groups, l2);
      } else {
        FlatIsNotMulti(metas);
      }
      if IsMulti(data) {
        var p := ParseTop(data, next, entries);
        return Multi(p.next, p.entries);
      }
      r := Flat(data);
    }

    /** `readSegmentIndexNoCacheByPathLocked`: the whole chunk list. */
    method ReadAll(layout: Layout) returns (ms: seq<Meta>)
      requires Valid() && if multi then layout == Multi(next, entries) else layout == Flat(if index.Some? then index.value else [])
      ensures ms == metas
    {
      hide EncodeTop, EncodeFlat, LevelsOk, Ordered, Compact, Flatten;
      match layout {
        case Flat(data) =>
          if data == [] {
            FlatHasHeader(metas);
            return [];
          }
          var r := DecodeFlat(data, metas);
          return if r.Some? then r.value else [];
        case Multi(_, es) =>
          ms := ReadGroups(es, l2, next, groups);
      }
    }

    /** `writeSegmentIndexLocked`: the folder then holds the given chunks, sorted. */
    method WriteIndex(ms: seq<Meta>)
      requires Valid() && Compact(ms) && (multi ==> next as int + |ms| < 0xffff_ffff) && 1 + |ms| < 0xffff_ffff
      modifies this
      ensures Valid() && multiset(metas) == multiset(ms) && (Ordered(ms) ==> metas == ms)
      ensures DistinctFiles(ms) ==> DistinctFiles(metas)
      ensures multi <==> ms != [] && 12 + |ms| * FLAT_ENTRY > threshold
      ensures multi && old(multi) && |old(metas)| == |ms| && old(entries) != [] ==> SameSizes(groups, old(groups))
      ensures multi && (!old(multi) || |old(metas)| != |ms| || old(entries) == []) ==> GreedyGroups(groups, level2Size)
    {
      hide EncodeTop, EncodeFlat, LevelsOk, Ordered, Compact, Flatten, LessMeta, DistinctFiles;
      var r := Sorted(ms);
      DistinctPermuted(ms, r);
      CompactPermuted(ms, r);
      SameLength(ms, r);
      var layout := Load();
      if r == [] {
        l2 := DropAll(layout);
        index := None;
        metas, multi := [], false;
        return;
      }
      if 12 + |r| * FLAT_ENTRY <= threshold {
        var buf := WriteFlat(r);
        l2 := DropAll(layout);
        index := Some(buf);
        metas, multi := r, false;
        return;
      }
      if layout.Flat? {
        WriteLevels(r, 1, []);
      } else {
        WriteLevels(r, layout.next, layout.entries);
      }
    }

    /** All L2 files go: those the old layout lists, or, without one, any there are. */
    method DropAll(layout: Layout) returns (files: map<u32, seq<byte>>)
      requires Valid() && if multi then layout == Multi(next, entries) else layout.Flat?
      ensures files == map[]
    {
      hide EncodeTop, EncodeFlat, Ordered, Compact, Flatten, CompactTop;
      files := map[];
      if layout.Multi? && layout.entries != [] {
        files := RemoveStale(l2, layout.entries, {});
        forall id | id in l2 ensures id !in files {
          assert HasId(entries, id);
        }
      }
    }

    /** The two-level case of an index write. */
    method WriteLevels(r: seq<Meta>, next0: u32, es0: seq<Entry>)
      requires Valid() && Ordered(r) && Compact(r) && r != [] && next0 as int + |r| < 0xffff_ffff
      requires if multi then next0 == next && es0 == entries else next0 == 1 && es0 == []
      modifies this
      ensures Valid() && metas == r && multi
      ensures old(multi) && |old(metas)| == |r| && old(entries) != [] ==> SameSizes(groups, old(groups))
      ensures !old(multi) || |old(metas)| != |r| || old(entries) == [] ==> GreedyGroups(groups, level2Size)
    {
      hide EncodeTop, EncodeFlat, LevelsOk, Ordered, Compact, Flatten, GroupsCompact, Describes, CompactTop;
      var gs := Regroup(r, es0);
      CompactParts(gs);
      AscendingIds(next0, es0, groups, l2, multi);
      var ids, last := AssignIds(es0, |gs|, next0);
      var es, files := WriteGroups(gs, ids, l2);
      CompactEntries(es, gs, files);
      LevelsWritten(next0, last, es0, es, gs, ids, l2, files);
      l2 := RemoveStale(files, es0, set i | 0 <= i < |ids| :: ids[i]);
      metas, multi, next, entries, groups := r, true, last, es, gs;
      OrderedStarts(r);
      LevelsOrdered(last, es, gs, l2);
      EntryOrder();
      var top := Normalize(LessEntry, es);
      var buf := WriteTop(last, top);
      index := Some(buf);
    }

    /** The previous grouping when the counts still add up, else groups by size. */
    method Regroup(r: seq<Meta>, es0: seq<Entry>) returns (gs: Groups)
      requires Valid() && r != [] && if multi then es0 == entries else es0 == []
      ensures Flatten(gs) == r && NoneEmpty(gs) && gs != []
      ensures multi && |metas| == |r| && entries != [] ==> SameSizes(gs, groups)
      ensures !multi || |metas| != |r| || entries == [] ==> GreedyGroups(gs, level2Size)
    {
      hide EncodeTop, EncodeFlat, Ordered, Compact, Flatten, CompactTop;
      gs := [];
      FlattenNone();
      if es0 != [] {
        LevelsNoneEmpty(next, entries, groups, l2);
        assert forall i :: 0 <= i < |es0| ==> Describes(es0[i], groups[i], l2);
        var sum := SumCounts(es0, groups);
        if sum == |r| {
          gs := CutByCounts(r, es0, groups);
          return;
        }
      }
      gs := SplitMetas(r, level2Size);
    }

    /** The chunk that may hold `key`: the flat search over bytes, or the two-level search. Both are
        the linear scan over the chunk list; the empty key gets the first chunk of the whole list. */
    method Locate(key: Key) returns (r: Option<Meta>)
      requires Valid()
      ensures key != [] ==> r == Select(metas, key)
      ensures key == [] ==> r == if metas == [] then None else Some(metas[0])
    {
      hide EncodeTop, EncodeFlat, LevelsOk, Ordered, Compact, Flatten, LastLeq, Select;
      OrderedStarts(metas);
      var layout := Load();
      if key == [] {
        var all := ReadAll(layout);
        r := SelectMeta(all, key);
        return;
      }
      match layout {
        case Flat(data) =>
          NothingToSelect(key);
          if data == [] {
            FlatHasHeader(metas);
            return None;
          }
          var chosen := SelectFlat(data, key, metas);
          return if chosen.Chunk? then chosen.meta else None;
        case Multi(nx, es) =>
          r := LocateInGroups(nx, es, key);
      }
    }

    method LocateInGroups(nx: u32, es: seq<Entry>, key: Key) returns (r: Option<Meta>)
      requires Valid() && key != [] && multi && nx == next && es == entries
      ensures r == Select(metas, key)
    {
      hide EncodeTop, EncodeFlat, Ordered, Compact, Flatten, LastLeq, Select, CompactTop;
      OrderedStarts(metas);
      LevelsNoneEmpty(next, entries, groups, l2);
      TwoLevelIsLinear(groups, key);
      var g := SelectTop(es, key, groups, l2);
      if g < 0 {
        return None;
      }
      assert Describes(es[g], groups[g], l2);
      var ms := DecodeFlat(l2[es[g].id], groups[g]);
      GroupSorted(groups, g);
      if ms.None? {
        return None;
      }
      r := SelectMeta(ms.value, key);
      if r.None? {
        var all := ReadAll(Multi(nx, es));
        r := SelectMeta(all, key);
      }
    }

    /** `writeSegmentIndexIncrementalGCLocked`: chunks replaced in place, touching only the groups
        that hold them. A flat index is rewritten whole, and sorted if the replacements are not in
        place; two levels are not, so they need them in place. */
    method IncrementalGc(repl: Replacements) returns (ok: bool)
      requires Valid() && OwnNames(repl) && DistinctFiles(metas)
      requires multi ==> InPlace(metas, repl) || InRange(metas, repl)
      requires var after := Replaced(metas, repl, repl.Keys);
               Compact(after) && 1 + |after| < 0xffff_ffff && (multi ==> next as int + |after| < 0xffff_ffff)
      modifies this
      ensures Valid()
      ensures ok <==> repl == map[] || ReplacesSome(old(metas), repl)
      ensures if ok then multiset(metas) == multiset(Replaced(old(metas), repl, repl.Keys)) else metas == old(metas)
      ensures ok && (InPlace(old(metas), repl) || InRange(old(metas), repl)) ==> metas == Replaced(old(metas), repl, repl.Keys)
      ensures NewNames(old(metas), repl) ==> DistinctFiles(metas)
    {
      hide EncodeTop, EncodeFlat, LevelsOk, Ordered, Compact, Flatten, Replaced, OwnNames, DistinctFiles, ReplacesSome,
           InPlace, InRange, NewNames;
      ReplacedNone(metas, repl);
      if InPlace(metas, repl) || InRange(metas, repl) {
        ReplacedOrdered(metas, repl);
      }
      if NewNames(metas, repl) {
        ReplacedDistinct(metas, repl);
      }
      if repl == map[] {
        return true;
      }
      var layout := Load();
      var current := ReadAll(layout);
      if layout.Flat? || layout.entries == [] {
        ok := RewriteAll(current, repl);
        return;
      }
      var gs := GroupsOf(layout.entries, current);
      var found, after, affected := ReplaceInGroups(gs, repl);
      if !found {
        ok := RewriteAll(current, repl);
        return;
      }
      FlattenReplaced(gs, after, repl);
      FoundSome(gs, repl);
      WriteAffected(layout.next, layout.entries, after, affected);
      ok := true;
    }

    method RewriteAll(current: seq<Meta>, repl: Replacements) returns (ok: bool)
      requires Valid() && current == metas
      requires var after := Replaced(metas, repl, repl.Keys);
               Compact(after) && 1 + |after| < 0xffff_ffff && (multi ==> next as int + |after| < 0xffff_ffff)
      modifies this
      ensures Valid()
      ensures ok <==> ReplacesSome(old(metas), repl)
      ensures var after := Replaced(old(metas), repl, repl.Keys);
              && (if ok then multiset(metas) == multiset(after) else metas == old(metas))
              && (ok && Ordered(after) ==> metas == after)
              && (ok && DistinctFiles(after) ==> DistinctFiles(metas))
    {
      hide Holds, Ordered, Compact, Replaced;
      var updated, changed := BuildUpdated(current, repl);
      if !changed {
        return false;
      }
      WriteIndex(updated);
      ok := true;
    }

    /** `buildLayoutGroupsFromMetas`, for a non-empty two-level layout. */
    method GroupsOf(es: seq<Entry>, current: seq<Meta>) returns (gs: Groups)
      requires Valid() && multi && es == entries && current == metas
      ensures gs == groups
    {
      hide EncodeTop, EncodeFlat, Ordered, Compact, Flatten, CompactTop;
      LevelsNoneEmpty(next, entries, groups, l2);
      assert forall i :: 0 <= i < |es| ==> Describes(es[i], groups[i], l2);
      gs := CutByCounts(current, es, groups);
    }

    /** Rewrite the affected groups' files, drop empty groups, and rewrite the top level. */
    method WriteAffected(nx: u32, es: seq<Entry>, gs: Groups, affected: set<nat>)
      requires Valid() && multi && nx == next && es == entries && |gs| == |groups|
      requires Ordered(Flatten(gs)) && Compact(Flatten(gs))
      requires forall i :: 0 <= i < |gs| && i !in affected ==> gs[i] == groups[i]
      modifies this
      ensures Valid() && metas == Flatten(gs)
    {
      hide EncodeTop, EncodeFlat, LevelsOk, Ordered, Compact, Flatten, CompactTop, Describes;
      ghost var kept;
      var newEs, files;
      newEs, files, kept := RewriteGroups(nx, es, gs, affected, l2, groups);
      StaleGone(nx, es, newEs, groups, kept, l2, files);
      l2 := RemoveStale(files, es, set i | 0 <= i < |newEs| :: newEs[i].id);
      metas, entries, groups := Flatten(gs), newEs, kept;
      OrderedStarts(metas);
      LevelsOrdered(nx, newEs, kept, l2);
      EntryOrder();
      var top := Normalize(LessEntry, newEs);
      LevelsCompact(nx, newEs, kept, l2);
      var buf := WriteTop(nx, top);
      index := Some(buf);
    }
  }

  /** `selectSegmentL1Entry`. */
  method SelectTop(es: seq<Entry>, key: Key, ghost gs: Groups, ghost l2: map<u32, seq<byte>>) returns (g: int)
    requires |es| == |gs| && NoneEmpty(gs) && (forall i :: 0 <= i < |es| ==> Describes(es[i], gs[i], l2)) && StartsSorted(Flatten(gs))
    ensures -1 <= g < |es| && g == LastLeq(Heads(gs), key)
  {
    hide EncodeFlat, Compact, Flatten, LastLeq, Less;
    var starts := seq(|es|, i requires 0 <= i < |es| => Meta(es[i].id, es[i].start));
    forall i | 0 <= i < |es| ensures starts[i].start == gs[i][0].start {
      assert Describes(es[i], gs[i], l2);
    }
    forall i, j | 0 <= i < j < |es| ensures Leq(starts[i].start, starts[j].start) {
      HeadsSorted(gs, i, j);
    }
    var lo := UpperBound(starts, key);
    g := lo as int - 1;
    var heads := Heads(gs);
    assert forall i :: 0 <= i < |es| ==> heads[i].start == starts[i].start;
    LastLeqIs(heads, key, g);
  }

  lemma {:induction false} GroupSorted(gs: Groups, i: nat)
    requires StartsSorted(Flatten(gs)) && i < |gs|
    ensures StartsSorted(gs[i])
    decreases |gs|
  {
    hide StartsSorted;
    var n := |gs| - 1;
    SortedParts(Flatten(gs[..n]), gs[n]);
    if i < n {
      GroupSorted(gs[..n], i);
    }
  }

  // ----- replacing chunks

  type Replacements = map<u32, seq<Meta>>

  /** The list with each chunk in `p` replaced. */
  ghost function Replaced(ms: seq<Meta>, repl: Replacements, p: set<u32>): seq<Meta>
    requires p <= repl.Keys
  {
    if ms == [] then []
    else
      var n := |ms| - 1;
      Replaced(ms[..n], repl, p) + (if ms[n].file in p then repl[ms[n].file] else [ms[n]])
  }

  ghost predicate DistinctFiles(ms: seq<Meta>) {
    forall i, j :: 0 <= i < j < |ms| ==> ms[i].file != ms[j].file
  }

  ghost predicate HasFile(ms: seq<Meta>, f: u32) {
    exists i :: 0 <= i < |ms| && ms[i].file == f
  }

  /** A replacement brings in no chunk that is itself to be replaced, except under its own name. */
  ghost predicate OwnNames(repl: Replacements) {
    forall f, i :: f in repl && 0 <= i < |repl[f]| ==> repl[f][i].file == f || repl[f][i].file !in repl
  }

  // ----- what a caller must know of its replacements

  /** No new chunk is below the chunk it replaces, or above the next one. */
  ghost predicate InPlace(ms: seq<Meta>, repl: Replacements) {
    forall i :: 0 <= i < |ms| && ms[i].file in repl ==> InPlaceOf(ms, i, repl[ms[i].file])
  }

  ghost predicate InPlaceOf(ms: seq<Meta>, i: nat, r: seq<Meta>)
    requires i < |ms|
  {
    Ordered(r) && forall k :: 0 <= k < |r| ==> !LessMeta(r[k], ms[i]) && (i + 1 < |ms| ==> !LessMeta(ms[i + 1], r[k]))
  }

  /** Every new chunk starts in the key range of the chunk it replaces, whatever its file is called. */
  ghost predicate InRange(ms: seq<Meta>, repl: Replacements) {
    forall i :: 0 <= i < |ms| && ms[i].file in repl ==> InRangeOf(ms, i, repl[ms[i].file])
  }

  ghost predicate InRangeOf(ms: seq<Meta>, i: nat, r: seq<Meta>)
    requires i < |ms|
  {
    && Ordered(r) && (i > 0 ==> Less(ms[i - 1].start, ms[i].start))
    && forall k :: 0 <= k < |r| ==> Leq(ms[i].start, r[k].start) && (i + 1 < |ms| ==> Less(r[k].start, ms[i + 1].start))
  }

  /** New files keep the name they replace or have a name used nowhere else. */
  ghost predicate NewNames(ms: seq<Meta>, repl: Replacements) {
    && (forall f :: f in repl ==> DistinctFiles(repl[f]))
    && (forall f, m :: f in repl && m in repl[f] ==> m.file == f || !HasFile(ms, m.file))
    && (forall f, g, m, n :: f in repl && g in repl && f != g && m in repl[f] && n in repl[g] ==> m.file != n.file)
  }

  /** `m` stands where `ms[i]` stood. */
  ghost predicate StandsFor(ms: seq<Meta>, repl: Replacements, i: nat, m: Meta) {
    i < |ms| && if ms[i].file in repl then m in repl[ms[i].file] else m == ms[i]
  }

  /** Two chunks of the result stand for chunks of the list in the same order, or for the same one. */
  lemma {:induction false} Origins(ms: seq<Meta>, repl: Replacements, x: nat, y: nat) returns (i: nat, j: nat)
    requires x < y < |Replaced(ms, repl, repl.Keys)|
    ensures var r := Replaced(ms, repl, repl.Keys);
            && i <= j && StandsFor(ms, repl, i, r[x]) && StandsFor(ms, repl, j, r[y])
            && (i == j ==> ms[i].file in repl && exists a, b :: 0 <= a < b < |repl[ms[i].file]| && repl[ms[i].file][a] == r[x] && repl[ms[i].file][b] == r[y])
    decreases |ms|
  {
    var n := |ms| - 1;
    var before := Replaced(ms[..n], repl, repl.Keys);
    var t := if ms[n].file in repl then repl[ms[n].file] else [ms[n]];
    if y < |before| {
      i, j := Origins(ms[..n], repl, x, y);
    } else {
      j := n;
      if x < |before| {
        i := Origin(ms[..n], repl, x);
      } else {
        i := n;
        assert t[x - |before|] == Replaced(ms, repl, repl.Keys)[x] && t[y - |before|] == Replaced(ms, repl, repl.Keys)[y];
      }
    }
  }

  lemma {:induction false} Origin(ms: seq<Meta>, repl: Replacements, x: nat) returns (i: nat)
    requires x < |Replaced(ms, repl, repl.Keys)|
    ensures StandsFor(ms, repl, i, Replaced(ms, repl, repl.Keys)[x])
    decreases |ms|
  {
    var n := |ms| - 1;
    if x < |Replaced(ms[..n], repl, repl.Keys)| {
      i := Origin(ms[..n], repl, x);
    } else {
      i := n;
    }
  }

  lemma ReplacedOrdered(ms: seq<Meta>, repl: Replacements)
    requires Ordered(ms) && (InPlace(ms, repl) || InRange(ms, repl))
    ensures Ordered(Replaced(ms, repl, repl.Keys))
  {
    hide Replaced, LessMeta, InPlace, InRange;
    var r := Replaced(ms, repl, repl.Keys);
    forall x, y | 0 <= x < y < |r| ensures !LessMeta(r[y], r[x]) {
      var i, j := Origins(ms, repl, x, y);
      if i == j {
        SameOrigin(ms, repl, i, r[x], r[y]);
      } else if InPlace(ms, repl) {
        InPlaceApart(ms, repl, i, j, r[x], r[y]);
      } else {
        InRangeApart(ms, repl, i, j, r[x], r[y]);
      }
    }
  }

  lemma SameOrigin(ms: seq<Meta>, repl: Replacements, i: nat, m: Meta, n: Meta)
    requires i < |ms| && ms[i].file in repl && (InPlace(ms, repl) || InRange(ms, repl))
    requires exists a, b :: 0 <= a < b < |repl[ms[i].file]| && repl[ms[i].file][a] == m && repl[ms[i].file][b] == n
    ensures !LessMeta(n, m)
  {
    hide LessMeta;
    assert InPlaceOf(ms, i, repl[ms[i].file]) || InRangeOf(ms, i, repl[ms[i].file]);
  }

  lemma InPlaceApart(ms: seq<Meta>, repl: Replacements, i: nat, j: nat, m: Meta, n: Meta)
    requires Ordered(ms) && InPlace(ms, repl) && i < j && StandsFor(ms, repl, i, m) && StandsFor(ms, repl, j, n)
    ensures !LessMeta(n, m)
  {
    hide LessMeta;
    MetaOrder();
    assert ms[i].file in repl ==> InPlaceOf(ms, i, repl[ms[i].file]);
    assert ms[j].file in repl ==> InPlaceOf(ms, j, repl[ms[j].file]);
    var up := if ms[i].file in repl then ms[i + 1] else ms[i];
    assert !LessMeta(ms[j], up);
    assert !LessMeta(n, up);
  }

  lemma InRangeApart(ms: seq<Meta>, repl: Replacements, i: nat, j: nat, m: Meta, n: Meta)
    requires Ordered(ms) && InRange(ms, repl) && i < j && StandsFor(ms, repl, i, m) && StandsFor(ms, repl, j, n)
    ensures !LessMeta(n, m)
  {
    hide Less, FileName;
    OrderedStarts(ms);
    assert ms[i].file in repl ==> InRangeOf(ms, i, repl[ms[i].file]);
    assert ms[j].file in repl ==> InRangeOf(ms, j, repl[ms[j].file]);
    if ms[i].file in repl || ms[j].file in repl {
      var k := if ms[i].file in repl then i + 1 else j - 1;
      assert i <= k <= j && Leq(m.start, ms[k].start) && Leq(ms[k].start, ms[j].start);
      LeqTransitive(m.start, ms[k].start, ms[j].start);
      LeqTransitive(m.start, ms[j].start, n.start);
      LessTrichotomy(m.start, n.start);
    }
  }

  lemma ReplacedDistinct(ms: seq<Meta>, repl: Replacements)
    requires DistinctFiles(ms) && NewNames(ms, repl)
    ensures DistinctFiles(Replaced(ms, repl, repl.Keys))
  {
    hide Replaced, NewNames;
    var r := Replaced(ms, repl, repl.Keys);
    forall x, y | 0 <= x < y < |r| ensures r[x].file != r[y].file {
      var i, j := Origins(ms, repl, x, y);
      NamesApart(ms, repl, i, j, r[x], r[y]);
    }
  }

  lemma NamesApart(ms: seq<Meta>, repl: Replacements, i: nat, j: nat, m: Meta, n: Meta)
    requires DistinctFiles(ms) && NewNames(ms, repl) && i <= j && StandsFor(ms, repl, i, m) && StandsFor(ms, repl, j, n)
    requires i == j ==> ms[i].file in repl && exists a, b :: 0 <= a < b < |repl[ms[i].file]| && repl[ms[i].file][a] == m && repl[ms[i].file][b] == n
    ensures m.file != n.file
  {
    if i == j {
      assert DistinctFiles(repl[ms[i].file]);
    } else {
      assert HasFile(ms, ms[i].file) && HasFile(ms, ms[j].file);
    }
  }

  lemma DistinctPermuted(a: seq<Meta>, b: seq<Meta>)
    requires multiset(a) == multiset(b)
    ensures DistinctFiles(a) ==> DistinctFiles(b)
  {
    if DistinctFiles(a) && !DistinctFiles(b) {
      var i, j :| 0 <= i < j < |b| && b[i].file == b[j].file;
      assert b[i] in multiset(a) && b[j] in multiset(a);
      var x :| 0 <= x < |a| && a[x] == b[i];
      var y :| 0 <= y < |a| && a[y] == b[j];
      assert x == y && b[i] == b[j];
      TwiceIn(b, i, j);
      OnceIn(a, x);
    }
  }

  lemma TwiceIn(s: seq<Meta>, i: nat, j: nat)
    requires i < j < |s| && s[i] == s[j]
    ensures multiset(s)[s[i]] >= 2
  {
    assert s == s[..j] + [s[j]] + s[j + 1..];
    assert s[..j][i] == s[j];
  }

  lemma OnceIn(s: seq<Meta>, x: nat)
    requires DistinctFiles(s) && x < |s|
    ensures multiset(s)[s[x]] == 1
  {
    var a, b := s[..x], s[x + 1..];
    assert s == a + [s[x]] + b;
    assert forall i :: 0 <= i < |a| ==> a[i] == s[i];
    assert forall i :: 0 <= i < |b| ==> b[i] == s[x + 1 + i];
    assert s[x] !in a && s[x] !in b;
  }

  lemma {:induction false} ReplacedFiles(ms: seq<Meta>, repl: Replacements, p: set<u32>, f: u32)
    requires p <= repl.Keys && OwnNames(repl) && f in repl && f !in p
    ensures HasFile(Replaced(ms, repl, p), f) <==> HasFile(ms, f)
  {
    if ms != [] {
      var n := |ms| - 1;
      ReplacedFiles(ms[..n], repl, p, f);
      var t := if ms[n].file in p then repl[ms[n].file] else [ms[n]];
      FilesConcat(Replaced(ms[..n], repl, p), t, f);
      FilesConcat(ms[..n], [ms[n]], f);
      assert ms == ms[..n] + [ms[n]];
      assert HasFile(t, f) <==> ms[n].file == f by {
        if ms[n].file == f {
          assert t[0].file == f;
        }
      }
      assert HasFile([ms[n]], f) <==> ms[n].file == f by {
        assert [ms[n]][0] == ms[n];
      }
    }
  }

  lemma FilesConcat(a: seq<Meta>, b: seq<Meta>, f: u32)
    ensures HasFile(a + b, f) <==> HasFile(a, f) || HasFile(b, f)
  {
    if HasFile(a, f) {
      var i :| 0 <= i < |a| && a[i].file == f;
      assert (a + b)[i].file == f;
    }
    if HasFile(b, f) {
      var i :| 0 <= i < |b| && b[i].file == f;
      assert (a + b)[|a| + i].file == f;
    }
    if HasFile(a + b, f) {
      var i :| 0 <= i < |a + b| && (a + b)[i].file == f;
      assert if i < |a| then a[i].file == f else b[i - |a|].file == f;
    }
  }

  /** One more chunk replaced, when the list does not have it. */
  lemma {:induction false} ReplacedMiss(ms: seq<Meta>, repl: Replacements, p: set<u32>, f: u32)
    requires p <= repl.Keys && f in repl && !HasFile(ms, f)
    ensures Replaced(ms, repl, p + {f}) == Replaced(ms, repl, p)
  {
    if ms != [] {
      var n := |ms| - 1;
      FilesConcat(ms[..n], [ms[n]], f);
      assert ms == ms[..n] + [ms[n]] && [ms[n]][0] == ms[n];
      assert ms[n].file != f;
      ReplacedMiss(ms[..n], repl, p, f);
    }
  }

  /** One more chunk replaced, where the partly replaced list has it. */
  lemma {:induction false} ReplacedHit(ms: seq<Meta>, repl: Replacements, p: set<u32>, f: u32, x: nat)
    requires p <= repl.Keys && OwnNames(repl) && f in repl && f !in p && DistinctFiles(ms)
    requires x < |Replaced(ms, repl, p)| && Replaced(ms, repl, p)[x].file == f
    ensures var t := Replaced(ms, repl, p);
            Replaced(ms, repl, p + {f}) == t[..x] + repl[f] + t[x + 1..]
    decreases |ms|
  {
    hide HasFile;
    var n := |ms| - 1;
    var init, last := ms[..n], ms[n];
    var t0 := Replaced(init, repl, p);
    var t1 := if last.file in p then repl[last.file] else [last];
    if x < |t0| {
      NotLast(ms, repl, p, f, x);
      ReplacedHit(init, repl, p, f, x);
      AroundLeft(t0, t1, x, repl[f]);
    } else {
      assert t1[x - |t0|].file == f;
      NotBefore(ms, f);
      ReplacedMiss(init, repl, p, f);
      assert (t0 + t1)[..x] == t0 && (t0 + t1)[x + 1..] == [];
    }
  }

  lemma NotLast(ms: seq<Meta>, repl: Replacements, p: set<u32>, f: u32, x: nat)
    requires p <= repl.Keys && OwnNames(repl) && f in repl && f !in p && DistinctFiles(ms) && ms != []
    requires x < |Replaced(ms[..|ms| - 1], repl, p)| && Replaced(ms[..|ms| - 1], repl, p)[x].file == f
    ensures ms[|ms| - 1].file != f
  {
    hide Replaced;
    var init := ms[..|ms| - 1];
    assert HasFile(Replaced(init, repl, p), f);
    ReplacedFiles(init, repl, p, f);
    var i :| 0 <= i < |init| && init[i].file == f;
    assert ms[i].file == f;
  }

  lemma NotBefore(ms: seq<Meta>, f: u32)
    requires DistinctFiles(ms) && ms != [] && ms[|ms| - 1].file == f
    ensures !HasFile(ms[..|ms| - 1], f)
  {
    assert forall i :: 0 <= i < |ms| - 1 ==> ms[..|ms| - 1][i] == ms[i];
  }

  lemma AroundLeft(t0: seq<Meta>, t1: seq<Meta>, x: nat, mid: seq<Meta>)
    requires x < |t0|
    ensures (t0 + t1)[..x] + mid + (t0 + t1)[x + 1..] == (t0[..x] + mid + t0[x + 1..]) + t1
  {
  }

  /** `applyGroupReplacement`. */
  method ApplyReplacement(g: seq<Meta>, f: u32, repl: seq<Meta>) returns (r: Option<seq<Meta>>)
    ensures r.None? <==> !HasFile(g, f)
    ensures r.Some? ==> exists x :: 0 <= x < |g| && g[x].file == f && r.value == g[..x] + repl + g[x + 1..]
  {
    for i := 0 to |g|
      invariant forall j :: 0 <= j < i ==> g[j].file != f
    {
      if g[i].file == f {
        return Some(g[..i] + repl + g[i + 1..]);
      }
    }
    r := None;
  }

  /** `buildUpdatedSegmentChunkMetas`. */
  method BuildUpdated(ms: seq<Meta>, repl: Replacements) returns (r: seq<Meta>, changed: bool)
    ensures r == Replaced(ms, repl, repl.Keys)
    ensures changed <==> exists i :: 0 <= i < |ms| && ms[i].file in repl
  {
    r, changed := [], false;
    for i := 0 to |ms|
      invariant r == Replaced(ms[..i], repl, repl.Keys)
      invariant changed <==> exists j :: 0 <= j < i && ms[j].file in repl
    {
      assert ms[..i + 1][..i] == ms[..i];
      if ms[i].file in repl {
        changed := true;
        r := r + repl[ms[i].file];
      } else {
        r := r + [ms[i]];
      }
    }
    assert ms[..|ms|] == ms;
  }

  ghost predicate ReplacesSome(ms: seq<Meta>, repl: Replacements) {
    exists i :: 0 <= i < |ms| && ms[i].file in repl
  }

  lemma {:induction false} ReplacedNone(ms: seq<Meta>, repl: Replacements)
    ensures repl == map[] ==> Replaced(ms, repl, repl.Keys) == ms
  {
    if ms != [] {
      ReplacedNone(ms[..|ms| - 1], repl);
      assert ms == ms[..|ms| - 1] + [ms[|ms| - 1]];
    }
  }

  lemma {:induction false} ReplacedConcat(a: seq<Meta>, b: seq<Meta>, repl: Replacements, p: set<u32>)
    requires p <= repl.Keys
    ensures Replaced(a + b, repl, p) == Replaced(a, repl, p) + Replaced(b, repl, p)
    decreases |b|
  {
    hide Replaced;
    if b == [] {
      assert a + b == a;
      ReplacedEmpty(repl, p);
    } else {
      var n := |b| - 1;
      var t := if b[n].file in p then repl[b[n].file] else [b[n]];
      ReplacedConcat(a, b[..n], repl, p);
      ReplacedSnoc(a + b[..n], b[n], repl, p);
      ReplacedSnoc(b[..n], b[n], repl, p);
      assert a + b == (a + b[..n]) + [b[n]] && b == b[..n] + [b[n]];
      assert (Replaced(a, repl, p) + Replaced(b[..n], repl, p)) + t == Replaced(a, repl, p) + (Replaced(b[..n], repl, p) + t);
    }
  }

  lemma ReplacedSnoc(ms: seq<Meta>, m: Meta, repl: Replacements, p: set<u32>)
    requires p <= repl.Keys
    ensures Replaced(ms + [m], repl, p) == Replaced(ms, repl, p) + (if m.file in p then repl[m.file] else [m])
  {
    assert (ms + [m])[..|ms|] == ms;
  }

  ghost predicate ReplacedBy(gs: Groups, after: Groups, repl: Replacements, p: set<u32>)
    requires p <= repl.Keys
  {
    |after| == |gs| && forall i :: 0 <= i < |gs| ==> after[i] == Replaced(gs[i], repl, p)
  }

  lemma {:induction false} FlattenReplaced(gs: Groups, after: Groups, repl: Replacements)
    requires ReplacedBy(gs, after, repl, repl.Keys)
    ensures Flatten(after) == Replaced(Flatten(gs), repl, repl.Keys)
    decreases |gs|
  {
    hide Replaced;
    if gs == [] {
      assert Replaced([], repl, repl.Keys) == [] by { ReplacedEmpty(repl, repl.Keys); }
    } else {
      var n := |gs| - 1;
      FlattenReplaced(gs[..n], after[..n], repl);
      ReplacedConcat(Flatten(gs[..n]), gs[n], repl, repl.Keys);
    }
  }

  lemma ReplacedEmpty(repl: Replacements, p: set<u32>)
    requires p <= repl.Keys
    ensures Replaced([], repl, p) == []
  {
  }

  lemma {:induction false} FileInGroup(gs: Groups, f: u32)
    ensures HasFile(Flatten(gs), f) <==> exists g :: 0 <= g < |gs| && HasFile(gs[g], f)
  {
    if gs != [] {
      var n := |gs| - 1;
      FileInGroup(gs[..n], f);
      FilesConcat(Flatten(gs[..n]), gs[n], f);
      if exists g :: 0 <= g < n && HasFile(gs[g], f) {
        var g :| 0 <= g < n && HasFile(gs[g], f);
        assert HasFile(gs[..n][g], f);
      }
    }
  }

  lemma {:induction false} OneGroup(gs: Groups, f: u32, g: nat, h: nat)
    requires DistinctFiles(Flatten(gs)) && g < h < |gs| && HasFile(gs[g], f)
    ensures !HasFile(gs[h], f)
    decreases |gs|
  {
    var n := |gs| - 1;
    var a, b := Flatten(gs[..n]), gs[n];
    assert forall i :: 0 <= i < |a| ==> (a + b)[i] == a[i];
    if h < n {
      OneGroup(gs[..n], f, g, h);
    } else {
      assert HasFile(gs[..n][g], f);
      FileInGroup(gs[..n], f);
      var i :| 0 <= i < |a| && a[i].file == f;
      forall j | 0 <= j < |b| ensures b[j].file != f {
        assert (a + b)[i].file != (a + b)[|a| + j].file;
      }
    }
  }

  lemma {:induction false} GroupDistinct(gs: Groups, g: nat)
    requires DistinctFiles(Flatten(gs)) && g < |gs|
    ensures DistinctFiles(gs[g])
    decreases |gs|
  {
    hide DistinctFiles;
    var n := |gs| - 1;
    DistinctParts(Flatten(gs[..n]), gs[n]);
    if g < n {
      GroupDistinct(gs[..n], g);
    }
  }

  lemma DistinctParts(a: seq<Meta>, b: seq<Meta>)
    requires DistinctFiles(a + b)
    ensures DistinctFiles(a) && DistinctFiles(b)
  {
    assert forall i :: 0 <= i < |a| ==> (a + b)[i] == a[i];
    assert forall i :: 0 <= i < |b| ==> (a + b)[|a| + i] == b[i];
  }

  lemma FoundSome(gs: Groups, repl: Replacements)
    requires repl != map[] && forall f :: f in repl ==> HasFile(Flatten(gs), f)
    ensures ReplacesSome(Flatten(gs), repl)
  {
    hide Flatten;
    var f :| f in repl;
    assert HasFile(Flatten(gs), f);
  }

  /** The replacement loop: each replaced chunk is searched for group by group. */
  method ReplaceInGroups(gs: Groups, repl: Replacements) returns (found: bool, after: Groups, affected: set<nat>)
    requires OwnNames(repl) && DistinctFiles(Flatten(gs))
    ensures found ==> ReplacedBy(gs, after, repl, repl.Keys) && forall f :: f in repl ==> HasFile(Flatten(gs), f)
    ensures found ==> forall i :: 0 <= i < |gs| && i !in affected ==> after[i] == gs[i]
  {
    hide Replaced, OwnNames, DistinctFiles, Flatten, HasFile;
    after, affected := gs, {};
    var rest: set<u32> := repl.Keys;
    ghost var p: set<u32> := {};
    NothingReplaced(gs, repl);
    while rest != {}
      invariant p <= repl.Keys && rest <= repl.Keys && p !! rest && p + rest == repl.Keys
      invariant ReplacedBy(gs, after, repl, p) && forall f :: f in p ==> HasFile(Flatten(gs), f)
      invariant forall i :: 0 <= i < |gs| && i !in affected ==> after[i] == gs[i]
      decreases rest
    {
      var f :| f in rest;
      var hit, g;
      hit, g, after := ReplaceOne(after, f, repl, gs, p);
      if !hit {
        return false, after, affected;
      }
      affected := affected + {g};
      rest, p := rest - {f}, p + {f};
    }
    assert p == repl.Keys;
    found := true;
  }

  lemma NothingReplaced(gs: Groups, repl: Replacements)
    ensures ReplacedBy(gs, gs, repl, {})
  {
    forall i | 0 <= i < |gs| ensures gs[i] == Replaced(gs[i], repl, {}) {
      ReplacedNothing(gs[i], repl);
    }
  }

  lemma {:induction false} ReplacedNothing(ms: seq<Meta>, repl: Replacements)
    ensures Replaced(ms, repl, {}) == ms
  {
    if ms != [] {
      ReplacedNothing(ms[..|ms| - 1], repl);
      assert ms == ms[..|ms| - 1] + [ms[|ms| - 1]];
    }
  }

  method ReplaceOne(cur: Groups, f: u32, repl: Replacements, ghost gs: Groups, ghost p: set<u32>) returns (hit: bool, g: nat, after: Groups)
    requires OwnNames(repl) && DistinctFiles(Flatten(gs)) && p <= repl.Keys && f in repl && f !in p && ReplacedBy(gs, cur, repl, p)
    ensures hit ==> g < |gs| && ReplacedBy(gs, after, repl, p + {f}) && HasFile(Flatten(gs), f)
    ensures hit ==> forall i :: 0 <= i < |gs| && i != g ==> after[i] == cur[i]
  {
    hide Replaced, OwnNames, DistinctFiles, Flatten, HasFile;
    hit, g, after := false, 0, cur;
    for i := 0 to |cur|
    {
      var r := ApplyReplacement(cur[i], f, repl[f]);
      if r.Some? {
        GroupReplaced(gs, cur, repl, p, f, i, r.value);
        after := cur[i := r.value];
        return true, i, after;
      }
    }
  }

  lemma GroupReplaced(gs: Groups, cur: Groups, repl: Replacements, p: set<u32>, f: u32, g: nat, r: seq<Meta>)
    requires OwnNames(repl) && DistinctFiles(Flatten(gs)) && p <= repl.Keys && f in repl && f !in p && ReplacedBy(gs, cur, repl, p)
    requires g < |gs| && exists x :: 0 <= x < |cur[g]| && cur[g][x].file == f && r == cur[g][..x] + repl[f] + cur[g][x + 1..]
    ensures ReplacedBy(gs, cur[g := r], repl, p + {f}) && HasFile(Flatten(gs), f)
  {
    hide Replaced, OwnNames, DistinctFiles, Flatten;
    var x :| 0 <= x < |cur[g]| && cur[g][x].file == f && r == cur[g][..x] + repl[f] + cur[g][x + 1..];
    GroupDistinct(gs, g);
    ReplacedHit(gs[g], repl, p, f, x);
    assert HasFile(cur[g], f);
    ReplacedFiles(gs[g], repl, p, f);
    FileInGroup(gs, f);
    forall h | 0 <= h < |gs| && h != g ensures cur[h] == Replaced(gs[h], repl, p + {f}) {
      if h > g {
        OneGroup(gs, f, g, h);
      } else if HasFile(gs[h], f) {
        OneGroup(gs, f, h, g);
      }
      ReplacedMiss(gs[h], repl, p, f);
    }
  }

  /** The files and entries after the affected groups are rewritten and empty ones left out. */
  method RewriteGroups(next: u32, es: seq<Entry>, gs: Groups, affected: set<nat>, l2: map<u32, seq<byte>>, ghost gs0: Groups)
    returns (newEs: seq<Entry>, files: map<u32, seq<byte>>, ghost kept: Groups)
    requires LevelsOk(next, es, gs0, l2) && |gs| == |gs0| && Compact(Flatten(gs))
    requires forall i :: 0 <= i < |gs| && i !in affected ==> gs[i] == gs0[i]
    ensures |newEs| == |kept| <= |es| && Flatten(kept) == Flatten(gs) && files.Keys == l2.Keys
    ensures Ascending(newEs) && forall i :: 0 <= i < |newEs| ==> 1 <= newEs[i].id < next && Describes(newEs[i], kept[i], files)
  {
    hide EncodeFlat, Compact, Flatten, LevelsOk, Kept;
    newEs, files, kept := [], l2, [];
    FlattenNone();
    StartKept(next, es, gs0, l2);
    for k := 0 to |gs|
      invariant Kept(next, es, gs0, k, newEs, kept, files)
      invariant |kept| <= k && Flatten(kept) == Flatten(gs[..k]) && files.Keys == l2.Keys
    {
      assert gs[..k + 1] == gs[..k] + [gs[k]];
      FlattenSnoc(gs[..k], gs[k]);
      assert Flatten(gs[..k]) + [] == Flatten(gs[..k]);
      FlattenSnoc(kept, gs[k]);
      if gs[k] == [] {
        DropGroup(next, es, gs0, k, newEs, kept, files);
      } else {
        GroupCompact(gs, k);
        AddGroup(next, es, gs0, k, newEs, kept, files, gs[k]);
        if k in affected {
          var buf := WriteFlat(gs[k]);
          files := files[es[k].id := buf];
        }
        newEs := newEs + [Entry(es[k].id, |gs[k]|, gs[k][0].start)];
        kept := kept + [gs[k]];
      }
    }
    assert gs[..|gs|] == gs;
    EndKept(next, es, gs0, |gs|, newEs, kept, files);
  }

  /** The first `k` groups are rewritten into `newEs` and `kept`; the rest are as they were. */
  ghost predicate Kept(next: u32, es: seq<Entry>, gs0: Groups, k: nat, newEs: seq<Entry>, kept: Groups, files: map<u32, seq<byte>>) {
    && |newEs| == |kept| && |es| == |gs0| && Ascending(newEs) && Ascending(es)
    && (forall i :: 0 <= i < |newEs| ==> 1 <= newEs[i].id < next && Describes(newEs[i], kept[i], files))
    && (forall i, j :: 0 <= i < |newEs| && k <= j < |es| ==> newEs[i].id < es[j].id)
    && (forall j :: k <= j < |es| ==> 1 <= es[j].id < next && Describes(es[j], gs0[j], files))
  }

  lemma StartKept(next: u32, es: seq<Entry>, gs0: Groups, l2: map<u32, seq<byte>>)
    requires LevelsOk(next, es, gs0, l2)
    ensures Kept(next, es, gs0, 0, [], [], l2) && |es| == |gs0|
  {
    hide Describes, CompactTop;
  }

  lemma EndKept(next: u32, es: seq<Entry>, gs0: Groups, k: nat, newEs: seq<Entry>, kept: Groups, files: map<u32, seq<byte>>)
    requires Kept(next, es, gs0, k, newEs, kept, files)
    ensures |newEs| == |kept| && Ascending(newEs)
    ensures forall i :: 0 <= i < |newEs| ==> 1 <= newEs[i].id < next && Describes(newEs[i], kept[i], files)
  {
    hide Describes;
  }

  lemma DropGroup(next: u32, es: seq<Entry>, gs0: Groups, k: nat, newEs: seq<Entry>, kept: Groups, files: map<u32, seq<byte>>)
    requires Kept(next, es, gs0, k, newEs, kept, files)
    ensures Kept(next, es, gs0, k + 1, newEs, kept, files)
  {
    hide Describes;
  }

  lemma AddGroup(next: u32, es: seq<Entry>, gs0: Groups, k: nat, newEs: seq<Entry>, kept: Groups, files: map<u32, seq<byte>>, g: seq<Meta>)
    requires Kept(next, es, gs0, k, newEs, kept, files) && k < |es| && g != [] && Compact(g)
    ensures |g| < 0x1_0000_0000 && es[k].id in files
    ensures var added := newEs + [Entry(es[k].id, |g|, g[0].start)];
            && Kept(next, es, gs0, k + 1, added, kept + [g], files[es[k].id := EncodeFlat(g)])
            && (g == gs0[k] ==> Kept(next, es, gs0, k + 1, added, kept + [g], files))
  {
    hide EncodeFlat;
    var id := es[k].id;
    var written := files[id := EncodeFlat(g)];
    assert Describes(es[k], gs0[k], files);
    forall i | 0 <= i < |newEs| ensures Describes(newEs[i], kept[i], written) {
      assert Describes(newEs[i], kept[i], files) && newEs[i].id < id;
    }
    forall j | k < j < |es| ensures Describes(es[j], gs0[j], written) {
      assert Describes(es[j], gs0[j], files) && id < es[j].id;
    }
  }

  lemma {:induction false} GroupCompact(gs: Groups, g: nat)
    requires Compact(Flatten(gs)) && g < |gs|
    ensures Compact(gs[g]) && |gs[g]| < 0x1_0000_0000
    decreases |gs|
  {
    var n := |gs| - 1;
    var a, b := Flatten(gs[..n]), gs[n];
    assert forall i :: 0 <= i < |a| ==> (a + b)[i] == a[i];
    assert forall i :: 0 <= i < |b| ==> (a + b)[|a| + i] == b[i];
    if g < n {
      GroupCompact(gs[..n], g);
    }
  }

  lemma StaleGone(next: u32, es: seq<Entry>, newEs: seq<Entry>, gs0: Groups, kept: Groups, l2: map<u32, seq<byte>>, files: map<u32, seq<byte>>)
    requires LevelsOk(next, es, gs0, l2) && |newEs| == |kept| <= |es| && files.Keys == l2.Keys
    requires Ascending(newEs) && forall i :: 0 <= i < |newEs| ==> 1 <= newEs[i].id < next && Describes(newEs[i], kept[i], files)
    ensures LevelsOk(next, newEs, kept, RemoveStale(files, es, set i | 0 <= i < |newEs| :: newEs[i].id))
  {
    hide EncodeFlat, Compact;
    CompactEntries(newEs, kept, files);
    var keep := set i | 0 <= i < |newEs| :: newEs[i].id;
    var l := RemoveStale(files, es, keep);
    forall i | 0 <= i < |newEs| ensures Describes(newEs[i], kept[i], l) {
      assert Describes(newEs[i], kept[i], files);
      assert newEs[i].id in keep;
    }
    forall id | id in l ensures HasId(newEs, id) {
      assert HasId(es, id);
    }
  }

  method Sorted(ms: seq<Meta>) returns (r: seq<Meta>)
    ensures Ordered(r) && multiset(r) == multiset(ms) && (Ordered(ms) ==> r == ms)
  {
    MetaOrder();
    r := Normalize(LessMeta, ms);
  }

  lemma SameLength(a: seq<Meta>, b: seq<Meta>)
    requires multiset(a) == multiset(b)
    ensures |a| == |b|
  {
    assert |a| == |multiset(a)| && |b| == |multiset(b)|;
  }

  lemma AscendingIds(next: u32, es: seq<Entry>, gs: Groups, l2: map<u32, seq<byte>>, multi: bool)
    requires if multi then LevelsOk(next, es, gs, l2) else es == [] && next == 1 && l2 == map[]
    ensures Ascending(es) && 1 <= next && forall i :: 0 <= i < |es| ==> 1 <= es[i].id < next
    ensures forall id :: id in l2 ==> HasId(es, id)
  {
    hide EncodeFlat, CompactTop;
  }

  lemma LevelsCompact(next: u32, es: seq<Entry>, gs: Groups, l2: map<u32, seq<byte>>)
    requires LevelsOk(next, es, gs, l2)
    ensures CompactTop(es) && next > 0
  {
  }

  lemma FlatHasHeader(ms: seq<Meta>)
    requires Compact(ms)
    ensures |EncodeFlat(ms)| >= 12
  {
  }

  lemma FlatIsNotMulti(ms: seq<Meta>)
    requires Compact(ms)
    ensures |EncodeFlat(ms)| >= 12 && !IsMulti(EncodeFlat(ms))
  {
    hide Get32, Put32, EncodeFlat;
    FlatHasHeader(ms);
    FlatReads(ms);
  }

  method ReadGroups(es: seq<Entry>, l2: map<u32, seq<byte>>, ghost next: u32, ghost gs: Groups) returns (ms: seq<Meta>)
    requires LevelsOk(next, es, gs, l2)
    ensures ms == Flatten(gs)
  {
    hide EncodeFlat, Flatten, Compact, CompactTop;
    ms := [];
    FlattenNone();
    for i := 0 to |es|
      invariant ms == Flatten(gs[..i])
    {
      assert Describes(es[i], gs[i], l2);
      assert gs[..i + 1] == gs[..i] + [gs[i]];
      FlattenSnoc(gs[..i], gs[i]);
      var r := DecodeFlat(l2[es[i].id], gs[i]);
      ms := ms + (if r.Some? then r.value else []);
    }
    assert gs[..|es|] == gs;
  }
}
