/** Node files of the prefix tree: a sorted region followed by an append region, both made of
    65-byte entries, and the fold that gives a file its meaning (`buildEntriesFromSlices`). */
module NodeFile {
  import opened Bytes

  const ENTRY_SIZE := 65
  const MAX_KEY_SIZE := 32
  const COMMIT_TAG_MAGIC: u64 := 0x434d54424c4f434b

  datatype NodeInfo = NodeInfo(
    key: seq<byte>,
    accountOffset: u64, accountSize: u32,
    storageFileId: u32, storageOffset: u64, storageSize: u64)

  predicate IsTombstone(e: NodeInfo) {
    e.accountOffset == 0 && e.accountSize == 0 && !HasStorage(e)
  }

  predicate HasStorage(e: NodeInfo) {
    e.storageFileId != 0 || e.storageOffset != 0 || e.storageSize != 0
  }

  /** `mergeNodeInfoForAppend`: `next` is written over `prev`. */
  function Merge(prev: NodeInfo, next: NodeInfo): (r: NodeInfo)
    ensures r.key == next.key
    ensures IsTombstone(r) <==> IsTombstone(next)
  {
    if IsTombstone(next) then next
    else
      var m := if next.accountSize == 0 && next.accountOffset == prev.accountOffset then next.(accountSize := prev.accountSize) else next;
      if HasStorage(prev) && !HasStorage(m) then
        var m1 := m.(storageFileId := prev.storageFileId, storageOffset := prev.storageOffset, storageSize := prev.storageSize);
        if m.accountOffset < prev.accountOffset then
          m1.(accountOffset := prev.accountOffset, accountSize := prev.accountSize)
        else m1
      else m
  }

  /** Writing a merged entry again changes nothing. */
  lemma MergeIdempotent(prev: NodeInfo, next: NodeInfo)
    ensures Merge(prev, Merge(prev, next)) == Merge(prev, next)
    ensures Merge(Merge(prev, next), Merge(prev, next)) == Merge(prev, next)
  {
  }

  // ----- entry codec

  function TruncateKey(key: seq<byte>): (k: seq<byte>)
    ensures |k| <= MAX_KEY_SIZE && (|key| <= MAX_KEY_SIZE ==> k == key) && (k == [] <==> key == [])
  {
    if |key| > MAX_KEY_SIZE then key[..MAX_KEY_SIZE] else key
  }

  /** An entry or a commit tag, as stored. */
  type Raw = s: seq<byte> | |s| == ENTRY_SIZE witness Zeros(ENTRY_SIZE)

  function EncodeEntry(e: NodeInfo): (s: Raw)
  {
    var k := TruncateKey(e.key);
    [|k|] + k + Zeros(MAX_KEY_SIZE - |k|)
    + Put64(e.accountOffset) + Put32(e.accountSize) + Put32(e.storageFileId) + Put64(e.storageOffset) + Put64(e.storageSize)
  }

  function DecodeEntry(s: Raw): (e: NodeInfo)
    ensures |e.key| <= MAX_KEY_SIZE
  {
    var n := if s[0] > MAX_KEY_SIZE then MAX_KEY_SIZE else s[0];
    NodeInfo(s[1..1 + n], Get64(s[33..41]), Get32(s[41..45]), Get32(s[45..49]), Get64(s[49..57]), Get64(s[57..65]))
  }

  /** Keys longer than 32 bytes come back truncated, everything else unchanged. */
  lemma DecodeEncode(e: NodeInfo)
    ensures DecodeEntry(EncodeEntry(e)) == e.(key := TruncateKey(e.key))
  {
    hide Put64, Put32, Get64, Get32, TruncateKey;
    var k := TruncateKey(e.key);
    var s := EncodeEntry(e);
    assert s[0] == |k|;
    assert s[1..1 + |k|] == k;
    assert s[33..41] == Put64(e.accountOffset);
    assert s[41..45] == Put32(e.accountSize);
    assert s[45..49] == Put32(e.storageFileId);
    assert s[49..57] == Put64(e.storageOffset);
    assert s[57..65] == Put64(e.storageSize);
  }

  function TagEntry(blockId: u64): Raw {
    hide Put64, Put32;
    [0] + Zeros(MAX_KEY_SIZE) + Put64(COMMIT_TAG_MAGIC) + Put32(0) + Put32(0) + Put64(0) + Put64(blockId)
  }

  /** `nodeCommitTagBlockID` succeeds. */
  predicate IsCommitTag(s: Raw) {
    && s[0] == 0
    && (forall i :: 1 <= i < 33 ==> s[i] == 0)
    && Get64(s[33..41]) == COMMIT_TAG_MAGIC
    && Get32(s[41..45]) == 0 && Get32(s[45..49]) == 0 && Get64(s[49..57]) == 0
    && Get64(s[57..65]) != 0
  }

  lemma TagIsTag(blockId: u64)
    requires blockId != 0
    ensures IsCommitTag(TagEntry(blockId))
  {
    hide Put64, Put32, Get64, Get32;
    var s := TagEntry(blockId);
    assert s[33..41] == Put64(COMMIT_TAG_MAGIC);
    assert s[41..45] == Put32(0);
    assert s[45..49] == Put32(0);
    assert s[49..57] == Put64(0);
    assert s[57..65] == Put64(blockId);
  }

  /** What is recognised as a tag is the tag entry of a non-zero block, and nothing else. */
  lemma TagExactly(s: Raw)
    ensures IsCommitTag(s) <==> Get64(s[57..65]) != 0 && s == TagEntry(Get64(s[57..65]))
  {
    hide Put64, Put32, Get64, Get32;
    var id := Get64(s[57..65]);
    if IsCommitTag(s) {
      TagFields(s, id);
    } else if id != 0 && s == TagEntry(id) {
      TagIsTag(id);
    }
  }

  lemma TagFields(s: Raw, id: u64)
    requires IsCommitTag(s) && id == Get64(s[57..65])
    ensures s == TagEntry(id)
  {
    hide Put64, Put32, Get64, Get32;
    Get64Injective(s[33..41], Put64(COMMIT_TAG_MAGIC));
    Get32Injective(s[41..45], Put32(0));
    Get32Injective(s[45..49], Put32(0));
    Get64Injective(s[49..57], Put64(0));
    Get64Injective(s[57..65], Put64(id));
    assert s[..33] == [0] + Zeros(32);
    assert s == s[..33] + s[33..41] + s[41..45] + s[45..49] + s[49..57] + s[57..65];
  }

  /** The bytes of an entry and of a tag, which carries `CMTBLOCK`. */
  lemma FormatExample()
    ensures EncodeEntry(NodeInfo([7], 0x0102, 3, 4, 5, 6)) == [1, 7] + Zeros(31) + [0, 0, 0, 0, 0, 0, 1, 2] + [0, 0, 0, 3] + [0, 0, 0, 4]
              + [0, 0, 0, 0, 0, 0, 0, 5] + [0, 0, 0, 0, 0, 0, 0, 6]
    ensures TagEntry(9) == Zeros(33) + [0x43, 0x4d, 0x54, 0x42, 0x4c, 0x4f, 0x43, 0x4b] + Zeros(16) + [0, 0, 0, 0, 0, 0, 0, 9]
  {
    Small64(0x0102, 1, 2);
    Small64(5, 0, 5);
    Small64(6, 0, 6);
    Small32(3, 0, 3);
    Small32(4, 0, 4);
    TagBytes();
  }

  lemma TagBytes()
    ensures TagEntry(9) == Zeros(33) + [0x43, 0x4d, 0x54, 0x42, 0x4c, 0x4f, 0x43, 0x4b] + Zeros(16) + [0, 0, 0, 0, 0, 0, 0, 9]
  {
    hide Put64, Put32;
    MagicBytes();
    Small64(9, 0, 9);
    Small64(0, 0, 0);
    Small32(0, 0, 0);
    SomeZeros();
  }

  lemma MagicBytes()
    ensures Put64(COMMIT_TAG_MAGIC) == [0x43, 0x4d, 0x54, 0x42, 0x4c, 0x4f, 0x43, 0x4b]
  {
    assert COMMIT_TAG_MAGIC / 0x1_0000_0000 == 0x434d5442 && COMMIT_TAG_MAGIC % 0x1_0000_0000 == 0x4c4f434b;
    MagicHigh();
    MagicLow();
    hide Put32;
  }

  lemma MagicHigh()
    ensures Put32(0x434d5442) == [0x43, 0x4d, 0x54, 0x42]
  {
    assert Put16(0x434d) == [0x43, 0x4d] && Put16(0x5442) == [0x54, 0x42];
  }

  lemma MagicLow()
    ensures Put32(0x4c4f434b) == [0x4c, 0x4f, 0x43, 0x4b]
  {
    assert Put16(0x4c4f) == [0x4c, 0x4f] && Put16(0x434b) == [0x43, 0x4b];
  }

  lemma SomeZeros()
    ensures [0] + Zeros(32) == Zeros(33)
    ensures [0, 0, 0, 0] + [0, 0, 0, 0] + [0, 0, 0, 0, 0, 0, 0, 0] == Zeros(16)
  {
  }

  lemma EntryIsNotTag(e: NodeInfo)
    requires e.key != []
    ensures !IsCommitTag(EncodeEntry(e))
  {
    hide Put64, Put32, Get64, Get32;
  }

  // ----- regions

  /** The whole entries of a byte region; a trailing fragment is ignored. */
  function Chunk(r: seq<byte>): (raws: seq<Raw>)
    ensures |raws| == |r| / ENTRY_SIZE
  {
    seq(|r| / ENTRY_SIZE, i requires 0 <= i < |r| / ENTRY_SIZE => r[i * ENTRY_SIZE..(i + 1) * ENTRY_SIZE])
  }

  function Flatten(raws: seq<Raw>): (r: seq<byte>)
    ensures |r| == |raws| * ENTRY_SIZE
  {
    if raws == [] then [] else raws[0] + Flatten(raws[1..])
  }

  lemma {:induction false} ChunkFlatten(raws: seq<Raw>, tail: seq<byte>)
    requires |tail| < ENTRY_SIZE
    ensures Chunk(Flatten(raws) + tail) == raws
  {
    if raws != [] {
      ChunkFlatten(raws[1..], tail);
      var r := Flatten(raws) + tail;
      var rest := Flatten(raws[1..]) + tail;
      assert r == raws[0] + rest;
      forall i | 0 <= i < |raws| ensures Chunk(r)[i] == raws[i] {
        if i == 0 {
          assert r[0..ENTRY_SIZE] == raws[0];
        } else {
          assert raws[i] == Chunk(rest)[i - 1] == rest[(i - 1) * ENTRY_SIZE..i * ENTRY_SIZE];
          assert r[i * ENTRY_SIZE..(i + 1) * ENTRY_SIZE] == rest[(i - 1) * ENTRY_SIZE..i * ENTRY_SIZE];
        }
      }
    }
  }

  lemma {:induction false} FlattenConcat(a: seq<Raw>, b: seq<Raw>)
    ensures Flatten(a + b) == Flatten(a) + Flatten(b)
  {
    hide Flatten;
    if a == [] {
      FlattenNone();
      assert a + b == b;
    } else {
      FlattenConcat(a[1..], b);
      FlattenCons(a);
      FlattenCons(a + b);
      assert (a + b)[1..] == a[1..] + b;
    }
  }

  lemma FlattenNone()
    ensures Flatten([]) == []
  {
  }

  lemma FlattenCons(raws: seq<Raw>)
    requires raws != []
    ensures Flatten(raws) == raws[0] + Flatten(raws[1..])
  {
  }

  function EncodeEntries(es: seq<NodeInfo>): (raws: seq<Raw>)
    ensures |raws| == |es| && forall i :: 0 <= i < |es| ==> raws[i] == EncodeEntry(es[i])
  {
    seq(|es|, i requires 0 <= i < |es| => EncodeEntry(es[i]))
  }

  // ----- the fold

  type NodeMap = map<seq<byte>, NodeInfo>

  /** One turn of the sorted loop: later entries simply replace earlier ones. */
  function ApplySorted(m: NodeMap, s: Raw): NodeMap {
    if IsCommitTag(s) then m
    else
      var e := DecodeEntry(s);
      if e.key != [] && !IsTombstone(e) then m[e.key := e] else m
  }

  /** One turn of the append-region loop. */
  function ApplyUnsorted(m: NodeMap, s: Raw): NodeMap {
    if IsCommitTag(s) then m else ApplyEntry(m, DecodeEntry(s))
  }

  function ApplyEntry(m: NodeMap, e: NodeInfo): NodeMap {
    if e.key == [] then m
    else if IsTombstone(e) then m - {e.key}
    else m[e.key := if e.key in m then Merge(m[e.key], e) else e]
  }

  function FoldSorted(m: NodeMap, raws: seq<Raw>): NodeMap
    decreases |raws|
  {
    if raws == [] then m else FoldSorted(ApplySorted(m, raws[0]), raws[1..])
  }

  function FoldUnsorted(m: NodeMap, raws: seq<Raw>): NodeMap
    decreases |raws|
  {
    if raws == [] then m else FoldUnsorted(ApplyUnsorted(m, raws[0]), raws[1..])
  }

  /** What a node file with these two regions means. */
  function Fold(sorted: seq<Raw>, unsorted: seq<Raw>): NodeMap {
    FoldUnsorted(FoldSorted(map[], sorted), unsorted)
  }

  lemma {:induction false} FoldUnsortedConcat(m: NodeMap, a: seq<Raw>, b: seq<Raw>)
    ensures FoldUnsorted(m, a + b) == FoldUnsorted(FoldUnsorted(m, a), b)
    decreases |a|
  {
    hide ApplyUnsorted;
    if a == [] {
      assert a + b == b;
    } else {
      assert (a + b)[1..] == a[1..] + b;
      FoldUnsortedConcat(ApplyUnsorted(m, a[0]), a[1..], b);
    }
  }

  lemma {:induction false} FoldSortedConcat(m: NodeMap, a: seq<Raw>, b: seq<Raw>)
    ensures FoldSorted(m, a + b) == FoldSorted(FoldSorted(m, a), b)
    decreases |a|
  {
    hide ApplySorted;
    if a == [] {
      assert a + b == b;
    } else {
      assert (a + b)[1..] == a[1..] + b;
      FoldSortedConcat(ApplySorted(m, a[0]), a[1..], b);
    }
  }

  /** Maps produced by a fold: stored under their own short, non-empty key, never a tombstone. */
  predicate Stored(m: NodeMap) {
    forall k :: k in m ==> m[k].key == k && 0 < |k| <= MAX_KEY_SIZE && !IsTombstone(m[k])
  }

  lemma {:induction false} FoldSortedStored(m: NodeMap, raws: seq<Raw>)
    requires Stored(m)
    ensures Stored(FoldSorted(m, raws))
    decreases |raws|
  {
    hide IsCommitTag;
    if raws != [] {
      FoldSortedStored(ApplySorted(m, raws[0]), raws[1..]);
    }
  }

  lemma {:induction false} FoldUnsortedStored(m: NodeMap, raws: seq<Raw>)
    requires Stored(m)
    ensures Stored(FoldUnsorted(m, raws))
    decreases |raws|
  {
    hide IsCommitTag, Merge;
    if raws != [] {
      FoldUnsortedStored(ApplyUnsorted(m, raws[0]), raws[1..]);
    }
  }

  // ----- compaction

  predicate StrictlySorted(es: seq<NodeInfo>) {
    forall i, j :: 0 <= i < j < |es| ==> Less(es[i].key, es[j].key)
  }

  function AsMap(es: seq<NodeInfo>): NodeMap {
    if es == [] then map[] else AsMap(es[..|es| - 1])[es[|es| - 1].key := es[|es| - 1]]
  }

  /** `es` lists the map `m` in strictly ascending key order. */
  ghost predicate Lists(es: seq<NodeInfo>, m: NodeMap) {
    StrictlySorted(es) && AsMap(es) == m
  }

  lemma {:induction false} AsMapEntries(es: seq<NodeInfo>)
    requires StrictlySorted(es)
    ensures forall i :: 0 <= i < |es| ==> es[i].key in AsMap(es) && AsMap(es)[es[i].key] == es[i]
  {
    if es != [] {
      var n := |es| - 1;
      AsMapEntries(es[..n]);
      forall i | 0 <= i < n ensures es[i].key != es[n].key && es[..n][i] == es[i] { LessTrichotomy(es[i].key, es[n].key); }
    }
  }

  /** Reading a compacted file back gives the map it was written from. */
  lemma {:induction false} FoldSortedOfListing(es: seq<NodeInfo>)
    requires forall i :: 0 <= i < |es| ==> 0 < |es[i].key| <= MAX_KEY_SIZE && !IsTombstone(es[i])
    ensures FoldSorted(map[], EncodeEntries(es)) == AsMap(es)
  {
    hide IsCommitTag, EncodeEntry, DecodeEntry, IsTombstone;
    if es != [] {
      var init, last := es[..|es| - 1], es[|es| - 1];
      FoldSortedOfListing(init);
      assert EncodeEntries(es) == EncodeEntries(init) + [EncodeEntry(last)];
      FoldSortedConcat(map[], EncodeEntries(init), [EncodeEntry(last)]);
      FoldSortedOne(AsMap(init), EncodeEntry(last));
      EntryIsNotTag(last);
      DecodeEncode(last);
    }
  }

  lemma FoldSortedOne(m: NodeMap, s: Raw)
    ensures FoldSorted(m, [s]) == ApplySorted(m, s)
  {
    hide ApplySorted;
    assert FoldSorted(ApplySorted(m, s), []) == ApplySorted(m, s);
  }

  /** Compaction preserves the meaning of the file. */
  lemma CompactionPreservesFold(sorted: seq<Raw>, unsorted: seq<Raw>, es: seq<NodeInfo>)
    requires Lists(es, Fold(sorted, unsorted))
    ensures Fold(EncodeEntries(es), []) == Fold(sorted, unsorted)
  {
    hide FoldSorted, FoldUnsorted, EncodeEntries, AsMap, IsTombstone;
    FoldSortedStored(map[], sorted);
    FoldUnsortedStored(FoldSorted(map[], sorted), unsorted);
    AsMapEntries(es);
    FoldSortedOfListing(es);
    FoldEmpty(AsMap(es));
  }

  lemma FoldSnoc(m: NodeMap, raws: seq<Raw>, k: nat)
    requires k < |raws|
    ensures FoldSorted(m, raws[..k + 1]) == ApplySorted(FoldSorted(m, raws[..k]), raws[k])
    ensures FoldUnsorted(m, raws[..k + 1]) == ApplyUnsorted(FoldUnsorted(m, raws[..k]), raws[k])
  {
    hide ApplySorted, ApplyUnsorted;
    assert raws[..k + 1] == raws[..k] + [raws[k]];
    FoldSortedConcat(m, raws[..k], [raws[k]]);
    FoldSortedOne(FoldSorted(m, raws[..k]), raws[k]);
    FoldUnsortedConcat(m, raws[..k], [raws[k]]);
    var f := FoldUnsorted(m, raws[..k]);
    assert FoldUnsorted(ApplyUnsorted(f, raws[k]), []) == ApplyUnsorted(f, raws[k]);
  }

  /** The two loops of `buildEntriesFromSlices`. */
  method FoldSlices(sortedSlice: seq<byte>, unsortedSlice: seq<byte>) returns (m: NodeMap)
    ensures m == Fold(Chunk(sortedSlice), Chunk(unsortedSlice))
  {
    hide FoldSorted, FoldUnsorted, IsCommitTag, DecodeEntry, IsTombstone, Merge;
    m := map[];
    ghost var raws := Chunk(sortedSlice);
    assert FoldSorted(map[], []) == map[] by { FoldEmpty(map[]); }
    for i := 0 to |sortedSlice| / ENTRY_SIZE
      invariant m == FoldSorted(map[], raws[..i])
    {
      FoldSnoc(map[], raws, i);
      var entry := sortedSlice[i * ENTRY_SIZE..(i + 1) * ENTRY_SIZE];
      if !IsCommitTag(entry) {
        var dec := DecodeEntry(entry);
        if dec.key != [] && !IsTombstone(dec) {
          m := m[dec.key := dec];
        }
      }
    }
    assert raws[..|raws|] == raws;
    ghost var base := m;
    raws := Chunk(unsortedSlice);
    assert FoldUnsorted(base, []) == base by { FoldEmpty(base); }
    for i := 0 to |unsortedSlice| / ENTRY_SIZE
      invariant m == FoldUnsorted(base, raws[..i])
    {
      FoldSnoc(base, raws, i);
      var entry := unsortedSlice[i * ENTRY_SIZE..(i + 1) * ENTRY_SIZE];
      if !IsCommitTag(entry) {
        var dec := DecodeEntry(entry);
        if dec.key != [] {
          if IsTombstone(dec) {
            m := m - {dec.key};
          } else {
            if dec.key in m {
              dec := Merge(m[dec.key], dec);
            }
            m := m[dec.key := dec];
          }
        }
      }
    }
    assert raws[..|raws|] == raws;
  }

  lemma FoldEmpty(m: NodeMap)
    ensures FoldSorted(m, []) == m && FoldUnsorted(m, []) == m
  {
  }

  method MinKey(keys: set<seq<byte>>) returns (k: seq<byte>)
    requires keys != {}
    ensures k in keys && forall x :: x in keys ==> Leq(k, x)
  {
    k :| k in keys;
    var rest := keys - {k};
    while rest != {}
      invariant rest <= keys && k in keys
      invariant forall x :: x in keys && x !in rest ==> Leq(k, x)
      decreases |rest|
    {
      var x :| x in rest;
      LessTrichotomy(x, k);
      if Less(x, k) {
        forall y | y in keys && y !in rest ensures Leq(x, y) { LeqTransitive(x, k, y); }
        k := x;
      }
      rest := rest - {x};
    }
  }

  /** Collecting the map's values and sorting them by key. */
  method SortedValues(m: NodeMap) returns (es: seq<NodeInfo>)
    requires forall k :: k in m ==> m[k].key == k
    ensures Lists(es, m)
  {
    es := [];
    var rest := m.Keys;
    while rest != {}
      invariant rest <= m.Keys
      invariant StrictlySorted(es) && AsMap(es) == map k | k in m && k !in rest :: m[k]
      invariant forall i, x :: 0 <= i < |es| && x in rest ==> Less(es[i].key, x)
      decreases |rest|
    {
      var k := MinKey(rest);
      var es' := es + [m[k]];
      assert es'[..|es|] == es;
      forall i, x | 0 <= i < |es'| && x in rest - {k} ensures Less(es'[i].key, x) {
        if i == |es| { assert Leq(k, x); }
      }
      es, rest := es', rest - {k};
    }
  }

  /** `buildEntriesFromSlices`: the fold of both regions, sorted by key. */
  method BuildEntries(sortedSlice: seq<byte>, unsortedSlice: seq<byte>) returns (es: seq<NodeInfo>)
    ensures Lists(es, Fold(Chunk(sortedSlice), Chunk(unsortedSlice)))
  {
    hide FoldSorted, FoldUnsorted, Chunk, AsMap;
    var m := FoldSlices(sortedSlice, unsortedSlice);
    FoldSortedStored(map[], Chunk(sortedSlice));
    FoldUnsortedStored(FoldSorted(map[], Chunk(sortedSlice)), Chunk(unsortedSlice));
    es := SortedValues(m);
  }
}
