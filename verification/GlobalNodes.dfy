/** The global node file: short keys live in one file whose contents are also held in memory.
    Writes inside a commit are batched and appended, with a commit tag, when the outermost commit
    ends; other writes are appended at once. */
module GlobalNodes {
  import opened Bytes
  import opened NodeFile
  import opened NodeLookup

  // ----- the in-memory index against the file

  /** The index may hold all-zero entries; the file cannot tell them from deleted keys. */
  function LiveAt(index: NodeMap, k: seq<byte>): Option<NodeInfo> {
    if k in index && !IsTombstone(index[k]) then Some(index[k]) else None
  }

  /** What replaying the file and then the pending batch gives for `k`. */
  function PendingAt(replayed: NodeMap, batch: NodeMap, k: seq<byte>): Option<NodeInfo> {
    if k in batch then FoldKey(At(replayed, k), [batch[k]]) else At(replayed, k)
  }

  ghost predicate Coherent(replayed: NodeMap, index: NodeMap, batch: NodeMap) {
    forall k :: LiveAt(index, k) == PendingAt(replayed, batch, k)
  }

  predicate ShortKeys(m: NodeMap) {
    forall k :: k in m ==> m[k].key == k && 0 < |k| <= MAX_KEY_SIZE
  }

  /** Writing `x` over `p` changes nothing in `x`. */
  predicate Settled(p: NodeInfo, x: NodeInfo) {
    && (HasStorage(p) ==> HasStorage(x))
    && (x.accountSize == 0 && x.accountOffset == p.accountOffset ==> p.accountSize == 0)
  }

  lemma SettledIff(p: NodeInfo, x: NodeInfo)
    requires !IsTombstone(x)
    ensures Merge(p, x) == x <==> Settled(p, x)
  {
  }

  lemma FoldOne(o: Option<NodeInfo>, e: NodeInfo)
    ensures FoldKey(o, [e]) == if IsTombstone(e) then None else Some(Overlay(o, e))
  {
    hide Merge;
    assert [e][1..] == [];
    FoldKeyNothing(if IsTombstone(e) then None else Some(Overlay(o, e)));
  }

  /** When a batched put may be committed without harm: the key was not already written in this
      commit, or the value in the file does not show through the new one. */
  predicate PutCommitsCleanly(replayed: NodeMap, batch: NodeMap, x: NodeInfo) {
    x.key in batch && x.key in replayed && !IsTombstone(x) ==> Settled(replayed[x.key], x)
  }

  /** A put inside a commit keeps index and file in step if and only if it commits cleanly. In
      particular it does if each key is written at most once per commit. */
  lemma BatchedPutIff(replayed: NodeMap, index: NodeMap, batch: NodeMap, e: NodeInfo)
    requires Coherent(replayed, index, batch)
    ensures var x := Overlay(At(index, e.key), e);
            Coherent(replayed, index[e.key := x], batch[e.key := x]) <==> PutCommitsCleanly(replayed, batch, x)
  {
    hide Merge, FoldKey, HasStorage;
    var k := e.key;
    var x := Overlay(At(index, k), e);
    var index', batch' := index[k := x], batch[k := x];
    forall j | j != k ensures LiveAt(index', j) == PendingAt(replayed, batch', j) {
      assert LiveAt(index, j) == PendingAt(replayed, batch, j);
    }
    assert Coherent(replayed, index', batch') <==> LiveAt(index', k) == PendingAt(replayed, batch', k);
    assert LiveAt(index, k) == PendingAt(replayed, batch, k);
    FoldOne(At(replayed, k), x);
    if k in replayed && !IsTombstone(x) {
      SettledIff(replayed[k], x);
      if k !in batch {
        MergeIdempotent(replayed[k], e);
      }
    }
  }

  /** Deleting a key and writing it again in one commit brings back, after a restart, the storage
      pointer that the delete removed. */
  lemma RewriteAfterDeleteResurrects()
    ensures var k: seq<byte> := [7];
            var stored, again := NodeInfo(k, 5, 3, 1, 0, 9), NodeInfo(k, 8, 3, 0, 0, 0);
            var replayed, index := map[k := stored], map[k := again];
            !PutCommitsCleanly(replayed, map[k := NodeInfo(k, 0, 0, 0, 0, 0)], again) &&
            LiveAt(index, k) == Some(again) && PendingAt(replayed, index, k) == Some(again.(storageFileId := 1, storageSize := 9))
  {
    var k: seq<byte> := [7];
    FoldOne(Some(NodeInfo(k, 5, 3, 1, 0, 9)), NodeInfo(k, 8, 3, 0, 0, 0));
  }

  lemma BatchedDelete(replayed: NodeMap, index: NodeMap, batch: NodeMap, k: seq<byte>)
    requires Coherent(replayed, index, batch)
    ensures Coherent(replayed, index - {k}, batch[k := NodeInfo(k, 0, 0, 0, 0, 0)])
  {
    hide FoldKey;
    var tomb := NodeInfo(k, 0, 0, 0, 0, 0);
    FoldOne(At(replayed, k), tomb);
    forall j ensures LiveAt(index - {k}, j) == PendingAt(replayed, batch[k := tomb], j) {
      assert LiveAt(index, j) == PendingAt(replayed, batch, j);
    }
  }

  // ----- replaying what is appended

  lemma {:induction false} HitsConcat(a: seq<Raw>, b: seq<Raw>, k: seq<byte>)
    ensures Hits(a + b, k) == Hits(a, k) + Hits(b, k)
  {
    hide IsCommitTag, DecodeEntry;
    if a == [] {
      assert a + b == b;
    } else {
      assert (a + b)[0] == a[0] && (a + b)[1..] == a[1..] + b;
      HitsConcat(a[1..], b, k);
    }
  }

  lemma HitsOfEntry(e: NodeInfo, k: seq<byte>)
    requires 0 < |e.key| <= MAX_KEY_SIZE
    ensures Hits([EncodeEntry(e)], k) == if e.key == k then [e] else []
  {
    hide EncodeEntry, DecodeEntry, IsCommitTag;
    assert [EncodeEntry(e)][1..] == [];
    EntryIsNotTag(e);
    DecodeEncode(e);
    assert Hits([], k) == [];
  }

  lemma TagHasNoHits(blockId: u64, k: seq<byte>)
    requires blockId != 0
    ensures Hits([TagEntry(blockId)], k) == []
  {
    hide IsCommitTag, DecodeEntry, TagEntry;
    TagIsTag(blockId);
    assert [TagEntry(blockId)][1..] == [];
    assert Hits([], k) == [];
  }

  function TagIf(blockId: u64): seq<Raw> {
    if blockId == 0 then [] else [TagEntry(blockId)]
  }

  lemma TagIfIs(blockId: u64)
    ensures TagIf(blockId) == if blockId == 0 then [] else [TagEntry(blockId)]
  {
    hide TagEntry;
  }

  /** The hits of a sorted batch: one per key. */
  lemma {:induction false} HitsOfListing(es: seq<NodeInfo>, k: seq<byte>)
    requires StrictlySorted(es)
    requires forall i :: 0 <= i < |es| ==> 0 < |es[i].key| <= MAX_KEY_SIZE
    ensures Hits(EncodeEntries(es), k) == if k in AsMap(es) then [AsMap(es)[k]] else []
  {
    hide Less, EncodeEntry, Hits;
    if es == [] {
      assert Hits([], k) == [] by { HitsNothing(k); }
    } else {
      var init, last := es[..|es| - 1], es[|es| - 1];
      HitsOfListing(init, k);
      assert EncodeEntries(es) == EncodeEntries(init) + [EncodeEntry(last)];
      HitsConcat(EncodeEntries(init), [EncodeEntry(last)], k);
      HitsOfEntry(last, k);
      NotBelow(es);
    }
  }

  /** The last key of a listing does not occur earlier. */
  lemma NotBelow(es: seq<NodeInfo>)
    requires es != [] && StrictlySorted(es)
    ensures es[|es| - 1].key !in AsMap(es[..|es| - 1])
  {
    hide AsMap, Less;
    var init, k := es[..|es| - 1], es[|es| - 1].key;
    AsMapKeys(init);
    if k in AsMap(init) {
      var i :| 0 <= i < |init| && init[i].key == k;
      assert Less(es[i].key, k);
      LessTrichotomy(k, k);
    }
  }

  lemma CommitAt(replayed: NodeMap, batch: NodeMap, es: seq<NodeInfo>, blockId: u64, k: seq<byte>)
    requires ShortKeys(batch) && Lists(es, batch) && k != []
    ensures At(FoldUnsorted(replayed, EncodeEntries(es) + TagIf(blockId)), k) == PendingAt(replayed, batch, k)
  {
    hide FoldUnsorted, EncodeEntries, TagIf, FoldKey, AsMap, Less, Hits;
    AsMapEntries(es);
    FoldUnsortedAt(replayed, EncodeEntries(es) + TagIf(blockId), k);
    HitsConcat(EncodeEntries(es), TagIf(blockId), k);
    HitsOfListing(es, k);
    TagIfHits(blockId, k);
    var hs := Hits(EncodeEntries(es), k);
    assert hs + [] == hs;
    FoldKeyNothing(At(replayed, k));
  }

  /** Appending the sorted batch to the file makes the replay equal the live index. */
  lemma CommitReplays(replayed: NodeMap, index: NodeMap, batch: NodeMap, es: seq<NodeInfo>, blockId: u64)
    requires Coherent(replayed, index, batch) && ShortKeys(batch) && ShortKeys(index) && Stored(replayed)
    requires Lists(es, batch)
    ensures Coherent(FoldUnsorted(replayed, EncodeEntries(es) + TagIf(blockId)), index, map[])
  {
    hide FoldUnsorted, EncodeEntries, TagIf, FoldKey, AsMap, Less;
    FoldUnsortedStored(replayed, EncodeEntries(es) + TagIf(blockId));
    forall k ensures LiveAt(index, k) == PendingAt(FoldUnsorted(replayed, EncodeEntries(es) + TagIf(blockId)), map[], k) {
      assert LiveAt(index, k) == PendingAt(replayed, batch, k);
      if k != [] {
        CommitAt(replayed, batch, es, blockId, k);
      }
    }
  }

  lemma TagIfHits(blockId: u64, k: seq<byte>)
    ensures Hits(TagIf(blockId), k) == []
  {
    if blockId != 0 { TagHasNoHits(blockId, k); }
  }

  lemma {:induction false} AsMapKeys(es: seq<NodeInfo>)
    ensures forall k :: k in AsMap(es) <==> exists i :: 0 <= i < |es| && es[i].key == k
  {
    if es != [] {
      var init, last := es[..|es| - 1], es[|es| - 1];
      AsMapKeys(init);
      forall k ensures k in AsMap(es) <==> exists i :: 0 <= i < |es| && es[i].key == k {
        if k in AsMap(es) {
          if k in AsMap(init) {
            var i :| 0 <= i < |init| && init[i].key == k;
            assert es[i].key == k;
          } else {
            assert es[|es| - 1].key == k;
          }
        }
        if i :| 0 <= i < |es| && es[i].key == k {
          assert i == |es| - 1 || init[i].key == k;
        }
      }
    }
  }

  /** Rewriting the whole index as a sorted region drops all-zero entries on the next replay. */
  lemma {:induction false} RewriteAt(es: seq<NodeInfo>, k: seq<byte>)
    requires forall i :: 0 <= i < |es| ==> 0 < |es[i].key| <= MAX_KEY_SIZE
    requires StrictlySorted(es)
    ensures At(FoldSorted(map[], EncodeEntries(es)), k) == LiveAt(AsMap(es), k)
  {
    hide EncodeEntry, IsTombstone, IsCommitTag, DecodeEntry, Less;
    if es != [] {
      var init, last := es[..|es| - 1], es[|es| - 1];
      RewriteAt(init, k);
      assert EncodeEntries(es) == EncodeEntries(init) + [EncodeEntry(last)];
      FoldSortedConcat(map[], EncodeEntries(init), [EncodeEntry(last)]);
      FoldSortedOne(FoldSorted(map[], EncodeEntries(init)), EncodeEntry(last));
      EntryIsNotTag(last);
      DecodeEncode(last);
      NotBelow(es);
    }
  }

  lemma RewriteReplays(es: seq<NodeInfo>, index: NodeMap)
    requires Lists(es, index) && ShortKeys(index)
    ensures Coherent(Fold(EncodeEntries(es), []), index, map[])
  {
    hide EncodeEntries, FoldSorted, AsMap, Less;
    AsMapEntries(es);
    FoldEmpty(FoldSorted(map[], EncodeEntries(es)));
    forall k ensures LiveAt(index, k) == PendingAt(Fold(EncodeEntries(es), []), map[], k) { RewriteAt(es, k); }
  }

  lemma FoldIsStored(sorted: seq<Raw>, unsorted: seq<Raw>)
    ensures Stored(Fold(sorted, unsorted))
  {
    hide FoldSorted, FoldUnsorted;
    FoldSortedStored(map[], sorted);
    FoldUnsortedStored(FoldSorted(map[], sorted), unsorted);
  }

  lemma FoldAppend(sorted: seq<Raw>, unsorted: seq<Raw>, add: seq<Raw>)
    ensures Fold(sorted, unsorted + add) == FoldUnsorted(Fold(sorted, unsorted), add)
  {
    hide FoldSorted, FoldUnsorted;
    FoldUnsortedConcat(FoldSorted(map[], sorted), unsorted, add);
  }

  /** The pending entries, sorted by key. */
  method SortBatch(batch: NodeMap) returns (es: seq<NodeInfo>)
    requires ShortKeys(batch)
    ensures Lists(es, batch)
  {
    es := SortedValues(batch);
  }

  lemma FlushReplays(sorted: seq<Raw>, unsorted: seq<Raw>, index: NodeMap, batch: NodeMap, es: seq<NodeInfo>, tag: u64)
    requires Coherent(Fold(sorted, unsorted), index, batch) && ShortKeys(batch) && ShortKeys(index) && Lists(es, batch)
    ensures Coherent(Fold(sorted, unsorted + (EncodeEntries(es) + TagIf(tag))), index, map[])
  {
    hide Fold, Coherent, FoldUnsorted, EncodeEntries, TagIf, Lists, Stored, ShortKeys;
    FoldIsStored(sorted, unsorted);
    CommitReplays(Fold(sorted, unsorted), index, batch, es, tag);
    FoldAppend(sorted, unsorted, EncodeEntries(es) + TagIf(tag));
  }

  lemma ListsOne(e: NodeInfo)
    ensures Lists([e], map[e.key := e])
  {
    assert [e][..0] == [];
    assert AsMap([]) == map[];
  }

  /** An index as it was loaded, with nothing pending, is in step with the file. */
  lemma StepsAlone(m: NodeMap)
    requires Stored(m)
    ensures Coherent(m, m, map[])
  {
  }

  // ----- the file

  const FILE_MAGIC: u32 := 0x50544E46
  const FILE_VERSION: u16 := 2
  const FILE_HEADER_SIZE := 22

  /** The file header; only the magic number and the size of the sorted region matter here. */
  function FileHeader(sortedCount: u32): (s: seq<byte>)
    ensures |s| == FILE_HEADER_SIZE
  {
    hide Put32, Put16;
    Put32(FILE_MAGIC) + Put16(FILE_VERSION) + Put32(sortedCount) + Put32(0) + Zeros(8)
  }

  /** The bytes of the header: `PTNF`, version 2 and the size of the sorted region. */
  lemma FormatExample()
    ensures FileHeader(0x0102) == [0x50, 0x54, 0x4e, 0x46, 0, 2, 0, 0, 1, 2] + Zeros(12)
  {
    assert Put32(0x50544e46) == [0x50, 0x54, 0x4e, 0x46] && Put16(2) == [0, 2];
    Small32(0x0102, 1, 2);
    Small32(0, 0, 0);
    hide Put32, Put16;
    assert Put32(0) + Zeros(8) == Zeros(12);
  }

  function FileBytes(sorted: seq<Raw>, unsorted: seq<Raw>): seq<byte>
    requires |sorted| < 0x1_0000_0000
  {
    FileHeader(|sorted|) + Flatten(sorted) + Flatten(unsorted)
  }

  /** How many entries of a region survive a cut after its last commit tag. */
  function LastTag(raws: seq<Raw>): (n: nat)
    ensures n <= |raws|
    ensures n > 0 ==> IsCommitTag(raws[n - 1])
    ensures forall i :: n <= i < |raws| ==> !IsCommitTag(raws[i])
  {
    if raws == [] then 0
    else if IsCommitTag(raws[|raws| - 1]) then |raws|
    else LastTag(raws[..|raws| - 1])
  }

  /** Where the append region starts, if the file has a header. */
  function RegionStart(file: seq<byte>): (r: Option<nat>)
    ensures r.Some? ==> r.value >= FILE_HEADER_SIZE
  {
    if |file| < FILE_HEADER_SIZE || Get32(file[0..4]) != FILE_MAGIC then None
    else Some(FILE_HEADER_SIZE + Get32(file[6..10]) as int * ENTRY_SIZE)
  }

  datatype Regions = Regions(sorted: seq<Raw>, unsorted: seq<Raw>)

  /** `readWholeNodeFile` and `decodeNodeFilePayload`: a file with a bad header, a short sorted region
      or a fragment at its end is refused. */
  function Parse(file: seq<byte>): Option<Regions> {
    if file == [] then Some(Regions([], []))
    else
      var start := RegionStart(file);
      if start.None? then None
      else if |file| == FILE_HEADER_SIZE then Some(Regions([], []))
      else if |file| < start.value || (|file| - start.value) % ENTRY_SIZE != 0 then None
      else Some(Regions(Chunk(file[FILE_HEADER_SIZE..start.value]), Chunk(file[start.value..])))
  }

  /** The index a file loads to, if it loads. */
  function Loaded(file: seq<byte>): Option<NodeMap> {
    match Parse(file)
    case None => None
    case Some(r) => Some(Fold(r.sorted, r.unsorted))
  }

  function LastTagEnd(payload: seq<byte>): (r: Option<nat>)
    ensures r.Some? ==> r.value <= |payload|
  {
    var start := RegionStart(payload);
    if |payload| <= FILE_HEADER_SIZE || start.None? || start.value > |payload| then None
    else
      var n := LastTag(Chunk(payload[start.value..]));
      if n > 0 then Some(start.value + n * ENTRY_SIZE) else None
  }

  /** `findLastNodeCommitTagEnd` on an uncompressed file: a backward scan over whole entries. */
  method FindLastTagEnd(payload: seq<byte>) returns (end: nat, found: bool)
    ensures LastTagEnd(payload) == if found then Some(end) else None
  {
    hide IsCommitTag, LastTag, RegionStart;
    end, found := 0, false;
    var region := RegionStart(payload);
    if |payload| <= FILE_HEADER_SIZE || region.None? || region.value > |payload| {
      return;
    }
    var start := region.value;
    ghost var raws := Chunk(payload[start..]);
    var k := (|payload| - start) / ENTRY_SIZE;
    ChunkAt(payload, start);
    while k > 0
      invariant 0 <= k <= |raws|
      invariant forall i :: k <= i < |raws| ==> !IsCommitTag(raws[i])
    {
      if IsCommitTag(payload[start + (k - 1) * ENTRY_SIZE..start + k * ENTRY_SIZE]) {
        assert IsCommitTag(raws[k - 1]);
        assert LastTag(raws) == k;
        return start + k * ENTRY_SIZE, true;
      }
      k := k - 1;
    }
    assert LastTag(raws) == 0;
  }

  /** `TrimNodeFilesAfterCommitTag` for one file. */
  function Trim(payload: seq<byte>): seq<byte> {
    match LastTagEnd(payload)
    case Some(end) => payload[..end]
    case None => payload
  }

  /** The index after a restart with recovery: the file must load before it is cut. */
  function Recovered(file: seq<byte>): Option<NodeMap> {
    if Loaded(file).None? then None else Loaded(Trim(file))
  }

  lemma ChunkAt(p: seq<byte>, start: nat)
    requires start <= |p|
    ensures var raws := Chunk(p[start..]);
            forall i :: 0 <= i < |raws| ==> raws[i] == p[start + i * ENTRY_SIZE..start + (i + 1) * ENTRY_SIZE]
  {
    var q := p[start..];
    forall i | 0 <= i < |q| / ENTRY_SIZE ensures q[i * ENTRY_SIZE..(i + 1) * ENTRY_SIZE] == p[start + i * ENTRY_SIZE..start + (i + 1) * ENTRY_SIZE] {
    }
  }

  // ----- puts

  function PutInto(index: NodeMap, e: NodeInfo): NodeMap {
    index[e.key := Overlay(At(index, e.key), e)]
  }

  function PutsInto(index: NodeMap, es: seq<NodeInfo>): NodeMap {
    if es == [] then index else PutInto(PutsInto(index, es[..|es| - 1]), es[|es| - 1])
  }

  /** The merged entries that a run of puts writes. */
  ghost function Written(index: NodeMap, es: seq<NodeInfo>): seq<NodeInfo> {
    if es == [] then []
    else
      var init, e := es[..|es| - 1], es[|es| - 1];
      Written(index, init) + [Overlay(At(PutsInto(index, init), e.key), e)]
  }

  /** The pending batch after a run of puts. */
  ghost function Batched(batch: NodeMap, index: NodeMap, es: seq<NodeInfo>): NodeMap {
    if es == [] then batch
    else
      var init, e := es[..|es| - 1], es[|es| - 1];
      Batched(batch, index, init)[e.key := Overlay(At(PutsInto(index, init), e.key), e)]
  }

  /** What the file holds for the keys of `es` does not show through their entries in the index. */
  ghost predicate AllHide(replayed: NodeMap, index: NodeMap, es: seq<NodeInfo>) {
    forall i :: 0 <= i < |es| && es[i].key in index && es[i].key in replayed && !IsTombstone(index[es[i].key]) ==>
      Settled(replayed[es[i].key], index[es[i].key])
  }

  /** At most one write per key per commit. */
  ghost predicate OnceEach(es: seq<NodeInfo>, batch: NodeMap) {
    && (forall i, j :: 0 <= i < j < |es| ==> es[i].key != es[j].key)
    && forall i :: 0 <= i < |es| ==> es[i].key !in batch
  }

  lemma PutsNone(index: NodeMap, batch: NodeMap, es: seq<NodeInfo>)
    ensures PutsInto(index, es[..0]) == index && Written(index, es[..0]) == [] && Batched(batch, index, es[..0]) == batch
  {
  }

  lemma EncodeNone()
    ensures EncodeEntries([]) == []
  {
  }

  lemma PutsSnoc(index: NodeMap, batch: NodeMap, es: seq<NodeInfo>, i: nat)
    requires i < |es|
    ensures var before, x := PutsInto(index, es[..i]), Overlay(At(PutsInto(index, es[..i]), es[i].key), es[i]);
            && PutsInto(index, es[..i + 1]) == PutInto(before, es[i])
            && Written(index, es[..i + 1]) == Written(index, es[..i]) + [x]
            && Batched(batch, index, es[..i + 1]) == Batched(batch, index, es[..i])[es[i].key := x]
  {
    hide Merge;
    assert es[..i + 1][..i] == es[..i];
  }

  lemma ShortAt(es: seq<NodeInfo>, i: nat)
    requires ShortEntries(es) && i < |es|
    ensures 0 < |es[i].key| <= MAX_KEY_SIZE
  {
  }

  lemma PutShape(index: NodeMap, batch: NodeMap, e: NodeInfo)
    requires ShortKeys(index) && ShortKeys(batch) && 0 < |e.key| <= MAX_KEY_SIZE
    ensures ShortKeys(PutInto(index, e)) && ShortKeys(batch[e.key := Overlay(At(index, e.key), e)])
  {
    hide IsTombstone, HasStorage;
  }

  /** A put that is appended at once. */
  lemma PutReplays(sorted: seq<Raw>, unsorted: seq<Raw>, index: NodeMap, e: NodeInfo)
    requires Coherent(Fold(sorted, unsorted), index, map[]) && ShortKeys(index) && 0 < |e.key| <= MAX_KEY_SIZE
    ensures var x := Overlay(At(index, e.key), e);
            Coherent(Fold(sorted, unsorted + [EncodeEntry(x)]), PutInto(index, e), map[])
  {
    hide Fold, Coherent, EncodeEntry, Merge;
    var x := Overlay(At(index, e.key), e);
    BatchedPutIff(Fold(sorted, unsorted), index, map[], e);
    PutShape(index, map[], e);
    ListsOne(x);
    assert map[][e.key := x] == map[x.key := x];
    FlushReplays(sorted, unsorted, PutInto(index, e), map[x.key := x], [x], 0);
    assert EncodeEntries([x]) + TagIf(0) == [EncodeEntry(x)];
  }

  lemma PutReplaysAfter(sorted: seq<Raw>, unsorted: seq<Raw>, xs: seq<NodeInfo>, index: NodeMap, e: NodeInfo, now: bool)
    requires now ==> Coherent(Fold(sorted, unsorted + EncodeEntries(xs)), index, map[]) && ShortKeys(index)
    requires 0 < |e.key| <= MAX_KEY_SIZE
    ensures var x := Overlay(At(index, e.key), e);
            now ==> Coherent(Fold(sorted, unsorted + EncodeEntries(xs + [x])), PutInto(index, e), map[])
  {
    hide Fold, Coherent, EncodeEntry, Merge, PutInto;
    if now {
      var x := Overlay(At(index, e.key), e);
      PutReplays(sorted, unsorted + EncodeEntries(xs), index, e);
      assert EncodeEntries(xs + [x]) == EncodeEntries(xs) + [EncodeEntry(x)];
      assert unsorted + EncodeEntries(xs + [x]) == (unsorted + EncodeEntries(xs)) + [EncodeEntry(x)];
    }
  }

  lemma TagReplays(sorted: seq<Raw>, unsorted: seq<Raw>, xs: seq<NodeInfo>, index: NodeMap, id: u64)
    requires Coherent(Fold(sorted, unsorted + EncodeEntries(xs)), index, map[]) && ShortKeys(index)
    ensures Coherent(Fold(sorted, unsorted + (EncodeEntries(xs) + TagIf(id))), index, map[])
  {
    hide Fold, Coherent, EncodeEntry, TagIf;
    var u := unsorted + EncodeEntries(xs);
    assert Lists([], map[]) by { assert AsMap([]) == map[]; }
    FlushReplays(sorted, u, index, map[], [], id);
    assert EncodeEntries([]) + TagIf(id) == TagIf(id);
    assert u + TagIf(id) == unsorted + (EncodeEntries(xs) + TagIf(id));
  }

  /** What a run of puts leaves for a key. */
  lemma {:induction false} PutsAt(index: NodeMap, batch: NodeMap, es: seq<NodeInfo>, k: seq<byte>)
    ensures var i, b := PutsInto(index, es), Batched(batch, index, es);
            if Puts(es, k) then k in i && k in b && i[k] == b[k] && i[k].key == k
            else At(i, k) == At(index, k) && At(b, k) == At(batch, k)
    decreases |es|
  {
    hide Merge, Overlay;
    if es != [] {
      var n := |es| - 1;
      PutsAt(index, batch, es[..n], k);
      PutsInit(es, k);
      OverlayKey(At(PutsInto(index, es[..n]), es[n].key), es[n]);
    }
  }

  ghost predicate Puts(es: seq<NodeInfo>, k: seq<byte>) {
    exists j :: 0 <= j < |es| && es[j].key == k
  }

  lemma PutsInit(es: seq<NodeInfo>, k: seq<byte>)
    requires es != []
    ensures Puts(es, k) <==> Puts(es[..|es| - 1], k) || es[|es| - 1].key == k
  {
    var n := |es| - 1;
    var init := es[..n];
    assert forall j :: 0 <= j < n ==> init[j] == es[j];
    if Puts(init, k) {
      var j :| 0 <= j < n && init[j].key == k;
      assert es[j].key == k;
    }
  }

  lemma OverlayKey(o: Option<NodeInfo>, e: NodeInfo)
    ensures Overlay(o, e).key == e.key
  {
    hide Merge;
  }

  /** A run of puts inside a commit. */
  lemma BatchedIff(replayed: NodeMap, index: NodeMap, batch: NodeMap, es: seq<NodeInfo>)
    requires Coherent(replayed, index, batch)
    ensures Coherent(replayed, PutsInto(index, es), Batched(batch, index, es)) <==> AllHide(replayed, PutsInto(index, es), es)
  {
    hide PutsInto, Batched, Merge, FoldKey, Settled, IsTombstone;
    var i, b := PutsInto(index, es), Batched(batch, index, es);
    forall k ensures LiveAt(i, k) == PendingAt(replayed, b, k) <==> HidesAt(replayed, i, es, k) {
      assert LiveAt(index, k) == PendingAt(replayed, batch, k);
      BatchedAtIff(replayed, index, batch, es, k);
    }
    AllHideAt(replayed, i, es);
  }

  ghost predicate HidesAt(replayed: NodeMap, index: NodeMap, es: seq<NodeInfo>, k: seq<byte>) {
    Puts(es, k) && k in index && k in replayed && !IsTombstone(index[k]) ==> Settled(replayed[k], index[k])
  }

  lemma AllHideAt(replayed: NodeMap, index: NodeMap, es: seq<NodeInfo>)
    ensures AllHide(replayed, index, es) <==> forall k :: HidesAt(replayed, index, es, k)
  {
    hide Settled, IsTombstone;
    if forall k :: HidesAt(replayed, index, es, k) {
      forall j | 0 <= j < |es| ensures HidesAt(replayed, index, es, es[j].key) {
      }
    }
  }

  lemma BatchedAtIff(replayed: NodeMap, index: NodeMap, batch: NodeMap, es: seq<NodeInfo>, k: seq<byte>)
    requires LiveAt(index, k) == PendingAt(replayed, batch, k)
    ensures var i, b := PutsInto(index, es), Batched(batch, index, es);
            LiveAt(i, k) == PendingAt(replayed, b, k) <==> HidesAt(replayed, i, es, k)
  {
    hide PutsInto, Batched, Merge, FoldKey, Settled, IsTombstone;
    var i, b := PutsInto(index, es), Batched(batch, index, es);
    PutsAt(index, batch, es, k);
    if Puts(es, k) {
      FoldOne(At(replayed, k), i[k]);
      if k in replayed && !IsTombstone(i[k]) {
        SettledIff(replayed[k], i[k]);
      }
    } else {
      SameThere(replayed, index, batch, i, b, k);
    }
  }

  lemma SameThere(replayed: NodeMap, index: NodeMap, batch: NodeMap, i: NodeMap, b: NodeMap, k: seq<byte>)
    requires At(i, k) == At(index, k) && At(b, k) == At(batch, k)
    ensures LiveAt(i, k) == LiveAt(index, k) && PendingAt(replayed, b, k) == PendingAt(replayed, batch, k)
  {
    hide FoldKey, IsTombstone;
  }

  /** Keys put once: the entry is the put over what the index had. */
  lemma {:induction false} PutOnce(index: NodeMap, es: seq<NodeInfo>, j: nat)
    requires j < |es| && forall x, y :: 0 <= x < y < |es| ==> es[x].key != es[y].key
    ensures At(PutsInto(index, es), es[j].key) == Some(Overlay(At(index, es[j].key), es[j]))
    decreases |es|
  {
    hide Merge;
    var n := |es| - 1;
    var init := es[..n];
    assert forall x :: 0 <= x < n ==> init[x] == es[x];
    if j < n {
      PutOnce(index, init, j);
    } else {
      PutsAt(index, index, init, es[n].key);
    }
  }

  /** One write per key and commit is always safe. */
  lemma OnceHides(replayed: NodeMap, index: NodeMap, batch: NodeMap, es: seq<NodeInfo>)
    requires Coherent(replayed, index, batch) && OnceEach(es, batch)
    ensures AllHide(replayed, PutsInto(index, es), es)
  {
    hide PutsInto, Merge, FoldKey, Settled, IsTombstone;
    var after := PutsInto(index, es);
    forall j | 0 <= j < |es| && es[j].key in after && es[j].key in replayed && !IsTombstone(after[es[j].key])
      ensures Settled(replayed[es[j].key], after[es[j].key])
    {
      var k := es[j].key;
      PutOnce(index, es, j);
      assert LiveAt(index, k) == PendingAt(replayed, batch, k) == Some(replayed[k]);
      MergeIdempotent(replayed[k], es[j]);
      SettledIff(replayed[k], Merge(replayed[k], es[j]));
    }
  }

  // ----- the sweep

  /** An index loaded while a batch is pending. */
  lemma LoadedBatchIff(replayed: NodeMap, batch: NodeMap)
    requires Stored(replayed) && ShortKeys(batch)
    ensures Coherent(replayed, replayed, batch) <==> forall k :: k in batch ==> Redundant(replayed, batch[k])
  {
    hide Merge, FoldKey, IsTombstone;
    forall k ensures LiveAt(replayed, k) == PendingAt(replayed, batch, k) <==> (k in batch ==> Redundant(replayed, batch[k])) {
      if k in batch {
        FoldOne(At(replayed, k), batch[k]);
      }
    }
  }

  /** The entries of both regions, folded and sorted. */
  method CompactRegions(sorted: seq<Raw>, unsorted: seq<Raw>) returns (es: seq<NodeInfo>)
    ensures AsMap(es) == Fold(sorted, unsorted) == Fold(EncodeEntries(es), []) && ShortKeys(AsMap(es))
  {
    hide Fold, Chunk, Flatten, AsMap, EncodeEntries, StrictlySorted, Stored, ShortKeys;
    assert Flatten(sorted) + [] == Flatten(sorted) && Flatten(unsorted) + [] == Flatten(unsorted);
    ChunkFlatten(sorted, []);
    ChunkFlatten(unsorted, []);
    es := BuildEntries(Flatten(sorted), Flatten(unsorted));
    CompactionPreservesFold(sorted, unsorted, es);
    FoldIsStored(sorted, unsorted);
    StoredShort(Fold(sorted, unsorted));
  }

  lemma StoredShort(m: NodeMap)
    requires Stored(m)
    ensures ShortKeys(m)
  {
    hide IsTombstone;
  }

  class GlobalStore {
    // the file
    var sorted: seq<Raw>
    var unsorted: seq<Raw>
    // memory
    var index: NodeMap
    var depth: nat
    var dirty: bool
    var blockId: u64
    var batch: NodeMap

    ghost function Replayed(): NodeMap
      reads this
    {
      Fold(sorted, unsorted)
    }

    ghost predicate Shape()
      reads this
    {
      && ShortKeys(index) && ShortKeys(batch)
      && (dirty <==> batch != map[])
      && (depth == 0 ==> batch == map[])
    }

    /** Replaying the file and then the pending batch gives the live index. */
    ghost predicate InStep()
      reads this
    {
      Coherent(Replayed(), index, batch)
    }

    constructor ()
      ensures Shape() && InStep() && index == map[] && sorted == [] && unsorted == [] && depth == 0 && blockId == 0
    {
      sorted, unsorted, index, depth, dirty, blockId, batch := [], [], map[], 0, false, 0, map[];
      new;
      FoldEmpty(map[]);
    }

    /** `loadGlobalNodeIndex` on the bytes of a file; a file that does not parse changes nothing. */
    method Reload(file: seq<byte>) returns (ok: bool)
      modifies this
      ensures ok <==> Loaded(file).Some?
      ensures ok ==> Shape() && InStep() && Some(index) == Loaded(file) && Some(Regions(sorted, unsorted)) == Parse(file)
      ensures ok ==> depth == 0 && blockId == 0
    {
      hide FoldSorted, FoldUnsorted, Chunk, RegionStart, Coherent;
      var start := RegionStart(file);
      FoldEmpty(map[]);
      if file == [] || (start.Some? && |file| == FILE_HEADER_SIZE) {
        sorted, unsorted, index, depth, dirty, blockId, batch := [], [], map[], 0, false, 0, map[];
        StepsAlone(map[]);
        return true;
      }
      if start.None? || |file| < start.value || (|file| - start.value) % ENTRY_SIZE != 0 {
        return false;
      }
      var es := BuildEntries(file[FILE_HEADER_SIZE..start.value], file[start.value..]);
      sorted, unsorted := Chunk(file[FILE_HEADER_SIZE..start.value]), Chunk(file[start.value..]);
      FoldIsStored(sorted, unsorted);
      StepsAlone(Fold(sorted, unsorted));
      index, depth, dirty, blockId, batch := AsMap(es), 0, false, 0, map[];
      ok := true;
    }

    /** A restart with recovery: the file is opened as it is, which must succeed, then
        `TrimNodeFilesAfterCommitTag` cuts it after its last tag and loads it again. */
    method Recover(file: seq<byte>) returns (ok: bool, left: seq<byte>)
      modifies this
      ensures ok <==> Recovered(file).Some?
      ensures ok ==> left == Trim(file) && Some(index) == Recovered(file)
      ensures ok ==> Shape() && InStep() && Some(Regions(sorted, unsorted)) == Parse(left) && depth == 0 && blockId == 0
      ensures !ok ==> left == file
    {
      hide Parse, LastTagEnd, Coherent, Fold;
      left := file;
      ok := Reload(file);
      if !ok {
        return;
      }
      var end, found := FindLastTagEnd(file);
      CutParses(file);
      assert file[..|file|] == file;
      if found && end < |file| {
        left := file[..end];
        ok := Reload(left);
      }
    }

    /** `putIntoGlobalFileNode`. Outside a commit the file is always right; inside one, exactly when
        the put commits cleanly. */
    method Put(e: NodeInfo)
      requires Shape() && InStep() && 0 < |e.key| <= MAX_KEY_SIZE
      modifies this
      ensures Shape() && sorted == old(sorted) && depth == old(depth) && blockId == old(blockId)
      ensures index == PutInto(old(index), e)
      ensures batch == if depth == 0 then old(batch) else old(batch)[e.key := index[e.key]]
      ensures unsorted == if depth == 0 then old(unsorted) + [EncodeEntry(index[e.key])] else old(unsorted)
      ensures InStep() <==> (old(depth) == 0 || PutCommitsCleanly(old(Replayed()), old(batch), index[e.key]))
    {
      hide Fold, Merge, Coherent, EncodeEntry, IsTombstone;
      var x := Overlay(At(index, e.key), e);
      BatchedPutIff(Replayed(), index, batch, e);
      if depth > 0 {
        index := index[e.key := x];
        batch := batch[e.key := x];
        dirty := true;
        return;
      }
      PutReplays(sorted, unsorted, index, e);
      index := index[e.key := x];
      unsorted := unsorted + [EncodeEntry(x)];
    }

    /** `putGlobalNodeInfos`: several puts, and outside a commit one append of them all with their tag.
        Inside a commit the file stays in step exactly when every written entry hides what the file has. */
    method PutAll(es: seq<NodeInfo>, id: u64)
      requires Shape() && InStep() && ShortEntries(es)
      modifies this
      ensures Shape() && sorted == old(sorted) && depth == old(depth) && blockId == old(blockId)
      ensures index == PutsInto(old(index), es)
      ensures batch == if depth == 0 then old(batch) else Batched(old(batch), old(index), es)
      ensures unsorted == if depth > 0 || es == [] then old(unsorted)
                          else old(unsorted) + (EncodeEntries(Written(old(index), es)) + if id == 0 then [] else [TagEntry(id)])
      ensures InStep() <==> depth == 0 || AllHide(old(Replayed()), index, es)
      ensures OnceEach(es, old(batch)) ==> InStep()
    {
      hide Fold, Merge, Coherent, EncodeEntries, EncodeEntry, IsTombstone, PutsInto, PutInto, Batched, Written, TagIf, TagEntry, ShortEntries, OnceEach;
      PutsNone(index, batch, es);
      BatchedIff(Replayed(), index, batch, es);
      assert unsorted + EncodeEntries([]) == unsorted by { EncodeNone(); }
      var xs := [];
      for i := 0 to |es|
        invariant Shape() && sorted == old(sorted) && unsorted == old(unsorted) && depth == old(depth) && blockId == old(blockId)
        invariant index == PutsInto(old(index), es[..i]) && xs == Written(old(index), es[..i])
        invariant batch == if depth == 0 then old(batch) else Batched(old(batch), old(index), es[..i])
        invariant depth == 0 ==> Coherent(Fold(sorted, unsorted + EncodeEntries(xs)), index, map[])
      {
        PutsSnoc(old(index), old(batch), es, i);
        ShortAt(es, i);
        PutReplaysAfter(sorted, unsorted, xs, index, es[i], depth == 0);
        PutShape(index, batch, es[i]);
        var x := Overlay(At(index, es[i].key), es[i]);
        index := PutInto(index, es[i]);
        xs := xs + [x];
        if depth > 0 {
          batch := batch[es[i].key := x];
          dirty := true;
        }
      }
      assert es[..|es|] == es;
      if OnceEach(es, old(batch)) {
        OnceHides(old(Replayed()), old(index), old(batch), es);
      }
      if depth > 0 || es == [] {
        return;
      }
      TagReplays(sorted, unsorted, xs, index, id);
      TagIfIs(id);
      unsorted := unsorted + (EncodeEntries(xs) + TagIf(id));
    }

    /** The global file's part of `CompactAllNodeFiles`: the file is rewritten from its own contents and
        the index is loaded from it. Entries pending in a commit leave the index, so it stays in step
        exactly when they would change nothing. */
    method Sweep()
      requires Shape()
      modifies this`sorted, this`unsorted, this`index
      ensures Shape() && unsorted == [] && Replayed() == old(Replayed())
      ensures index == if old(unsorted) == [] then old(index) else Replayed()
      ensures InStep() <==> if old(unsorted) == [] then old(InStep()) else forall k :: k in batch ==> Redundant(Replayed(), batch[k])
    {
      hide Fold, Coherent, AsMap, EncodeEntries, Redundant, Stored, ShortKeys;
      if unsorted == [] {
        return;
      }
      LoadedBatchIff(Fold(sorted, unsorted), batch) by { FoldIsStored(sorted, unsorted); }
      var es := CompactRegions(sorted, unsorted);
      sorted, unsorted, index := EncodeEntries(es), [], AsMap(es);
    }

    /** `deleteFromGlobalFileNode`. */
    method Delete(key: seq<byte>) returns (found: bool)
      requires Shape() && InStep() && 0 < |key| <= MAX_KEY_SIZE
      modifies this
      ensures Shape() && InStep() && sorted == old(sorted) && depth == old(depth) && blockId == old(blockId)
      ensures found == (key in old(index)) && index == old(index) - {key}
      ensures batch == if found && depth > 0 then old(batch)[key := NodeInfo(key, 0, 0, 0, 0, 0)] else old(batch)
      ensures unsorted == if found && depth == 0 then old(unsorted) + [EncodeEntry(NodeInfo(key, 0, 0, 0, 0, 0))] else old(unsorted)
    {
      hide Fold, Merge, Coherent, FoldUnsorted, EncodeEntry;
      found := key in index;
      if !found {
        assert index - {key} == index;
        return;
      }
      var tomb := NodeInfo(key, 0, 0, 0, 0, 0);
      BatchedDelete(Replayed(), index, batch, key);
      ghost var replayed := Replayed();
      index := index - {key};
      if depth > 0 {
        batch := batch[key := tomb];
        dirty := true;
        return;
      }
      FoldIsStored(sorted, unsorted);
      ListsOne(tomb);
      assert batch[key := tomb] == map[key := tomb];
      CommitReplays(replayed, index, map[key := tomb], [tomb], 0);
      assert EncodeEntries([tomb]) + TagIf(0) == [EncodeEntry(tomb)];
      FoldAppend(sorted, unsorted, [EncodeEntry(tomb)]);
      unsorted := unsorted + [EncodeEntry(tomb)];
    }

    /** `beginGlobalCommitWithBlockID`; commits nest. */
    method Begin(id: u64)
      requires Shape() && InStep()
      modifies this`depth, this`blockId
      ensures Shape() && InStep() && depth == old(depth) + 1
      ensures blockId == if id > old(blockId) then id else old(blockId)
    {
      hide Coherent, Fold;
      depth := depth + 1;
      if id > blockId {
        blockId := id;
      }
    }

    /** Append the pending batch, sorted by key, and its tag. */
    method Flush(tag: u64) returns (ghost es: seq<NodeInfo>)
      requires ShortKeys(index) && ShortKeys(batch) && InStep()
      modifies this`unsorted, this`dirty, this`batch
      ensures InStep() && !dirty && batch == map[]
      ensures Lists(es, old(batch)) && unsorted == old(unsorted) + (EncodeEntries(es) + TagIf(tag))
    {
      hide Fold, Coherent, FoldUnsorted, EncodeEntries, TagIf, Lists, ShortKeys;
      var entries := SortBatch(batch);
      es := entries;
      FlushReplays(sorted, unsorted, index, batch, es, tag);
      unsorted := unsorted + (EncodeEntries(entries) + TagIf(tag));
      dirty, batch := false, map[];
    }

    /** `endGlobalCommit`: the outermost end of a commit that wrote something flushes the batch. */
    method End() returns (ghost es: seq<NodeInfo>)
      requires Shape() && InStep()
      modifies this
      ensures Shape() && InStep() && index == old(index) && sorted == old(sorted)
      ensures depth == if old(depth) == 0 then 0 else old(depth) - 1
      ensures if old(depth) == 1 && old(dirty) then
                Lists(es, old(batch)) && unsorted == old(unsorted) + (EncodeEntries(es) + if old(blockId) == 0 then [] else [TagEntry(old(blockId))])
              else unsorted == old(unsorted)
      ensures if old(depth) == 1 then batch == map[] && blockId == 0 else batch == old(batch) && blockId == old(blockId)
    {
      hide Fold, Coherent, EncodeEntries, TagIf, TagEntry, Lists;
      es := [];
      if depth == 0 {
        return;
      }
      depth := depth - 1;
      if depth > 0 {
        return;
      }
      if dirty {
        TagIfIs(blockId);
        es := Flush(blockId);
      }
      blockId := 0;
    }

    /** `Close`: flush a pending batch, then rewrite the file as one sorted region. */
    method Close()
      requires Shape() && InStep()
      modifies this
      ensures Shape() && InStep() && index == old(index) && batch == map[] && unsorted == [] && depth == old(depth)
    {
      hide Fold, Coherent, EncodeEntries, TagIf, Lists;
      if dirty {
        ghost var _ := Flush(0);
      }
      if unsorted != [] {
        Rewrite();
      }
    }

    /** `rewriteGlobalNodeFileLocked`. */
    method Rewrite()
      requires ShortKeys(index) && batch == map[]
      modifies this`sorted, this`unsorted
      ensures InStep() && unsorted == []
    {
      hide Coherent, EncodeEntries, Lists, Fold;
      var es := SortedValues(index);
      RewriteReplays(es, index);
      sorted, unsorted := EncodeEntries(es), [];
    }
  }

  /** A sweep inside a commit hides a key that the commit has just written. */
  method SweepHidesPendingPut(a: NodeInfo, b: NodeInfo) returns (store: GlobalStore)
    requires 0 < |a.key| <= MAX_KEY_SIZE && 0 < |b.key| <= MAX_KEY_SIZE && a.key != b.key && !IsTombstone(b)
    ensures store.Shape() && b.key in store.batch && b.key !in store.index && !store.InStep()
  {
    hide Fold, Coherent, EncodeEntry, Merge, IsTombstone;
    store := new GlobalStore();
    store.Put(a);
    NotYetStored(store.Replayed(), store.index, b.key);
    store.Begin(1);
    store.Put(b);
    store.Sweep();
    assert !Redundant(store.Replayed(), store.batch[b.key]);
  }

  lemma NotYetStored(replayed: NodeMap, index: NodeMap, k: seq<byte>)
    requires Coherent(replayed, index, map[]) && k !in index
    ensures k !in replayed
  {
    hide FoldKey;
    assert LiveAt(index, k) == PendingAt(replayed, map[], k);
  }

  // ----- crash during a commit

  /** Whole entries and a fragment left by an interrupted append. */
  lemma {:induction false} TornRegion(raws: seq<Raw>, torn: seq<byte>) returns (k: nat, tail: seq<byte>)
    requires torn < Flatten(raws)
    ensures k < |raws| && |tail| < ENTRY_SIZE && torn == Flatten(raws[..k]) + tail
  {
    if |torn| < ENTRY_SIZE {
      k, tail := 0, torn;
    } else {
      var first := raws[0];
      assert torn[..ENTRY_SIZE] == first by { assert Flatten(raws)[..ENTRY_SIZE] == first; assert torn == Flatten(raws)[..|torn|]; }
      var rest := torn[ENTRY_SIZE..];
      assert rest < Flatten(raws[1..]) by {
        assert torn == Flatten(raws)[..|torn|];
        assert rest == Flatten(raws)[ENTRY_SIZE..|torn|];
        assert Flatten(raws[1..]) == Flatten(raws)[ENTRY_SIZE..];
      }
      k, tail := TornRegion(raws[1..], rest);
      assert raws[..k + 1] == [first] + raws[1..][..k];
      FlattenConcat([first], raws[1..][..k]);
      assert Flatten([first]) == first + Flatten([]);
      k := k + 1;
    }
  }

  lemma HeaderReads(sorted: seq<Raw>, rest: seq<byte>)
    requires |sorted| < 0x1_0000_0000
    ensures var p := FileHeader(|sorted|) + Flatten(sorted) + rest;
            RegionStart(p) == Some(FILE_HEADER_SIZE + |sorted| * ENTRY_SIZE)
  {
    hide FileHeader, Get32, Flatten;
    HeaderFields(|sorted|);
    InFront(FileHeader(|sorted|), Flatten(sorted), rest);
  }

  lemma HeaderFields(n: u32)
    ensures Get32(FileHeader(n)[0..4]) == FILE_MAGIC && Get32(FileHeader(n)[6..10]) == n
  {
    hide Put32, Put16, Get32, Zeros;
    var hdr := FileHeader(n);
    assert hdr[0..4] == Put32(FILE_MAGIC);
    assert hdr[6..10] == Put32(n);
  }

  lemma InFront(hdr: seq<byte>, a: seq<byte>, b: seq<byte>)
    requires |hdr| == FILE_HEADER_SIZE
    ensures (hdr + a + b)[0..4] == hdr[0..4] && (hdr + a + b)[6..10] == hdr[6..10]
  {
  }

  lemma LastTagOfConcat(a: seq<Raw>, b: seq<Raw>)
    requires forall i :: 0 <= i < |b| ==> !IsCommitTag(b[i])
    ensures LastTag(a + b) == LastTag(a)
  {
    hide IsCommitTag, LastTag;
    var n, m := LastTag(a + b), LastTag(a);
    var all := a + b;
    assert forall i :: 0 <= i < |a| ==> all[i] == a[i];
    assert forall i :: |a| <= i < |all| ==> all[i] == b[i - |a|];
  }

  /** What recovery leaves of the file when a tagged commit was interrupted. */
  lemma TrimOfTornCommit(sorted: seq<Raw>, unsorted: seq<Raw>, es: seq<NodeInfo>, blockId: u64, torn: seq<byte>)
    requires |sorted| < 0x1_0000_0000 && blockId != 0
    requires forall i :: 0 <= i < |es| ==> es[i].key != []
    requires torn < Flatten(EncodeEntries(es) + [TagEntry(blockId)])
    ensures var n := LastTag(unsorted);
            Trim(FileBytes(sorted, unsorted) + torn) ==
              if n > 0 then FileBytes(sorted, unsorted[..n]) else FileBytes(sorted, unsorted) + torn
  {
    hide IsCommitTag, LastTag, EncodeEntry, TagEntry, FileHeader, RegionStart, Flatten, Chunk;
    var add := EncodeEntries(es) + [TagEntry(blockId)];
    var k, tail := TornRegion(add, torn);
    forall i | 0 <= i < k ensures !IsCommitTag(add[..k][i]) { EntryIsNotTag(es[i]); }
    var raws := unsorted + add[..k];
    FlattenConcat(unsorted, add[..k]);
    var hdr := FileHeader(|sorted|);
    var p := FileBytes(sorted, unsorted) + torn;
    var start := FILE_HEADER_SIZE + |sorted| * ENTRY_SIZE;
    var region := Flatten(raws) + tail;
    assert p == hdr + Flatten(sorted) + region;
    assert p[start..] == region;
    HeaderReads(sorted, region);
    ChunkFlatten(raws, tail);
    LastTagOfConcat(unsorted, add[..k]);
    var n := LastTag(unsorted);
    if n > 0 {
      FlattenConcat(unsorted[..n], unsorted[n..]);
      assert unsorted == unsorted[..n] + unsorted[n..];
      assert p[..start + n * ENTRY_SIZE] == FileBytes(sorted, unsorted[..n]);
    }
  }

  /** The bytes a store writes parse back to its two regions. */
  lemma FileParses(sorted: seq<Raw>, unsorted: seq<Raw>, tail: seq<byte>)
    requires |sorted| < 0x1_0000_0000 && |tail| < ENTRY_SIZE
    ensures Parse(FileBytes(sorted, unsorted) + tail) == if tail == [] then Some(Regions(sorted, unsorted)) else None
  {
    hide FileHeader, RegionStart, Flatten, Chunk;
    var hdr, region := FileHeader(|sorted|), Flatten(unsorted) + tail;
    var p := FileBytes(sorted, unsorted) + tail;
    var start := FILE_HEADER_SIZE + |sorted| * ENTRY_SIZE;
    assert p == hdr + Flatten(sorted) + region;
    HeaderReads(sorted, region);
    assert p[FILE_HEADER_SIZE..start] == Flatten(sorted) == Flatten(sorted) + [];
    assert p[start..] == region;
    ChunkFlatten(sorted, []);
    ChunkFlatten(unsorted, tail);
    Aligned(|unsorted|, |tail|);
  }

  lemma Aligned(n: nat, t: nat)
    requires t < ENTRY_SIZE
    ensures (n * ENTRY_SIZE + t) % ENTRY_SIZE == t
  {
  }

  /** A torn commit leaves some whole entries of the commit and perhaps a fragment of the next. */
  lemma TornEntries(es: seq<NodeInfo>, blockId: u64, torn: seq<byte>) returns (tail: seq<byte>)
    requires torn < Flatten(EncodeEntries(es) + [TagEntry(blockId)])
    ensures var j := |torn| / ENTRY_SIZE;
            j <= |es| && |tail| == |torn| % ENTRY_SIZE && torn == Flatten(EncodeEntries(es[..j])) + tail
  {
    hide EncodeEntry, TagEntry, Flatten;
    var add := EncodeEntries(es) + [TagEntry(blockId)];
    var k, rest := TornRegion(add, torn);
    Aligned(k, |rest|);
    assert |torn| == k * ENTRY_SIZE + |rest|;
    assert add[..k] == EncodeEntries(es[..k]);
    tail := rest;
  }

  /** What the cut file loads to, and what the uncut one does. */
  lemma TornCommitLoads(sorted: seq<Raw>, unsorted: seq<Raw>, es: seq<NodeInfo>, blockId: u64, torn: seq<byte>)
    requires |sorted| < 0x1_0000_0000 && blockId != 0 && ShortEntries(es)
    requires torn < Flatten(EncodeEntries(es) + [TagEntry(blockId)])
    ensures var file, n, j := FileBytes(sorted, unsorted) + torn, LastTag(unsorted), |torn| / ENTRY_SIZE;
            && j <= |es|
            && Loaded(file) == (if |torn| % ENTRY_SIZE != 0 then None else Some(Fold(sorted, unsorted + EncodeEntries(es[..j]))))
            && (n > 0 ==> Loaded(Trim(file)) == Some(Fold(sorted, unsorted[..n])))
            && (n == 0 ==> Trim(file) == file)
  {
    hide FileHeader, LastTag, Trim, EncodeEntry, EncodeEntries, TagEntry, Flatten, Parse, Fold;
    var n, j := LastTag(unsorted), |torn| / ENTRY_SIZE;
    TrimOfTornCommit(sorted, unsorted, es, blockId, torn);
    var tail := TornEntries(es, blockId, torn);
    FlattenConcat(unsorted, EncodeEntries(es[..j]));
    assert FileBytes(sorted, unsorted) + torn == FileBytes(sorted, unsorted + EncodeEntries(es[..j])) + tail;
    FileParses(sorted, unsorted + EncodeEntries(es[..j]), tail);
    assert FileBytes(sorted, unsorted[..n]) + [] == FileBytes(sorted, unsorted[..n]);
    FileParses(sorted, unsorted[..n], []);
  }

  /** A file with a tag is cut where entries end, so the rest loads. */
  lemma CutParses(file: seq<byte>)
    ensures LastTagEnd(file).Some? ==> Parse(Trim(file)).Some?
  {
    hide LastTag, Chunk, Get32;
    var end := LastTagEnd(file);
    if end.Some? {
      var cut := file[..end.value];
      assert cut[0..4] == file[0..4] && cut[6..10] == file[6..10];
    }
  }

  /** Replaying `e` over `replayed` changes nothing. */
  predicate Redundant(replayed: NodeMap, e: NodeInfo) {
    if IsTombstone(e) then e.key !in replayed
    else e.key in replayed && Merge(replayed[e.key], e) == replayed[e.key]
  }

  /** Entries of distinct keys leave the replay alone exactly when each of them does. */
  lemma ReplayUnchangedIff(replayed: NodeMap, es: seq<NodeInfo>)
    requires Stored(replayed) && StrictlySorted(es) && ShortEntries(es)
    ensures FoldUnsorted(replayed, EncodeEntries(es)) == replayed <==> forall i :: 0 <= i < |es| ==> Redundant(replayed, es[i])
  {
    hide FoldUnsorted, EncodeEntries, AsMap, Redundant, StrictlySorted, Stored, ShortEntries;
    var after := FoldUnsorted(replayed, EncodeEntries(es));
    AsMapKeys(es);
    forall i | 0 <= i < |es| ensures At(after, es[i].key) == At(replayed, es[i].key) <==> Redundant(replayed, es[i]) {
      ReplayedOne(replayed, es, i);
    }
    if forall i :: 0 <= i < |es| ==> Redundant(replayed, es[i]) {
      forall k ensures At(after, k) == At(replayed, k) {
        if k !in AsMap(es) {
          ReplayedOther(replayed, es, k);
        }
      }
      SameAt(after, replayed);
    }
  }

  predicate ShortEntries(es: seq<NodeInfo>) {
    forall i :: 0 <= i < |es| ==> 0 < |es[i].key| <= MAX_KEY_SIZE
  }

  lemma ShortBatch(es: seq<NodeInfo>)
    requires ShortEntries(es) && StrictlySorted(es)
    ensures ShortKeys(AsMap(es))
  {
    hide AsMap, StrictlySorted;
    AsMapKeys(es);
    AsMapEntries(es);
  }

  lemma ReplayedOther(replayed: NodeMap, es: seq<NodeInfo>, k: seq<byte>)
    requires Stored(replayed) && StrictlySorted(es) && ShortEntries(es) && k !in AsMap(es)
    ensures At(FoldUnsorted(replayed, EncodeEntries(es)), k) == At(replayed, k)
  {
    hide FoldUnsorted, EncodeEntries, AsMap, StrictlySorted, ShortEntries, ShortKeys;
    assert EncodeEntries(es) + TagIf(0) == EncodeEntries(es);
    ShortBatch(es);
    if k != [] {
      CommitAt(replayed, AsMap(es), es, 0, k);
    } else {
      FoldUnsortedStored(replayed, EncodeEntries(es));
    }
  }

  lemma ReplayedOne(replayed: NodeMap, es: seq<NodeInfo>, i: nat)
    requires StrictlySorted(es) && ShortEntries(es) && i < |es|
    ensures var k := es[i].key;
            At(FoldUnsorted(replayed, EncodeEntries(es)), k) == At(replayed, k) <==> Redundant(replayed, es[i])
  {
    hide FoldUnsorted, EncodeEntries, FoldKey, AsMap, StrictlySorted, Merge, IsTombstone, ShortKeys;
    var k := es[i].key;
    assert EncodeEntries(es) + TagIf(0) == EncodeEntries(es);
    ShortBatch(es);
    AsMapEntries(es);
    CommitAt(replayed, AsMap(es), es, 0, k);
    FoldOne(At(replayed, k), es[i]);
  }

  lemma SameAt(a: NodeMap, b: NodeMap)
    requires forall k :: At(a, k) == At(b, k)
    ensures a == b
  {
    forall k ensures k in a <==> k in b {
      assert At(a, k) == At(b, k);
    }
    forall k | k in a ensures a[k] == b[k] {
      assert At(a, k) == At(b, k);
    }
  }

  /** After a crash inside a commit, with the last complete commit tagged at the end of the append
      region or the file just closed: cut after the last tag, the file loads to the committed index.
      A restart gets that far only if the torn write ends with a whole entry, because it opens the
      file before it cuts it; and a file closed since its last commit has no tag to cut at, so it
      keeps every whole entry of the torn commit. */
  lemma CrashRecoversIff(sorted: seq<Raw>, unsorted: seq<Raw>, batch: NodeMap, es: seq<NodeInfo>, blockId: u64, torn: seq<byte>)
    requires |sorted| < 0x1_0000_0000 && blockId != 0 && LastTag(unsorted) == |unsorted|
    requires ShortKeys(batch) && Lists(es, batch)
    requires torn < Flatten(EncodeEntries(es) + [TagEntry(blockId)])
    ensures var file, j := FileBytes(sorted, unsorted) + torn, |torn| / ENTRY_SIZE;
            && j <= |es|
            && (unsorted != [] ==> Loaded(Trim(file)) == Some(Fold(sorted, unsorted)))
            && (Recovered(file) == Some(Fold(sorted, unsorted)) <==>
                |torn| % ENTRY_SIZE == 0 && (unsorted != [] || forall i :: 0 <= i < j ==> Redundant(Fold(sorted, []), es[i])))
  {
    hide LastTag, Trim, EncodeEntries, TagEntry, Flatten, Fold, FileBytes, Redundant, Loaded, ShortEntries, Lists, ShortKeys, StrictlySorted;
    ListedShort(es, batch);
    TornCommitLoads(sorted, unsorted, es, blockId, torn);
    assert unsorted[..|unsorted|] == unsorted;
    FirstEntriesKept(sorted, es, |torn| / ENTRY_SIZE);
  }

  /** A commit torn after `j` entries, on a file just closed. */
  lemma FirstEntriesKept(sorted: seq<Raw>, es: seq<NodeInfo>, j: nat)
    requires ShortEntries(es) && StrictlySorted(es) && j <= |es|
    ensures Fold(sorted, [] + EncodeEntries(es[..j])) == Fold(sorted, []) <==> forall i :: 0 <= i < j ==> Redundant(Fold(sorted, []), es[i])
  {
    hide Fold, FoldUnsorted, EncodeEntries, Redundant, StrictlySorted, ShortEntries, Stored;
    FoldIsStored(sorted, []);
    FoldAppend(sorted, [], EncodeEntries(es[..j]));
    Shortened(es, j);
    ReplayUnchangedIff(Fold(sorted, []), es[..j]);
    assert forall i :: 0 <= i < j ==> es[..j][i] == es[i];
  }

  lemma ListedShort(es: seq<NodeInfo>, batch: NodeMap)
    requires ShortKeys(batch) && Lists(es, batch)
    ensures ShortEntries(es) && StrictlySorted(es)
  {
    hide AsMap, Less;
    AsMapEntries(es);
  }

  lemma Shortened(es: seq<NodeInfo>, j: nat)
    requires ShortEntries(es) && StrictlySorted(es) && j <= |es|
    ensures ShortEntries(es[..j]) && StrictlySorted(es[..j])
  {
    hide Less;
  }

  /** Committed, tagged and closed: when the next commit is torn after its first entry the restart
      keeps that entry, and when it is torn inside it the file does not load at all. */
  lemma TornCommitAfterClose()
    ensures var a, b, c := NodeInfo([1], 5, 3, 0, 0, 0), NodeInfo([2], 6, 3, 0, 0, 0), NodeInfo([3], 7, 3, 0, 0, 0);
            var file := FileBytes([EncodeEntry(a)], []);
            && EncodeEntry(b) < Flatten(EncodeEntries([b, c]) + [TagEntry(9)])
            && Loaded(file) == Some(map[a.key := a])
            && Recovered(file + EncodeEntry(b)) == Some(map[a.key := a, b.key := b])
            && Recovered(file + EncodeEntry(b)[..64]) == None
  {
    hide EncodeEntry, TagEntry, Flatten, Parse, FileBytes, Trim, LastTag, Fold;
    var a, b, c := NodeInfo([1], 5, 3, 0, 0, 0), NodeInfo([2], 6, 3, 0, 0, 0), NodeInfo([3], 7, 3, 0, 0, 0);
    var raws := EncodeEntries([b, c]) + [TagEntry(9)];
    FirstOf(raws);
    assert raws[0] == EncodeEntry(b);
    var file := FileBytes([EncodeEntry(a)], []);
    assert file + [] == file;
    FileParses([EncodeEntry(a)], [], []);
    FoldsTo(a, b);
    TornCommitLoads([EncodeEntry(a)], [], [b, c], 9, EncodeEntry(b));
    assert LastTag([]) == 0;
    assert [b, c][..1] == [b] && [] + EncodeEntries([b]) == [EncodeEntry(b)];
    TornCommitLoads([EncodeEntry(a)], [], [b, c], 9, EncodeEntry(b)[..64]);
  }

  lemma FirstOf(raws: seq<Raw>)
    requires |raws| > 1
    ensures raws[0] < Flatten(raws) && raws[0][..64] < Flatten(raws)
  {
    assert Flatten(raws) == raws[0] + Flatten(raws[1..]);
    assert |Flatten(raws[1..])| == |raws[1..]| * ENTRY_SIZE;
  }

  lemma FoldsTo(a: NodeInfo, b: NodeInfo)
    requires a == NodeInfo([1], 5, 3, 0, 0, 0) && b == NodeInfo([2], 6, 3, 0, 0, 0)
    ensures Fold([EncodeEntry(a)], []) == map[a.key := a]
    ensures Fold([EncodeEntry(a)], [EncodeEntry(b)]) == map[a.key := a, b.key := b]
  {
    hide EncodeEntry, DecodeEntry, IsCommitTag;
    EntryIsNotTag(a);
    EntryIsNotTag(b);
    DecodeEncode(a);
    DecodeEncode(b);
    FoldSortedOne(map[], EncodeEntry(a));
    var m := map[a.key := a];
    FoldEmpty(m);
    FoldEmpty(ApplyUnsorted(m, EncodeEntry(b)));
    assert FoldUnsorted(m, [EncodeEntry(b)]) == FoldUnsorted(ApplyUnsorted(m, EncodeEntry(b)), []);
  }
}
