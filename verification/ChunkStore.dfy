/** A segmented storage folder: chunk files partitioned by start key, updated by appending to the
    chunk that covers a key and by adding chunks for keys below every start, and swept by a full GC. */
module ChunkStore {
  import opened Bytes
  import opened KvSort
  import opened ChunkFile
  import S = SegmentIndex
  import F = SegmentFolder

  type Metas = seq<S.Meta>
  type Files = map<u32, seq<byte>>

  // ----- where keys live

  ghost predicate StrictStarts(ms: Metas) {
    forall i, j :: 0 <= i < j < |ms| ==> Less(ms[i].start, ms[j].start)
  }

  ghost predicate Named(ms: Metas) {
    F.DistinctFiles(ms) && forall i :: 0 <= i < |ms| ==> ms[i].start != []
  }

  /** Every key lies in the interval of chunk `i`. */
  ghost predicate Placed(ms: Metas, i: int, ps: seq<Pair>) {
    forall j :: 0 <= j < |ps| ==> ps[j].key != [] && S.LastLeq(ms, ps[j].key) == i
  }

  ghost predicate ChunkOk(ms: Metas, files: Files, i: nat, its: seq<Item>)
    requires i < |ms|
  {
    ItemsOk(its) && ms[i].file in files && files[ms[i].file] == EncodeItems(its) && Placed(ms, i, PairsOf(its))
  }

  ghost predicate FolderOk(ms: Metas, items: seq<seq<Item>>, files: Files) {
    && |items| == |ms| && StrictStarts(ms) && Named(ms)
    && forall i :: 0 <= i < |ms| ==> ChunkOk(ms, files, i, items[i])
  }

  /** The last write of a key, looked for in the chunk that covers it. */
  ghost function ValueIn(ms: Metas, items: seq<seq<Item>>, key: Key): Option<seq<byte>> {
    var c := S.LastLeq(ms, key);
    if 0 <= c < |items| then Last(PairsOf(items[c]), key) else None
  }

  lemma SortedStarts(ms: Metas)
    requires StrictStarts(ms)
    ensures S.StartsSorted(ms)
  {
    hide Less;
  }

  // ----- partitioning an update

  /** The pairs that go to chunk `i`, or with -1 those below every start key. */
  ghost function Bucket(ms: Metas, kvs: seq<Pair>, i: int): seq<Pair> {
    if kvs == [] then []
    else
      var n := |kvs| - 1;
      Bucket(ms, kvs[..n], i) + (if S.LastLeq(ms, kvs[n].key) == i then [kvs[n]] else [])
  }

  lemma {:induction false} BucketLast(ms: Metas, kvs: seq<Pair>, i: int, key: Key)
    ensures Last(Bucket(ms, kvs, i), key) == if S.LastLeq(ms, key) == i then Last(kvs, key) else None
  {
    if kvs != [] {
      var n := |kvs| - 1;
      BucketLast(ms, kvs[..n], i, key);
      var t := if S.LastLeq(ms, kvs[n].key) == i then [kvs[n]] else [];
      LastConcat(Bucket(ms, kvs[..n], i), t, key);
      assert t != [] ==> t[..0] == [];
    }
  }

  /** A bucket holds pairs of the update, in order, that belong to its chunk. */
  lemma {:induction false} BucketOk(ms: Metas, kvs: seq<Pair>, i: int)
    requires AllOk(kvs) && Strict(kvs)
    ensures AllOk(Bucket(ms, kvs, i)) && Strict(Bucket(ms, kvs, i)) && Placed(ms, i, Bucket(ms, kvs, i))
    ensures kvs != [] ==> forall j :: 0 <= j < |Bucket(ms, kvs, i)| ==> Leq(Bucket(ms, kvs, i)[j].key, kvs[|kvs| - 1].key)
  {
    hide Less, S.LastLeq;
    if kvs != [] {
      var n := |kvs| - 1;
      var init := Bucket(ms, kvs[..n], i);
      BucketOk(ms, kvs[..n], i);
      forall j | 0 <= j < |init| ensures Less(init[j].key, kvs[n].key) {
        LeqTransitive(init[j].key, kvs[n - 1].key, kvs[n].key);
      }
    }
  }

  /** `partitionEntriesByChunks`. */
  method Partition(ms: Metas, kvs: seq<Pair>) returns (buckets: seq<seq<Pair>>, unmatched: seq<Pair>)
    requires ms != [] && StrictStarts(ms) && forall i :: 0 <= i < |kvs| ==> kvs[i].key != []
    ensures |buckets| == |ms| && unmatched == Bucket(ms, kvs, -1)
    ensures forall i :: 0 <= i < |ms| ==> buckets[i] == Bucket(ms, kvs, i)
  {
    hide Less, S.LastLeq;
    SortedStarts(ms);
    buckets, unmatched := seq(|ms|, _ => []), [];
    for k := 0 to |kvs|
      invariant |buckets| == |ms| && unmatched == Bucket(ms, kvs[..k], -1)
      invariant forall i :: 0 <= i < |ms| ==> buckets[i] == Bucket(ms, kvs[..k], i)
    {
      assert kvs[..k + 1][..k] == kvs[..k];
      var idx := S.FindChunk(ms, kvs[k].key);
      if idx < 0 {
        unmatched := unmatched + [kvs[k]];
      } else {
        buckets := buckets[idx := buckets[idx] + [kvs[k]]];
      }
    }
    assert kvs[..|kvs|] == kvs;
  }

  // ----- appending to a chunk

  lemma PlacedConcat(ms: Metas, i: int, a: seq<Pair>, b: seq<Pair>)
    requires Placed(ms, i, a) && Placed(ms, i, b)
    ensures Placed(ms, i, a + b)
  {
    hide S.LastLeq;
  }

  /** An append keeps the folder well formed and changes exactly the appended keys. */
  lemma AppendOk(ms: Metas, items: seq<seq<Item>>, files: Files, i: nat, ps: seq<Pair>, block: u64)
    requires FolderOk(ms, items, files) && i < |ms| && AllOk(ps) && Placed(ms, i, ps)
    ensures ItemsOk(Batch(ps, block)) && |items| == |ms|
    ensures var f := ms[i].file;
            && f in files
            && FolderOk(ms, items[i := items[i] + Batch(ps, block)], files[f := files[f] + EncodeItems(Batch(ps, block))])
  {
    hide EncodeItems, Placed, PairsOf, Batch, StrictStarts, ItemsOk;
    var b, f := Batch(ps, block), ms[i].file;
    BatchOk(ps, block);
    assert ChunkOk(ms, files, i, items[i]);
    EncodeConcat(items[i], b);
    PairsConcat(items[i], b);
    PlacedConcat(ms, i, PairsOf(items[i]), ps);
    var files', items' := files[f := files[f] + EncodeItems(b)], items[i := items[i] + b];
    forall j | 0 <= j < |ms| ensures ChunkOk(ms, files', j, items'[j]) {
      assert ChunkOk(ms, files, j, items[j]);
      assert j != i ==> ms[j].file != f;
    }
  }

  lemma AppendValue(ms: Metas, items: seq<seq<Item>>, i: nat, ps: seq<Pair>, block: u64, key: Key)
    requires |items| == |ms| && i < |ms| && AllOk(ps)
    ensures ValueIn(ms, items[i := items[i] + Batch(ps, block)], key) ==
              if S.LastLeq(ms, key) == i && Last(ps, key).Some? then Last(ps, key) else ValueIn(ms, items, key)
  {
    hide PairsOf, Batch, Last, S.LastLeq, PairOk;
    BatchOk(ps, block);
    PairsConcat(items[i], Batch(ps, block));
    LastConcat(PairsOf(items[i]), ps, key);
  }

  // ----- new chunks

  ghost function Concat(pss: seq<seq<Pair>>): seq<Pair> {
    if pss == [] then [] else Concat(pss[..|pss| - 1]) + pss[|pss| - 1]
  }

  lemma ConcatSnoc(pss: seq<seq<Pair>>, ps: seq<Pair>)
    ensures Concat(pss + [ps]) == Concat(pss) + ps
  {
    assert (pss + [ps])[..|pss|] == pss;
  }

  /** When every chunk holds only its own keys, the last write overall is the last write in the
      chunk that covers the key. */
  lemma {:induction false} ConcatLast(ms: Metas, pss: seq<seq<Pair>>, key: Key)
    requires |pss| <= |ms| && forall i :: 0 <= i < |pss| ==> Placed(ms, i, pss[i])
    ensures var c := S.LastLeq(ms, key);
            Last(Concat(pss), key) == if 0 <= c < |pss| then Last(pss[c], key) else None
    decreases |pss|
  {
    hide S.LastLeq, Last;
    NoLast(key);
    if pss != [] {
      var n := |pss| - 1;
      ConcatLast(ms, pss[..n], key);
      LastConcat(Concat(pss[..n]), pss[n], key);
      if S.LastLeq(ms, key) != n {
        assert Placed(ms, n, pss[n]);
        LastNone(pss[n], key);
      }
    }
  }

  function EntrySize(p: Pair): nat {
    FOOTER + |p.key| + |p.val|
  }

  /** The bytes the records of a chunk take, tag aside. */
  ghost function FramedSize(ps: seq<Pair>): nat {
    if ps == [] then 0 else FramedSize(ps[..|ps| - 1]) + EntrySize(ps[|ps| - 1])
  }

  /** A chunk holds one pair, or fits the limit. */
  ghost predicate WithinLimit(chunk: seq<Pair>, limit: nat) {
    |chunk| == 1 || FramedSize(chunk) <= limit
  }

  /** The framed size is the number of bytes the records take in the file. */
  lemma {:induction false} FramedSizeIsBytes(ps: seq<Pair>)
    requires AllOk(ps)
    ensures ItemsOk(Batch(ps, 0)) && |EncodeItems(Batch(ps, 0))| == FramedSize(ps)
  {
    hide EncodeItem;
    BatchOk(ps, 0);
    if ps != [] {
      var n := |ps| - 1;
      FramedSizeIsBytes(ps[..n]);
      assert Batch(ps, 0)[..n] == Batch(ps[..n], 0);
    }
  }

  lemma FramedSnoc(chunk: seq<Pair>, p: Pair)
    ensures FramedSize(chunk + [p]) == FramedSize(chunk) + EntrySize(p)
  {
    assert (chunk + [p])[..|chunk|] == chunk;
  }

  /** The chunk-splitting loop: as many pairs as fit the limit, at least one. */
  method SplitBySize(ps: seq<Pair>, limit: nat) returns (chunks: seq<seq<Pair>>)
    ensures Concat(chunks) == ps && Cut(chunks, limit) && forall i :: 0 <= i < |chunks| ==> chunks[i] != []
    ensures ps != [] ==> chunks != []
  {
    hide Concat, FramedSize, EntrySize, Cut, Splitting;
    chunks := [];
    var chunk: seq<Pair>, size := [], 0;
    assert Concat([]) == [] by { ConcatNone(); }
    FramedNone();
    NothingSplit(limit);
    for k := 0 to |ps|
      invariant Concat(chunks) + chunk == ps[..k] && (k > 0 ==> chunk != [])
      invariant size == FramedSize(chunk) && Splitting(chunks, chunk, limit)
    {
      var sz := EntrySize(ps[k]);
      assert ps[..k + 1] == ps[..k] + [ps[k]];
      TakeOne(chunks, chunk, ps[k], limit);
      if size + sz > limit && chunk != [] {
        ConcatSnoc(chunks, chunk);
        chunks := chunks + [chunk];
        chunk, size := [], 0;
      }
      assert (Concat(chunks) + chunk) + [ps[k]] == Concat(chunks) + (chunk + [ps[k]]);
      FramedSnoc(chunk, ps[k]);
      chunk, size := chunk + [ps[k]], size + sz;
    }
    assert ps[..|ps|] == ps;
    EndSplit(chunks, chunk, limit);
    if chunk != [] {
      ConcatSnoc(chunks, chunk);
      chunks := chunks + [chunk];
    }
  }

  /** The chunks cut so far and the one being filled. */
  ghost predicate Splitting(chunks: seq<seq<Pair>>, chunk: seq<Pair>, limit: nat) {
    if chunk == [] then chunks == [] else Cut(chunks + [chunk], limit)
  }

  lemma NothingSplit(limit: nat)
    ensures Splitting([], [], limit)
  {
  }

  lemma TakeOne(chunks: seq<seq<Pair>>, chunk: seq<Pair>, p: Pair, limit: nat)
    requires Splitting(chunks, chunk, limit)
    ensures chunk == [] || FramedSize(chunk) + EntrySize(p) <= limit ==> Splitting(chunks, chunk + [p], limit)
    ensures chunk != [] && FramedSize(chunk) + EntrySize(p) > limit ==> Splitting(chunks + [chunk], [] + [p], limit)
  {
    hide FramedSize, EntrySize, Cut;
    FramedSnoc(chunk, p);
    assert [] + [p] == [p];
    if chunk == [] {
      assert chunk + [p] == [p];
      CutNone(limit);
      CutSnoc([], [p], limit);
    } else {
      CutInit(chunks, chunk, limit);
      if FramedSize(chunk) + EntrySize(p) <= limit {
        CutSnoc(chunks, chunk + [p], limit);
      } else {
        assert (chunks + [chunk])[|chunks|] == chunk;
        CutSnoc(chunks + [chunk], [p], limit);
      }
    }
  }

  lemma CutNone(limit: nat)
    ensures Cut([], limit)
  {
  }

  lemma CutInit(chunks: seq<seq<Pair>>, chunk: seq<Pair>, limit: nat)
    requires Cut(chunks + [chunk], limit)
    ensures Cut(chunks, limit) && chunk != [] && (chunks != [] ==> FramedSize(chunks[|chunks| - 1]) + EntrySize(chunk[0]) > limit)
  {
    hide FramedSize, EntrySize, WithinLimit;
    var all := chunks + [chunk];
    assert forall i :: 0 <= i < |chunks| ==> all[i] == chunks[i];
    assert all[|chunks|] == chunk;
    if chunks != [] {
      assert all[|chunks| - 1] == chunks[|chunks| - 1];
    }
  }

  lemma EndSplit(chunks: seq<seq<Pair>>, chunk: seq<Pair>, limit: nat)
    requires Splitting(chunks, chunk, limit)
    ensures Cut(if chunk == [] then chunks else chunks + [chunk], limit)
    ensures forall i :: 0 <= i < |chunks| ==> chunks[i] != []
  {
    if chunk != [] {
      CutInit(chunks, chunk, limit);
    }
  }

  /** Chunks as the splitting loop leaves them: not empty, within the limit, and none could have taken
      the next pair as well. */
  ghost predicate Cut(chunks: seq<seq<Pair>>, limit: nat) {
    && (forall i :: 0 <= i < |chunks| ==> chunks[i] != [] && WithinLimit(chunks[i], limit))
    && forall i :: 0 <= i < |chunks| - 1 ==> FramedSize(chunks[i]) + EntrySize(chunks[i + 1][0]) > limit
  }

  lemma CutSnoc(chunks: seq<seq<Pair>>, chunk: seq<Pair>, limit: nat)
    requires Cut(chunks, limit) && chunk != [] && WithinLimit(chunk, limit)
    requires chunks != [] ==> FramedSize(chunks[|chunks| - 1]) + EntrySize(chunk[0]) > limit
    ensures Cut(chunks + [chunk], limit)
  {
    hide FramedSize, EntrySize, WithinLimit;
  }

  lemma FramedNone()
    ensures FramedSize([]) == 0
  {
  }

  lemma ConcatNone()
    ensures Concat([]) == []
  {
  }

  /** The metadata of freshly written chunks: consecutive ordinals, first keys. */
  ghost function FreshMetas(chunks: seq<seq<Pair>>, first: u32): Metas
    requires (forall i :: 0 <= i < |chunks| ==> chunks[i] != []) && first as int + |chunks| <= 0x1_0000_0000
  {
    seq(|chunks|, i requires 0 <= i < |chunks| => S.Meta(first as int + i, chunks[i][0].key))
  }

  /** Chunks cut from strictly sorted pairs are ordered as wholes. */
  lemma {:induction false} ChunksApart(chunks: seq<seq<Pair>>, i: nat, x: nat, j: nat, y: nat)
    requires Strict(Concat(chunks)) && i < |chunks| && j < |chunks| && x < |chunks[i]| && y < |chunks[j]|
    requires i < j || (i == j && x < y)
    ensures Less(chunks[i][x].key, chunks[j][y].key)
    decreases |chunks|
  {
    hide Less;
    var n := |chunks| - 1;
    var a, b := Concat(chunks[..n]), chunks[n];
    StrictParts(a, b);
    if j < n {
      ChunksApart(chunks[..n], i, x, j, y);
    } else if i < n {
      var z := ChunkIn(chunks[..n], i, x);
      assert (a + b)[z] == a[z] && (a + b)[|a| + y] == b[y];
    } else {
      assert (a + b)[|a| + x] == b[x] && (a + b)[|a| + y] == b[y];
    }
  }

  lemma StrictParts(a: seq<Pair>, b: seq<Pair>)
    requires Strict(a + b)
    ensures Strict(a) && Strict(b)
  {
    hide Less;
    assert forall i :: 0 <= i < |a| ==> (a + b)[i] == a[i];
    assert forall i :: 0 <= i < |b| ==> (a + b)[|a| + i] == b[i];
  }

  lemma {:induction false} ChunkIn(chunks: seq<seq<Pair>>, i: nat, x: nat) returns (z: nat)
    requires i < |chunks| && x < |chunks[i]|
    ensures z < |Concat(chunks)| && Concat(chunks)[z] == chunks[i][x]
    decreases |chunks|
  {
    var n := |chunks| - 1;
    if i == n {
      z := |Concat(chunks[..n])| + x;
    } else {
      z := ChunkIn(chunks[..n], i, x);
    }
  }

  lemma {:induction false} ChunksOk(chunks: seq<seq<Pair>>, i: nat)
    requires AllOk(Concat(chunks)) && i < |chunks|
    ensures AllOk(chunks[i])
    decreases |chunks|
  {
    hide PairOk;
    var n := |chunks| - 1;
    var a, b := Concat(chunks[..n]), chunks[n];
    assert forall j :: 0 <= j < |a| ==> (a + b)[j] == a[j];
    assert forall j :: 0 <= j < |b| ==> (a + b)[|a| + j] == b[j];
    if i < n {
      ChunksOk(chunks[..n], i);
    }
  }

  ghost predicate GoodChunks(chunks: seq<seq<Pair>>) {
    Strict(Concat(chunks)) && AllOk(Concat(chunks)) && forall i :: 0 <= i < |chunks| ==> chunks[i] != []
  }

  /** Fresh chunks partition their keys by start key. */
  lemma FreshPlaced(chunks: seq<seq<Pair>>, first: u32)
    requires GoodChunks(chunks) && first as int + |chunks| <= 0x1_0000_0000
    ensures var ms := FreshMetas(chunks, first);
            StrictStarts(ms) && Named(ms) && forall i :: 0 <= i < |ms| ==> Placed(ms, i, chunks[i])
  {
    hide Less, Concat, AllOk, Strict, Leq, S.LastLeq;
    var ms := FreshMetas(chunks, first);
    forall i, j | 0 <= i < j < |ms| ensures Less(ms[i].start, ms[j].start) {
      ChunksApart(chunks, i, 0, j, 0);
    }
    forall i | 0 <= i < |ms| ensures ms[i].start != [] && Placed(ms, i, chunks[i]) {
      ChunksOk(chunks, i);
      FirstOk(chunks[i]);
      forall x | 0 <= x < |chunks[i]| ensures chunks[i][x].key != [] && S.LastLeq(ms, chunks[i][x].key) == i {
        OkAt(chunks[i], x);
        FreshAt(chunks, first, i, x);
      }
    }
  }

  lemma FirstOk(ps: seq<Pair>)
    requires AllOk(ps) && ps != []
    ensures ps[0].key != []
  {
  }

  lemma OkAt(ps: seq<Pair>, x: nat)
    requires AllOk(ps) && x < |ps|
    ensures ps[x].key != []
  {
  }

  lemma FreshAt(chunks: seq<seq<Pair>>, first: u32, i: nat, x: nat)
    requires GoodChunks(chunks) && first as int + |chunks| <= 0x1_0000_0000 && i < |chunks| && x < |chunks[i]|
    ensures S.LastLeq(FreshMetas(chunks, first), chunks[i][x].key) == i
  {
    hide Less, Concat, AllOk, Strict, S.LastLeq;
    var ms, key := FreshMetas(chunks, first), chunks[i][x].key;
    if x > 0 {
      ChunksApart(chunks, i, 0, i, x);
    }
    assert Leq(ms[i].start, key);
    forall j | i < j < |ms| ensures !Leq(ms[j].start, key) {
      ChunksApart(chunks, i, x, j, 0);
      LessTrichotomy(key, ms[j].start);
    }
    S.LastLeqIs(ms, key, i);
  }

  ghost function FreshItems(chunks: seq<seq<Pair>>, tags: seq<u64>): seq<seq<Item>>
    requires |tags| == |chunks|
  {
    seq(|chunks|, i requires 0 <= i < |chunks| => Batch(chunks[i], tags[i]))
  }

  /** `files` holds the chunks under consecutive names. */
  ghost predicate Written(chunks: seq<seq<Pair>>, tags: seq<u64>, first: u32, files: Files) {
    && |tags| == |chunks| && first as int + |chunks| <= 0x1_0000_0000
    && forall i :: 0 <= i < |chunks| ==> WrittenAt(chunks[i], tags[i], first as int + i, files)
  }

  ghost predicate WrittenAt(ps: seq<Pair>, tag: u64, f: u32, files: Files) {
    f in files && ItemsOk(Batch(ps, tag)) && files[f] == EncodeItems(Batch(ps, tag))
  }

  method WriteChunks(chunks: seq<seq<Pair>>, tags: seq<u64>, first: u32, files: Files) returns (r: Files)
    requires GoodChunks(chunks) && |tags| == |chunks| && first as int + |chunks| <= 0x1_0000_0000
    ensures Written(chunks, tags, first, r)
    ensures forall f :: f in r.Keys <==> f in files || first <= f < first as int + |chunks|
    ensures forall f :: f in files && !(first <= f < first as int + |chunks|) ==> r[f] == files[f]
  {
    hide EncodeItems, Batch, ItemsOk, Concat, Strict, AllOk;
    r := files;
    for i := 0 to |chunks|
      invariant forall j :: 0 <= j < i ==> WrittenAt(chunks[j], tags[j], first as int + j, r)
      invariant forall f :: f in r.Keys <==> f in files || first <= f < first as int + i
      invariant forall f :: f in files && !(first <= f < first as int + i) ==> r[f] == files[f]
    {
      ChunksOk(chunks, i);
      var payload := SerializeOk(chunks[i], tags[i]);
      r := r[first as int + i := payload];
    }
  }

  method SerializeOk(ps: seq<Pair>, block: u64) returns (r: seq<byte>)
    requires AllOk(ps)
    ensures ItemsOk(Batch(ps, block)) && r == EncodeItems(Batch(ps, block))
  {
    hide EncodeItems, Batch, ItemsOk;
    var payload := Serialize(ps, block);
    r := payload.value;
  }

  /** Fresh chunks in front of a folder whose start keys are all above theirs. */
  lemma AddFront(ms: Metas, items: seq<seq<Item>>, files: Files, chunks: seq<seq<Pair>>, tags: seq<u64>, first: u32, after: Files)
    requires FolderOk(ms, items, files) && GoodChunks(chunks) && Placed(ms, -1, Concat(chunks)) && Written(chunks, tags, first, after)
    requires forall i :: 0 <= i < |ms| ==> ms[i].file < first
    requires forall f :: f in files && f < first ==> f in after && after[f] == files[f]
    ensures FolderOk(FreshMetas(chunks, first) + ms, FreshItems(chunks, tags) + items, after)
  {
    hide EncodeItems, Batch, ItemsOk, Concat, Strict, AllOk, Less, Leq, Placed, PairsOf, S.LastLeq;
    var front, fi := FreshMetas(chunks, first), FreshItems(chunks, tags);
    FreshPlaced(chunks, first);
    FrontStarts(chunks, first, ms);
    var all, its := front + ms, fi + items;
    forall i | 0 <= i < |all| ensures ChunkOk(all, after, i, its[i]) {
      if i < |front| {
        assert WrittenAt(chunks[i], tags[i], first as int + i, after);
        ChunksOk(chunks, i);
        BatchOk(chunks[i], tags[i]);
        ChunkAt(ms, chunks, i);
        FrontPlaced(front, ms, chunks[i], i);
      } else {
        var k := i - |front|;
        assert ChunkOk(ms, files, k, items[k]);
        BackPlaced(front, ms, PairsOf(items[k]), k);
      }
    }
  }

  lemma ChunkAt(ms: Metas, chunks: seq<seq<Pair>>, i: nat)
    requires Placed(ms, -1, Concat(chunks)) && i < |chunks|
    ensures Placed(ms, -1, chunks[i])
  {
    hide S.LastLeq;
    forall x | 0 <= x < |chunks[i]| ensures chunks[i][x].key != [] && S.LastLeq(ms, chunks[i][x].key) == -1 {
      var z := ChunkIn(chunks, i, x);
    }
  }

  lemma FrontPlaced(front: Metas, ms: Metas, ps: seq<Pair>, i: nat)
    requires Placed(front, i, ps) && Placed(ms, -1, ps)
    ensures Placed(front + ms, i, ps)
  {
    hide S.LastLeq;
    forall x | 0 <= x < |ps| ensures S.LastLeq(front + ms, ps[x].key) == i {
      F.LastLeqConcat(front, ms, ps[x].key);
    }
  }

  lemma BackPlaced(front: Metas, ms: Metas, ps: seq<Pair>, i: nat)
    requires Placed(ms, i, ps)
    ensures Placed(front + ms, |front| + i, ps)
  {
    hide S.LastLeq;
    forall x | 0 <= x < |ps| ensures S.LastLeq(front + ms, ps[x].key) == |front| + i {
      F.LastLeqConcat(front, ms, ps[x].key);
    }
  }

  lemma FrontStarts(chunks: seq<seq<Pair>>, first: u32, ms: Metas)
    requires GoodChunks(chunks) && Placed(ms, -1, Concat(chunks)) && first as int + |chunks| <= 0x1_0000_0000
    requires StrictStarts(ms) && Named(ms) && forall i :: 0 <= i < |ms| ==> ms[i].file < first
    ensures StrictStarts(FreshMetas(chunks, first) + ms) && Named(FreshMetas(chunks, first) + ms)
  {
    hide Concat, Strict, AllOk, Less, S.LastLeq;
    var front := FreshMetas(chunks, first);
    FreshPlaced(chunks, first);
    var all := front + ms;
    forall i, j | 0 <= i < |front| && 0 <= j < |ms| ensures Less(front[i].start, ms[j].start) {
      ChunkAt(ms, chunks, i);
      assert S.LastLeq(ms, chunks[i][0].key) == -1;
      AboveAll(ms, chunks[i][0].key, j);
    }
    forall i, j | 0 <= i < j < |all| ensures Less(all[i].start, all[j].start) && all[i].file != all[j].file {
      if j < |front| {
        assert Less(front[i].start, front[j].start);
      } else if i >= |front| {
        assert Less(ms[i - |front|].start, ms[j - |front|].start);
      } else {
        assert Less(front[i].start, ms[j - |front|].start);
      }
    }
  }

  lemma AboveAll(ms: Metas, key: Key, j: nat)
    requires S.LastLeq(ms, key) == -1 && j < |ms|
    ensures Less(key, ms[j].start)
  {
    hide S.LastLeq, Less;
    LessTrichotomy(key, ms[j].start);
  }

  /** Fresh chunks add exactly their own keys. */
  lemma FrontValue(ms: Metas, items: seq<seq<Item>>, chunks: seq<seq<Pair>>, tags: seq<u64>, first: u32, key: Key)
    requires |items| == |ms| && GoodChunks(chunks) && Placed(ms, -1, Concat(chunks)) && |tags| == |chunks| && first as int + |chunks| <= 0x1_0000_0000
    ensures ValueIn(FreshMetas(chunks, first) + ms, FreshItems(chunks, tags) + items, key) ==
              if Last(Concat(chunks), key).Some? then Last(Concat(chunks), key) else ValueIn(ms, items, key)
  {
    hide Batch, ItemsOk, Concat, Strict, AllOk, Less, Leq, PairsOf, Last, S.LastLeq;
    var front := FreshMetas(chunks, first);
    FreshPlaced(chunks, first);
    F.LastLeqConcat(front, ms, key);
    var c := S.LastLeq(ms, key);
    if c >= 0 {
      LastNone(Concat(chunks), key);
    } else {
      ConcatLast(front, chunks, key);
      var j := S.LastLeq(front, key);
      if j >= 0 {
        ChunksOk(chunks, j);
        BatchOk(chunks[j], tags[j]);
      }
    }
  }

  // ----- the index order

  /** There is one way to sort metadata with distinct start keys. */
  lemma {:induction false} SortUnique(r: Metas, t: Metas)
    requires S.Ordered(r) && StrictStarts(t) && multiset(r) == multiset(t)
    ensures r == t
    decreases |t|
  {
    hide Less, S.FileName, S.LessMeta;
    assert |r| == |multiset(r)| && |t| == |multiset(t)|;
    if t != [] {
      FirstAgrees(r, t);
      TailsAgree(r, t);
      SortUnique(r[1..], t[1..]);
      assert r == [r[0]] + r[1..] && t == [t[0]] + t[1..];
    }
  }

  lemma FirstAgrees(r: Metas, t: Metas)
    requires S.Ordered(r) && StrictStarts(t) && multiset(r) == multiset(t) && t != [] && r != []
    ensures r[0] == t[0]
  {
    hide Less, S.FileName;
    assert r[0] in multiset(r) && t[0] in multiset(t);
    assert r[0] in t && t[0] in r;
  }

  lemma TailsAgree(r: Metas, t: Metas)
    requires multiset(r) == multiset(t) && t != [] && r != [] && r[0] == t[0]
    ensures multiset(r[1..]) == multiset(t[1..])
  {
    assert r == [r[0]] + r[1..] && t == [t[0]] + t[1..];
    assert multiset(r[1..]) == multiset(r) - multiset{r[0]} && multiset(t[1..]) == multiset(t) - multiset{t[0]};
  }

  /** What the folder's index holds after the chunk list is written: the list sorted by start key. */
  method SortMetas(ms: Metas, ghost want: Metas) returns (r: Metas)
    requires StrictStarts(want) && multiset(ms) == multiset(want)
    ensures r == want
  {
    S.MetaOrder();
    r := S.Normalize(S.LessMeta, ms);
    SortUnique(r, want);
  }

  // ----- the folder

  /** No chunk would pass the rewrite trigger. */
  ghost predicate BelowTrigger(ms: Metas, files: Files, trigger: nat, kvs: seq<Pair>) {
    forall i :: 0 <= i < |ms| && ms[i].file in files ==>
      trigger == 0 || |files[ms[i].file]| + FramedSize(Bucket(ms, kvs, i)) <= trigger
  }

  /** `newChunkFileAllocator`: one past the largest ordinal. */
  method NextOrdinal(ms: Metas) returns (next: nat)
    ensures next <= 0x1_0000_0000 && forall i :: 0 <= i < |ms| ==> ms[i].file < next
    ensures next == 0 || exists i :: 0 <= i < |ms| && ms[i].file == next - 1
  {
    next := 0;
    for k := 0 to |ms|
      invariant next <= 0x1_0000_0000 && forall i :: 0 <= i < k ==> ms[i].file < next
      invariant next == 0 || exists i :: 0 <= i < k && ms[i].file == next - 1
    {
      if ms[k].file + 1 > next {
        next := ms[k].file + 1;
      }
    }
  }

  /** A chunk's items after an append to it. */
  ghost function Extended(its: seq<Item>, ps: seq<Pair>, block: u64): seq<Item> {
    if ps == [] then its else its + Batch(ps, block)
  }

  /** The first `n` chunks have got their buckets. */
  ghost predicate UpTo(was: seq<seq<Item>>, now: seq<seq<Item>>, buckets: seq<seq<Pair>>, block: u64, n: nat) {
    && |now| == |was| == |buckets|
    && forall j :: 0 <= j < |now| ==> now[j] == if j < n then Extended(was[j], buckets[j], block) else was[j]
  }

  lemma UpToNone(items: seq<seq<Item>>, buckets: seq<seq<Pair>>, block: u64)
    requires |items| == |buckets|
    ensures UpTo(items, items, buckets, block, 0)
  {
  }

  lemma UpToMore(was: seq<seq<Item>>, mid: seq<seq<Item>>, now: seq<seq<Item>>, buckets: seq<seq<Pair>>, block: u64, n: nat)
    requires UpTo(was, mid, buckets, block, n) && n < |mid| && now == mid[n := Extended(mid[n], buckets[n], block)]
    ensures UpTo(was, now, buckets, block, n + 1)
  {
    hide Extended;
  }

  lemma UpToAll(was: seq<seq<Item>>, now: seq<seq<Item>>, buckets: seq<seq<Pair>>, block: u64)
    requires UpTo(was, now, buckets, block, |buckets|)
    ensures |now| == |was| == |buckets| && forall j :: 0 <= j < |now| ==> now[j] == Extended(was[j], buckets[j], block)
  {
    hide Extended;
  }

  /** `now` is `was` behind new chunks cut from `ps`, each tagged with the block. */
  ghost predicate InFront(was: seq<seq<Item>>, now: seq<seq<Item>>, ps: seq<Pair>, block: u64, limit: nat) {
    && |now| >= |was| && now[|now| - |was|..] == was
    && var front := now[..|now| - |was|];
    && Concat(AllPairs(front)) == ps && Cut(AllPairs(front), limit)
    && forall i :: 0 <= i < |front| ==> LastTag(front[i]) == block
  }

  lemma NothingInFront(items: seq<seq<Item>>, block: u64, limit: nat)
    ensures InFront(items, items, [], block, limit)
  {
    assert AllPairs(items[..0]) == [];
    assert Concat([]) == [] by { ConcatNone(); }
  }

  lemma FrontIs(items: seq<seq<Item>>, chunks: seq<seq<Pair>>, tags: seq<u64>, ps: seq<Pair>, block: u64, limit: nat)
    requires |tags| == |chunks| && (forall i :: 0 <= i < |tags| ==> tags[i] == block) && AllOk(ps) && Concat(chunks) == ps && Cut(chunks, limit)
    ensures InFront(items, FreshItems(chunks, tags) + items, ps, block, limit)
  {
    hide PairsOf, Batch, Concat, Cut, AllOk;
    var front := FreshItems(chunks, tags);
    assert (front + items)[..|front|] == front && (front + items)[|front|..] == items;
    forall i | 0 <= i < |front| ensures PairsOf(front[i]) == chunks[i] && LastTag(front[i]) == block {
      ChunksOk(chunks, i);
      BatchOk(chunks[i], tags[i]);
      BatchTag(chunks[i], tags[i]);
    }
    assert AllPairs(front) == chunks;
  }

  class Folder {
    const chunkSize: nat
    const trigger: nat

    var metas: Metas
    var files: Files

    ghost var items: seq<seq<Item>>

    ghost predicate Valid()
      reads this
    {
      FolderOk(metas, items, files)
    }

    /** The abstract map: the last value written, empty for a deletion. */
    ghost function Value(key: Key): Option<seq<byte>>
      reads this
    {
      ValueIn(metas, items, key)
    }

    constructor (chunkSize: nat, trigger: nat)
      ensures Valid() && metas == [] && files == map[] && this.chunkSize == chunkSize && this.trigger == trigger
    {
      this.chunkSize, this.trigger := chunkSize, trigger;
      metas, files, items := [], map[], [];
    }

    /** A point read: the covering chunk, scanned from its tail. */
    method Get(key: Key) returns (r: Answer)
      requires Valid() && key != []
      ensures var v := Value(key);
              r == if v.None? then Absent else if v.value == [] then Tombstone else Found(v.value)
    {
      hide EncodeItems, ItemsOk, Placed, PairsOf, Last, S.LastLeq, Less;
      SortedStarts(metas);
      var m := S.SelectMeta(metas, key);
      if m.None? {
        return Absent;
      }
      ghost var c := S.LastLeq(metas, key);
      assert ChunkOk(metas, files, c, items[c]);
      r := TailLookup(files[m.value.file], key, items[c]);
    }

    /** `mutateSegmentChunk` below the trigger: append to the chunk's file; its start key stays. */
    method AppendChunk(i: nat, additions: seq<Pair>, block: u64) returns (meta: S.Meta)
      requires Valid() && i < |metas| && AllOk(additions) && Placed(metas, i, additions)
      modifies this`files, this`items
      ensures Valid() && meta == metas[i]
      ensures |old(items)| == |metas|
      ensures items == if additions == [] then old(items) else old(items)[i := old(items)[i] + Batch(additions, block)]
      ensures forall f :: f != metas[i].file ==> (f in files <==> f in old(files)) && (f in files ==> files[f] == old(files)[f])
    {
      hide EncodeItems, ItemsOk, PairsOf, S.LastLeq, FolderOk, AllOk, Batch;
      meta := metas[i];
      SameCount(metas, items, files);
      if additions == [] {
        return;
      }
      AppendOk(metas, items, files, i, additions, block);
      var payload := SerializeOk(additions, block);
      files := files[meta.file := files[meta.file] + payload];
      items := items[i := items[i] + Batch(additions, block)];
      var first := additions[0].key;
      CoveredBy(metas, items, files, i, first);
      NotBelow(meta.start, first);
      if meta.start == [] || Less(first, meta.start) {
        meta := meta.(start := first);
      }
    }

    /** The append half of an update: every bucket goes to its chunk. */
    method AppendBuckets(buckets: seq<seq<Pair>>, kvs: seq<Pair>, block: u64) returns (updated: Metas)
      requires Valid() && AllOk(kvs) && Strict(kvs) && |buckets| == |metas|
      requires forall i :: 0 <= i < |metas| ==> buckets[i] == Bucket(metas, kvs, i)
      modifies this`files, this`items
      ensures Valid() && updated == metas && |items| == |old(items)| == |metas|
      ensures forall i :: 0 <= i < |items| ==> items[i] == Extended(old(items)[i], buckets[i], block)
      ensures forall key :: Value(key) == if S.LastLeq(metas, key) >= 0 && Last(kvs, key).Some? then Last(kvs, key) else old(Value(key))
    {
      hide EncodeItems, ItemsOk, PairsOf, S.LastLeq, FolderOk, AllOk, Batch, Strict, Placed, Bucket, Last, ValueIn, UpTo;
      updated := [];
      SameCount(metas, items, files);
      UpToNone(items, buckets, block);
      for i := 0 to |metas|
        invariant Valid() && updated == metas[..i] && UpTo(old(items), items, buckets, block, i)
        invariant forall key :: Value(key) == if 0 <= S.LastLeq(metas, key) < i && Last(kvs, key).Some? then Last(kvs, key) else old(Value(key))
      {
        label Before:
        ghost var was := items;
        var meta := AppendBucket(i, buckets[i], kvs, block);
        UpToMore(old(items), was, items, buckets, block, i);
        updated := updated + [meta];
        assert updated == metas[..i + 1];
        forall key ensures Value(key) == if 0 <= S.LastLeq(metas, key) < i + 1 && Last(kvs, key).Some? then Last(kvs, key) else old(Value(key)) {
          assert old@Before(Value(key)) == if 0 <= S.LastLeq(metas, key) < i && Last(kvs, key).Some? then Last(kvs, key) else old(Value(key));
        }
      }
      assert metas[..|metas|] == metas;
      UpToAll(old(items), items, buckets, block);
    }

    /** One bucket goes to its chunk. */
    method AppendBucket(i: nat, bucket: seq<Pair>, ghost kvs: seq<Pair>, block: u64) returns (meta: S.Meta)
      requires Valid() && AllOk(kvs) && Strict(kvs) && i < |metas| && bucket == Bucket(metas, kvs, i)
      modifies this`files, this`items
      ensures Valid() && meta == metas[i] && |old(items)| == |metas|
      ensures items == old(items)[i := Extended(old(items)[i], bucket, block)]
      ensures forall key :: Value(key) == if S.LastLeq(metas, key) == i && Last(kvs, key).Some? then Last(kvs, key) else old(Value(key))
    {
      hide EncodeItems, ItemsOk, PairsOf, S.LastLeq, FolderOk, AllOk, Batch, Strict, Placed, Bucket, Last, ValueIn;
      BucketOk(metas, kvs, i);
      meta := AppendChunk(i, bucket, block);
      assert bucket == [] ==> items == old(items)[i := old(items)[i]];
      forall key ensures Value(key) == if S.LastLeq(metas, key) == i && Last(kvs, key).Some? then Last(kvs, key) else old(Value(key)) {
        BucketLast(metas, kvs, i, key);
        NoLast(key);
        if bucket != [] {
          AppendValue(metas, old(items), i, bucket, block, key);
        }
      }
    }

    /** `updateAccountNamedSegmentedStorage` below the rewrite trigger: map override. */
    method Update(kvs: seq<Pair>, block: u64) returns (ok: bool)
      requires Valid() && AllOk(kvs) && Strict(kvs) && BelowTrigger(metas, files, trigger, kvs)
      requires forall i :: 0 <= i < |metas| ==> metas[i].file as int + 1 + |kvs| <= 0x1_0000_0000
      requires |kvs| <= 0x1_0000_0000
      modifies this
      ensures Valid() && (ok <==> old(metas) != [] || kvs != [])
      ensures forall key :: Value(key) == if Last(kvs, key).Some? then Last(kvs, key) else old(Value(key))
      ensures old(metas) != [] ==> exists appended ::
                && |appended| == |old(items)| == |old(metas)|
                && (forall i :: 0 <= i < |appended| ==> appended[i] == Extended(old(items)[i], Bucket(old(metas), kvs, i), block))
                && InFront(appended, items, Bucket(old(metas), kvs, -1), block, chunkSize)
    {
      hide EncodeItems, ItemsOk, PairsOf, S.LastLeq, AllOk, Batch, Strict, Placed, Bucket, Last, ValueIn, ChunkOk, BelowTrigger, Less;
      if metas == [] {
        forall key ensures Value(key) == None {
          NoValue(metas, items, key);
        }
        ok := Create(kvs, block);
        return;
      }
      OkKeys(kvs);
      var buckets, unmatched := Partition(metas, kvs);
      var updated := AppendBuckets(buckets, kvs, block);
      BucketOk(metas, kvs, -1);
      label Appended:
      forall key ensures Last(unmatched, key) == if S.LastLeq(metas, key) == -1 then Last(kvs, key) else None {
        BucketLast(metas, kvs, -1, key);
      }
      BucketShorter(metas, kvs, -1);
      ok := true;
      ghost var appended := items;
      NothingInFront(items, block, chunkSize);
      if unmatched != [] {
        AddChunks(updated, unmatched, block);
      }
      assert InFront(appended, items, unmatched, block, chunkSize);
      forall key ensures Value(key) == if Last(kvs, key).Some? then Last(kvs, key) else old(Value(key)) {
        NoLast(key);
        assert old@Appended(Value(key)) == if S.LastLeq(old(metas), key) >= 0 && Last(kvs, key).Some? then Last(kvs, key) else old(Value(key));
        NoValue(old(metas), old(items), key);
      }
    }

    /** Chunks for keys below every start key, written under fresh names and indexed in front. */
    method AddChunks(updated: Metas, unmatched: seq<Pair>, block: u64)
      requires Valid() && updated == metas && unmatched != [] && AllOk(unmatched) && Strict(unmatched) && Placed(metas, -1, unmatched)
      requires forall i :: 0 <= i < |metas| ==> metas[i].file as int + 1 + |unmatched| <= 0x1_0000_0000
      requires |unmatched| <= 0x1_0000_0000 && metas != []
      modifies this
      ensures Valid() && InFront(old(items), items, unmatched, block, chunkSize)
      ensures forall key :: Value(key) == if Last(unmatched, key).Some? then Last(unmatched, key) else old(Value(key))
    {
      hide EncodeItems, ItemsOk, PairsOf, S.LastLeq, AllOk, Batch, Strict, Placed, Last, ValueIn, Less, WrittenAt, ChunkOk, Concat;
      var sorted := SortPairs(unmatched);
      var chunks := SplitBySize(sorted, chunkSize);
      FewChunks(chunks);
      var next := NextOrdinal(metas);
      var tags := seq(|chunks|, _ => block);
      var after := WriteChunks(chunks, tags, next, files);
      AddFront(metas, items, files, chunks, tags, next, after);
      ghost var front := FreshMetas(chunks, next);
      forall key ensures ValueIn(front + metas, FreshItems(chunks, tags) + items, key) == if Last(unmatched, key).Some? then Last(unmatched, key) else old(Value(key)) {
        FrontValue(metas, items, chunks, tags, next, key);
      }
      var added := MetasOf(chunks, next);
      assert multiset(updated + added) == multiset(front + metas);
      metas := SortMetas(updated + added, front + metas);
      files := after;
      FrontIs(items, chunks, tags, unmatched, block, chunkSize);
      items := FreshItems(chunks, tags) + items;
    }

    /** `GCAllStorageChunkFiles` on one folder: all records in chunk order, stably sorted, the last of
        each key kept, split by size and rewritten. No key's answer changes. */
    method SweepGc()
      requires Valid() && |Concat(AllPairs(items))| <= 0x1_0000_0000
      modifies this
      ensures Valid()
      ensures forall key :: Value(key) == old(Value(key))
      ensures forall i :: 0 <= i < |metas| ==> Strict(PairsOf(items[i]))
      ensures old(metas) != [] ==> Cut(AllPairs(items), chunkSize) && Strict(Concat(AllPairs(items)))
      ensures old(metas) != [] ==> forall f: u32 :: f in files <==> f < |metas|
      ensures old(metas) != [] ==>
                forall i :: 0 <= i < |items| ==> LargestTag(old(metas), TagsOf(old(items)), PairsOf(items[i]), LastTag(items[i]))
    {
      hide EncodeItems, ItemsOk, PairsOf, S.LastLeq, AllOk, Batch, Strict, Placed, Last, ValueIn, Less, ChunkOk, Concat, FolderOk;
      if metas == [] {
        SameCount(metas, items, files);
        return;
      }
      var all, tags := Gather();
      forall key ensures Last(all, key) == Value(key) {
        GatheredLast(metas, items, files, key);
      }
      var kept := Dedup(all);
      GatheredOk(metas, items, files);
      KeptOk(all, kept);
      var chunks := SplitBySize(kept, chunkSize);
      FewChunks(chunks);
      SameCount(metas, items, files);
      assert tags == TagsOf(items);
      var newTags := ChunkTags(chunks, metas, tags);
      Replace(chunks, newTags);
      forall i | 0 <= i < |chunks| ensures Strict(chunks[i]) {
        ChunkStrict(chunks, i);
      }
    }

    /** Every chunk decoded, in index order, with its newest commit tag. */
    method Gather() returns (all: seq<Pair>, tags: seq<u64>)
      requires Valid()
      ensures all == Concat(AllPairs(items))
      ensures |tags| == |metas| == |items| && forall i :: 0 <= i < |tags| ==> tags[i] == LastTag(items[i])
    {
      hide EncodeItems, ItemsOk, PairsOf, S.LastLeq, Placed, LastTag, Concat;
      all, tags := [], [];
      ghost var pss := AllPairs(items);
      ConcatNone();
      for i := 0 to |metas|
        invariant all == Concat(pss[..i])
        invariant |tags| == i && forall j :: 0 <= j < i ==> tags[j] == LastTag(items[j])
      {
        assert ChunkOk(metas, files, i, items[i]);
        assert pss[..i + 1] == pss[..i] + [pss[i]];
        ConcatSnoc(pss[..i], pss[i]);
        var data := files[metas[i].file];
        var ps := DecodeChunk(data, items[i]);
        var tag := FindLastTag(data, items[i]);
        all := all + (if ps.Some? then ps.value else []);
        tags := tags + [tag];
      }
      assert pss[..|metas|] == pss;
    }

    /** The first write to a folder. */
    method Create(kvs: seq<Pair>, block: u64) returns (ok: bool)
      requires Valid() && metas == [] && AllOk(kvs) && Strict(kvs) && |kvs| <= 0x1_0000_0000
      modifies this
      ensures Valid() && (ok <==> kvs != [])
      ensures forall key :: Value(key) == Last(kvs, key)
      ensures Cut(AllPairs(items), chunkSize) && Concat(AllPairs(items)) == kvs
      ensures forall i :: 0 <= i < |items| ==> LastTag(items[i]) == block
      ensures ok ==> forall f: u32 :: f in files <==> f < |metas|
    {
      hide EncodeItems, ItemsOk, PairsOf, S.LastLeq, AllOk, Batch, Strict, Placed, Last, ValueIn, Less, WrittenAt, ChunkOk, Concat;
      forall key ensures Value(key) == None {
        NoValue(metas, items, key);
      }
      if kvs == [] {
        forall key ensures Last(kvs, key) == None {
          NoLast(key);
        }
        SameCount(metas, items, files);
        ConcatNone();
        return false;
      }
      var chunks := SplitBySize(kvs, chunkSize);
      FewChunks(chunks);
      var tags := seq(|chunks|, _ => block);
      Replace(chunks, tags);
      assert forall i :: 0 <= i < |items| ==> LastTag(items[i]) == TagsOf(items)[i];
      ok := true;
    }

    /** The folder is rewritten to hold exactly the given chunks, and other files go. */
    method Replace(chunks: seq<seq<Pair>>, tags: seq<u64>)
      requires GoodChunks(chunks) && |tags| == |chunks| <= 0x1_0000_0000
      modifies this
      ensures Valid() && |metas| == |items| == |chunks|
      ensures forall key :: Value(key) == Last(Concat(chunks), key)
      ensures forall i :: 0 <= i < |chunks| ==> PairsOf(items[i]) == chunks[i]
      ensures AllPairs(items) == chunks && TagsOf(items) == tags
      ensures forall f: u32 :: f in files <==> f < |metas|
    {
      hide EncodeItems, ItemsOk, PairsOf, S.LastLeq, AllOk, Batch, Strict, Placed, Last, ValueIn, Less, WrittenAt, ChunkOk, Concat;
      var after := WriteChunks(chunks, tags, 0, files);
      var added := MetasOf(chunks, 0);
      ghost var front := FreshMetas(chunks, 0);
      Nowhere(Concat(chunks)) by { GoodKeys(chunks); }
      EmptyFolder(files);
      AddFront([], [], files, chunks, tags, 0, after);
      assert front + [] == front && FreshItems(chunks, tags) + [] == FreshItems(chunks, tags);
      forall key ensures ValueIn(front, FreshItems(chunks, tags), key) == Last(Concat(chunks), key) {
        FrontValue([], [], chunks, tags, 0, key);
        NoValue([], [], key);
      }
      metas := SortMetas(added, front);
      files := map f | f in after && f < |chunks| :: after[f];
      items := FreshItems(chunks, tags);
      KeptFiles(front, items, after, files);
      forall i | 0 <= i < |chunks| ensures PairsOf(items[i]) == chunks[i] {
        ChunksOk(chunks, i);
        BatchOk(chunks[i], tags[i]);
      }
      forall i | 0 <= i < |chunks| ensures LastTag(items[i]) == tags[i] {
        BatchTag(chunks[i], tags[i]);
      }
    }
  }

  ghost function AllPairs(items: seq<seq<Item>>): seq<seq<Pair>> {
    seq(|items|, i requires 0 <= i < |items| => PairsOf(items[i]))
  }

  lemma GatheredLast(ms: Metas, items: seq<seq<Item>>, files: Files, key: Key)
    requires FolderOk(ms, items, files)
    ensures Last(Concat(AllPairs(items)), key) == ValueIn(ms, items, key)
  {
    hide EncodeItems, ItemsOk, PairsOf, S.LastLeq, Placed, Last, Concat;
    forall i | 0 <= i < |items| ensures Placed(ms, i, PairsOf(items[i])) {
      assert ChunkOk(ms, files, i, items[i]);
    }
    ConcatLast(ms, AllPairs(items), key);
  }

  lemma GatheredOk(ms: Metas, items: seq<seq<Item>>, files: Files)
    requires FolderOk(ms, items, files)
    ensures AllOk(Concat(AllPairs(items)))
  {
    hide EncodeItems, PairsOf, S.LastLeq, Placed;
    forall i | 0 <= i < |items| ensures AllOk(PairsOf(items[i])) {
      assert ChunkOk(ms, files, i, items[i]);
      PairsAllOk(items[i]);
    }
    ConcatAllOk(AllPairs(items));
  }

  lemma {:induction false} PairsAllOk(its: seq<Item>)
    requires ItemsOk(its)
    ensures AllOk(PairsOf(its))
  {
    hide PairOk;
    if its != [] {
      var n := |its| - 1;
      assert ItemOk(its[n]);
      PairsAllOk(its[..n]);
    }
  }

  lemma {:induction false} ConcatAllOk(pss: seq<seq<Pair>>)
    requires forall i :: 0 <= i < |pss| ==> AllOk(pss[i])
    ensures AllOk(Concat(pss))
  {
    hide PairOk;
    if pss != [] {
      ConcatAllOk(pss[..|pss| - 1]);
    }
  }

  /** Stable sort, then the last of each group of equal keys. */
  method Dedup(all: seq<Pair>) returns (r: seq<Pair>)
    ensures Strict(r) && |r| <= |all| && (forall key :: Last(r, key) == Last(all, key))
    ensures forall p :: p in r ==> p in all
  {
    hide Less, Last, KeepLast, With, Sorted;
    var a := new Pair[|all|](i requires 0 <= i < |all| => all[i]);
    assert a[..a.Length] == all;
    if a.Length <= 1 {
      ShortStrict(all);
      return all;
    }
    SliceStable(a, a.Length);
    ghost var sorted := a[..];
    assert a[..a.Length] == sorted;
    StableIsPermutation(sorted, all);
    var n := CompactSorted(a);
    r := a[..n];
    KeepLastSorted(sorted);
    KeepLastDistinct(sorted);
    SortedDistinct(KeepLast(sorted));
    KeepLastFrom(sorted);
    forall key ensures Last(r, key) == Last(all, key) {
      KeepLastSame(sorted, key);
      LastIsLastWith(sorted, key);
      LastIsLastWith(all, key);
    }
    forall p | p in r ensures p in all {
      assert p in multiset(sorted);
      assert p in multiset(all);
    }
  }

  lemma ShortStrict(s: seq<Pair>)
    requires |s| <= 1
    ensures Strict(s)
  {
  }

  lemma {:induction false} KeepLastFrom(s: seq<Pair>)
    ensures |KeepLast(s)| <= |s| && forall p :: p in KeepLast(s) ==> p in s
  {
    hide Last;
    if s != [] {
      KeepLastFrom(s[1..]);
      assert s == [s[0]] + s[1..];
    }
  }

  lemma KeptOk(all: seq<Pair>, kept: seq<Pair>)
    requires AllOk(all) && forall p :: p in kept ==> p in all
    ensures AllOk(kept)
  {
    hide PairOk;
    forall i | 0 <= i < |kept| ensures PairOk(kept[i]) {
      assert kept[i] in all;
    }
  }

  /** The commit tag of each new chunk: the largest tag among the chunks its records came from. */
  method ChunkTags(chunks: seq<seq<Pair>>, ms: Metas, tags: seq<u64>) returns (r: seq<u64>)
    requires |tags| == |ms| && StrictStarts(ms)
    ensures |r| == |chunks|
    ensures forall i :: 0 <= i < |chunks| ==> LargestTag(ms, tags, chunks[i], r[i])
  {
    hide Less, S.LastLeq, SourceTag, LargestTag;
    r := [];
    for i := 0 to |chunks|
      invariant |r| == i && forall x :: 0 <= x < i ==> LargestTag(ms, tags, chunks[x], r[x])
    {
      var tag := ChunkTag(chunks[i], ms, tags);
      r := r + [tag];
    }
  }

  method ChunkTag(chunk: seq<Pair>, ms: Metas, tags: seq<u64>) returns (tag: u64)
    requires |tags| == |ms| && StrictStarts(ms)
    ensures LargestTag(ms, tags, chunk, tag)
  {
    hide Less, S.LastLeq, SourceTag;
    tag := 0;
    for k := 0 to |chunk|
      invariant forall j :: 0 <= j < k ==> SourceTag(ms, tags, chunk[j]) <= tag
      invariant tag == 0 || exists j :: 0 <= j < k && SourceTag(ms, tags, chunk[j]) == tag
    {
      var t := FindTag(ms, tags, chunk[k]);
      if t > tag {
        tag := t;
      }
    }
  }

  /** The largest tag among the chunks that the records of a chunk came from. */
  ghost predicate LargestTag(ms: Metas, tags: seq<u64>, chunk: seq<Pair>, tag: u64) {
    && (forall j :: 0 <= j < |chunk| ==> SourceTag(ms, tags, chunk[j]) <= tag)
    && (tag == 0 || exists j :: 0 <= j < |chunk| && SourceTag(ms, tags, chunk[j]) == tag)
  }

  ghost function TagsOf(items: seq<seq<Item>>): seq<u64> {
    seq(|items|, i requires 0 <= i < |items| => LastTag(items[i]))
  }

  lemma BatchTag(ps: seq<Pair>, block: u64)
    ensures LastTag(Batch(ps, block)) == block
  {
    if block == 0 {
      assert Batch(ps, 0) == seq(|ps|, i requires 0 <= i < |ps| => Rec(ps[i]));
      RecordsHaveNoTag(ps);
    }
  }

  lemma {:induction false} RecordsHaveNoTag(ps: seq<Pair>)
    ensures LastTag(seq(|ps|, i requires 0 <= i < |ps| => Rec(ps[i]))) == 0
  {
    var its := seq(|ps|, i requires 0 <= i < |ps| => Rec(ps[i]));
    if ps != [] {
      var n := |ps| - 1;
      RecordsHaveNoTag(ps[..n]);
      assert its[..n] == seq(n, i requires 0 <= i < n => Rec(ps[..n][i]));
    }
  }

  /** The newest tag of the chunk that a record came from. */
  ghost function SourceTag(ms: Metas, tags: seq<u64>, p: Pair): u64 {
    var c := S.LastLeq(ms, p.key);
    if 0 <= c < |tags| then tags[c] else 0
  }

  method FindTag(ms: Metas, tags: seq<u64>, p: Pair) returns (t: u64)
    requires |tags| == |ms| && StrictStarts(ms)
    ensures t == SourceTag(ms, tags, p)
  {
    hide Less, S.LastLeq;
    SortedStarts(ms);
    var c := S.UpperBound(ms, p.key);
    t := if c == 0 then 0 else tags[c - 1];
  }

  lemma OkKeys(kvs: seq<Pair>)
    requires AllOk(kvs)
    ensures forall i :: 0 <= i < |kvs| ==> kvs[i].key != []
  {
  }

  lemma GoodKeys(chunks: seq<seq<Pair>>)
    requires GoodChunks(chunks)
    ensures forall i :: 0 <= i < |Concat(chunks)| ==> Concat(chunks)[i].key != []
  {
    hide Concat, Strict;
  }

  lemma Nowhere(ps: seq<Pair>)
    requires forall i :: 0 <= i < |ps| ==> ps[i].key != []
    ensures Placed([], -1, ps)
  {
  }

  lemma EmptyFolder(files: Files)
    ensures FolderOk([], [], files)
  {
  }

  lemma NoValue(ms: Metas, items: seq<seq<Item>>, key: Key)
    ensures S.LastLeq(ms, key) == -1 ==> ValueIn(ms, items, key) == None
    ensures ms == [] ==> S.LastLeq(ms, key) == -1
  {
  }

  lemma {:induction false} BucketShorter(ms: Metas, kvs: seq<Pair>, i: int)
    ensures |Bucket(ms, kvs, i)| <= |kvs|
  {
    if kvs != [] {
      BucketShorter(ms, kvs[..|kvs| - 1], i);
    }
  }

  lemma {:induction false} FewChunks(chunks: seq<seq<Pair>>)
    requires forall i :: 0 <= i < |chunks| ==> chunks[i] != []
    ensures |chunks| <= |Concat(chunks)|
  {
    if chunks != [] {
      FewChunks(chunks[..|chunks| - 1]);
    }
  }

  lemma KeptFiles(ms: Metas, items: seq<seq<Item>>, files: Files, kept: Files)
    requires FolderOk(ms, items, files) && forall i :: 0 <= i < |ms| && ms[i].file in files ==> ms[i].file in kept && kept[ms[i].file] == files[ms[i].file]
    ensures FolderOk(ms, items, kept)
  {
    hide StrictStarts, Named, Placed, PairsOf, EncodeItems, ItemsOk;
    forall i | 0 <= i < |ms| ensures ChunkOk(ms, kept, i, items[i]) {
      assert ChunkOk(ms, files, i, items[i]);
    }
  }

  /** The metadata list that the chunk writer returns. */
  method MetasOf(chunks: seq<seq<Pair>>, first: u32) returns (ms: Metas)
    requires (forall i :: 0 <= i < |chunks| ==> chunks[i] != []) && first as int + |chunks| <= 0x1_0000_0000
    ensures ms == FreshMetas(chunks, first)
  {
    ms := [];
    for i := 0 to |chunks|
      invariant |ms| == i && forall j :: 0 <= j < i ==> ms[j] == S.Meta(first as int + j, chunks[j][0].key)
    {
      ms := ms + [S.Meta(first as int + i, chunks[i][0].key)];
    }
  }

  /** `sortKVPairs` on a slice; strictly sorted pairs stay as they are. */
  method SortPairs(ps: seq<Pair>) returns (r: seq<Pair>)
    requires Strict(ps)
    ensures r == ps
  {
    hide Less;
    var a := new Pair[|ps|](i requires 0 <= i < |ps| => ps[i]);
    assert a[..a.Length] == ps;
    SortKv(a, a.Length);
    r := a[..];
    assert a[..a.Length] == r;
    StrictUnique(r, ps);
  }

  /** A strictly sorted sequence is its own only sorted permutation. */
  lemma {:induction false} StrictUnique(r: seq<Pair>, ps: seq<Pair>)
    requires Sorted(r) && StablePerm(r, ps) && Strict(ps)
    ensures r == ps
  {
    hide Less, With;
    StableIsPermutation(r, ps);
    SortedUnique(r, ps);
  }

  lemma {:induction false} SortedUnique(r: seq<Pair>, t: seq<Pair>)
    requires Sorted(r) && Strict(t) && multiset(r) == multiset(t)
    ensures r == t
    decreases |t|
  {
    hide Less;
    assert |r| == |multiset(r)| && |t| == |multiset(t)|;
    if t != [] {
      FirstPair(r, t);
      PairTails(r, t);
      SortedUnique(r[1..], t[1..]);
      assert r == [r[0]] + r[1..] && t == [t[0]] + t[1..];
    }
  }

  lemma FirstPair(r: seq<Pair>, t: seq<Pair>)
    requires Sorted(r) && Strict(t) && multiset(r) == multiset(t) && t != [] && r != []
    ensures r[0] == t[0]
  {
    hide Less;
    assert r[0] in multiset(r) && t[0] in multiset(t);
    assert r[0] in t && t[0] in r;
    var j :| 0 <= j < |t| && t[j] == r[0];
    var k :| 0 <= k < |r| && r[k] == t[0];
    LessTrichotomy(r[0].key, t[0].key);
  }

  lemma PairTails(r: seq<Pair>, t: seq<Pair>)
    requires multiset(r) == multiset(t) && t != [] && r != [] && r[0] == t[0]
    ensures multiset(r[1..]) == multiset(t[1..])
  {
    assert r == [r[0]] + r[1..] && t == [t[0]] + t[1..];
    assert multiset(r[1..]) == multiset(r) - multiset{r[0]} && multiset(t[1..]) == multiset(t) - multiset{t[0]};
  }

  lemma SameCount(ms: Metas, items: seq<seq<Item>>, files: Files)
    requires FolderOk(ms, items, files)
    ensures |items| == |ms| && StrictStarts(ms)
  {
  }

  lemma ChunkStrict(chunks: seq<seq<Pair>>, i: nat)
    requires Strict(Concat(chunks)) && i < |chunks|
    ensures Strict(chunks[i])
  {
    hide Less, Concat;
    forall x, y | 0 <= x < y < |chunks[i]| ensures Less(chunks[i][x].key, chunks[i][y].key) {
      ChunksApart(chunks, i, x, i, y);
    }
  }

  lemma CoveredBy(ms: Metas, items: seq<seq<Item>>, files: Files, i: nat, key: Key)
    requires FolderOk(ms, items, files) && i < |ms| && S.LastLeq(ms, key) == i
    ensures Leq(ms[i].start, key) && ms[i].start != []
  {
    hide S.LastLeq, ChunkOk, Leq;
  }

  lemma NotBelow(start: Key, key: Key)
    requires Leq(start, key)
    ensures !Less(key, start)
  {
    LessTrichotomy(start, key);
  }
}
