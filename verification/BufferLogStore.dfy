/** One account's buffer log with its disk index and its in-memory index, as the append, rebuild
    and lookup paths maintain them. Files are byte sequences. */
module BufferLogStore {
  import opened Bytes
  import opened ForwardLog
  import opened BufferIndex
  import opened BufferIndexWrites

  function Recs(kvs: seq<Kv>): (items: seq<Item>)
    ensures |items| == |kvs| && forall i :: 0 <= i < |kvs| ==> items[i] == Rec(kvs[i])
  {
    seq(|kvs|, i requires 0 <= i < |kvs| => Rec(kvs[i]))
  }

  /** What one append adds to the log: the records, and a tag unless the block id is 0. */
  function AppendItems(kvs: seq<Kv>, blockId: u64): (items: seq<Item>)
    requires AllFramable(kvs)
    ensures ItemsOk(items)
  {
    Recs(kvs) + if blockId == 0 then [] else [Tag(blockId)]
  }

  lemma Powers()
    ensures IsPowerOfTwo(MIN_BUCKETS) && IsPowerOfTwo(MAX_BUCKETS)
  {
    assert IsPowerOfTwo(16) && IsPowerOfTwo(256) by { assert IsPowerOfTwo(4) && IsPowerOfTwo(8) && IsPowerOfTwo(32) && IsPowerOfTwo(64) && IsPowerOfTwo(128); }
    assert IsPowerOfTwo(512);
    assert IsPowerOfTwo(0x800) && IsPowerOfTwo(0x1000) && IsPowerOfTwo(0x2000) && IsPowerOfTwo(0x4000);
    assert IsPowerOfTwo(0x8000) && IsPowerOfTwo(0x1_0000) && IsPowerOfTwo(0x2_0000) && IsPowerOfTwo(0x4_0000);
    assert IsPowerOfTwo(0x8_0000) && IsPowerOfTwo(0x10_0000) && IsPowerOfTwo(0x20_0000);
  }

  /** `bufferLogDiskIndexBucketCountForRecords`: the smallest power of two in range that keeps chains
      at the target length, or the largest. */
  method BucketCountForRecords(count: nat) returns (n: int)
    ensures MIN_BUCKETS <= n <= MAX_BUCKETS && IsPowerOfTwo(n)
    ensures count <= n * TARGET_CHAIN || n == MAX_BUCKETS
    ensures n == 1024 || n / 2 * 16 < count
  {
    Powers();
    n := MIN_BUCKETS;
    if count > 0 {
      var desired := (count + TARGET_CHAIN - 1) / TARGET_CHAIN;
      if desired > n {
        n := 1;
        while n < desired
          invariant 1 <= n && IsPowerOfTwo(n) && (n == 1 || n / 2 < desired)
          decreases desired - n
        {
          n := n * 2;
        }
      }
    }
    if n < MIN_BUCKETS {
      n := MIN_BUCKETS;
    }
    if n > MAX_BUCKETS {
      n := MAX_BUCKETS;
    }
  }

  ghost predicate HeadsArray(h: Hash, heads: seq<u64>, es: seq<Entry>) {
    |heads| > 0 && forall b :: 0 <= b < |heads| ==> heads[b] == Latest(h, es, |es|, b, |heads|)
  }

  /** Adding one entry moves exactly its own bucket's head. */
  lemma HeadsArraySnoc(h: Hash, heads: seq<u64>, es: seq<Entry>, e: Entry)
    requires HeadsArray(h, heads, es) && |es| + 1 < MAX_FILE_SIZE
    ensures HeadsArray(h, heads[Bucket(h, e.key, |heads|) := |es| + 1], es + [e])
    ensures heads[Bucket(h, e.key, |heads|)] == Latest(h, es, |es|, Bucket(h, e.key, |heads|), |heads|)
  {
    var n := |heads|;
    var es' := es + [e];
    forall b | 0 <= b < n ensures heads[Bucket(h, e.key, n) := |es| + 1][b] == Latest(h, es', |es'|, b, n) {
      LatestPrefix(h, es, [e], |es|, b, n);
    }
  }

  /** A record payload grows by one record. */
  lemma PayloadSnoc(h: Hash, payload: seq<byte>, es: seq<Entry>, es': seq<Entry>, e: Entry, n: nat, rec: seq<byte>)
    requires n > 0 && PayloadHolds(h, payload, es, es', n) && |es'| + 1 < MAX_FILE_SIZE
    requires |rec| == RECORD_SIZE
    requires DecodeRecord(rec) == IndexRecord(h(e.key), e.off, Latest(h, es', |es'|, Bucket(h, e.key, n), n))
    ensures PayloadHolds(h, payload + rec, es, es' + [e], n)
  {
    hide DecodeRecord, Latest;
    var all, p := es' + [e], payload + rec;
    forall i | 0 <= i < |all| - |es| ensures DecodeRecord(RecordSlice(p, i)) == WantRecord(h, all, |es| + i, n) {
      var k := |es| + i;
      LatestPrefix(h, es', [e], k, Bucket(h, all[k].key, n), n);
      if k < |es'| {
        assert RecordSlice(p, i) == RecordSlice(payload, i);
        assert DecodeRecord(RecordSlice(payload, i)) == WantRecord(h, es', |es| + i, n);
      } else {
        assert RecordSlice(p, i) == rec;
      }
    }
  }

  /** `PayloadFor`, allowing no new entry yet. */
  ghost predicate PayloadHolds(h: Hash, payload: seq<byte>, es: seq<Entry>, es': seq<Entry>, n: nat)
    requires n > 0
  {
    && es <= es' && |es'| < MAX_FILE_SIZE
    && |payload| == (|es'| - |es|) * RECORD_SIZE
    && forall i :: 0 <= i < |es'| - |es| ==> DecodeRecord(RecordSlice(payload, i)) == WantRecord(h, es', |es| + i, n)
  }

  /** One record of `buildBufferLogDiskIndexPayload`: chain it in front of its bucket. */
  method ChainRecord(ghost h: Hash, keyHash: u64, recordStart: u64, heads: array<u64>, recordId: u64, ghost es': seq<Entry>, ghost e: Entry)
    returns (bucket: nat, rec: seq<byte>)
    requires HeadsArray(h, heads[..], es') && keyHash == h(e.key) && e.off == recordStart < MAX_FILE_SIZE
    requires recordId == |es'| + 1 < MAX_FILE_SIZE
    modifies heads
    ensures bucket < heads.Length && heads[..] == old(heads[..])[bucket := recordId]
    ensures HeadsArray(h, heads[..], es' + [e])
    ensures |rec| == RECORD_SIZE
    ensures DecodeRecord(rec) == IndexRecord(keyHash, recordStart, Latest(h, es', |es'|, Bucket(h, e.key, heads.Length), heads.Length))
  {
    hide Latest, DecodeRecord, HeadsArray;
    HeadsArraySnoc(h, heads[..], es', e);
    bucket := keyHash as int % heads.Length;
    rec := EncodeRecord(keyHash, recordStart, heads[bucket]);
    heads[bucket] := recordId;
  }

  /** The head table was extended from `heads0` (for `es`) to `heads` (for `es'`), giving `payload`. */
  ghost predicate Built(h: Hash, heads0: seq<u64>, heads: seq<u64>, payload: seq<byte>, appended: nat, touched: seq<nat>,
                        es: seq<Entry>, es': seq<Entry>)
  {
    && |heads0| == |heads|
    && HeadsArray(h, heads, es')
    && PayloadHolds(h, payload, es, es', |heads|)
    && appended == |es'| - |es|
    && (forall b :: 0 <= b < |heads| && heads[b] != heads0[b] ==> b in touched)
    && (forall i :: 0 <= i < |touched| ==> touched[i] < |heads|)
  }

  lemma BuiltStep(h: Hash, heads0: seq<u64>, heads: seq<u64>, payload: seq<byte>, appended: nat, touched: seq<nat>,
                  es: seq<Entry>, es': seq<Entry>, e: Entry, bucket: nat, id: u64, rec: seq<byte>)
    requires Built(h, heads0, heads, payload, appended, touched, es, es') && |es'| + 1 < MAX_FILE_SIZE
    requires bucket < |heads| && HeadsArray(h, heads[bucket := id], es' + [e])
    requires |rec| == RECORD_SIZE
    requires DecodeRecord(rec) == IndexRecord(h(e.key), e.off, Latest(h, es', |es'|, Bucket(h, e.key, |heads|), |heads|))
    ensures Built(h, heads0, heads[bucket := id], payload + rec, appended + 1,
                  if bucket in touched then touched else touched + [bucket], es, es' + [e])
  {
    hide DecodeRecord, Latest, HeadsArray, PayloadHolds;
    PayloadSnoc(h, payload, es, es', e, |heads|, rec);
    var touched' := if bucket in touched then touched else touched + [bucket];
    assert bucket in touched' by { if bucket !in touched { assert touched'[|touched|] == bucket; } }
    assert forall b :: b in touched ==> b in touched';
  }

  /** One turn of `buildBufferLogDiskIndexPayload` for a record with a key. */
  method BuildOne(ghost h: Hash, keyHash: u64, recordStart: u64, heads: array<u64>, recordCount: nat,
                  payload: seq<byte>, appended: nat, touched: seq<nat>,
                  ghost heads0: seq<u64>, ghost es: seq<Entry>, ghost es': seq<Entry>, ghost e: Entry)
    returns (payload': seq<byte>, touched': seq<nat>)
    requires Built(h, heads0, heads[..], payload, appended, touched, es, es')
    requires keyHash == h(e.key) && e.off == recordStart < MAX_FILE_SIZE
    requires recordCount == |es| && |es'| + 1 < MAX_FILE_SIZE
    modifies heads
    ensures Built(h, heads0, heads[..], payload', appended + 1, touched', es, es' + [e])
  {
    hide Latest, DecodeRecord, HeadsArray, PayloadHolds;
    ghost var hs := heads[..];
    var bucket, rec := ChainRecord(h, keyHash, recordStart, heads, recordCount + appended + 1, es', e);
    BuiltStep(h, heads0, hs, payload, appended, touched, es, es', e, bucket, recordCount + appended + 1, rec);
    payload' := payload + rec;
    touched' := touched;
    if bucket !in touched {
      touched' := touched + [bucket];
    }
  }

  /** `buildBufferLogDiskIndexPayload`: extends the head table in place and returns the new records
      and the buckets whose heads moved. */
  method BuildPayload(h: Hash, appendOffset: nat, kvs: seq<Kv>, heads: array<u64>, recordCount: nat, ghost es: seq<Entry>)
    returns (payload: seq<byte>, appended: nat, touched: seq<nat>)
    requires AllFramable(kvs) && |es| == recordCount
    requires HeadsArray(h, heads[..], es)
    requires appendOffset + |Encode(Recs(kvs))| < MAX_FILE_SIZE && |es| + |kvs| < MAX_FILE_SIZE
    modifies heads
    ensures Built(h, old(heads[..]), heads[..], payload, appended, touched, es, es + Entries(Recs(kvs), appendOffset))
  {
    hide Encode, Entries, Recs, Built, HeadsArray, AllFramable, Listed;
    ghost var heads0 := heads[..];
    BuiltStart(h, heads0, es);
    payload, appended, touched := [], 0, [];
    var cursor: nat := appendOffset;
    ghost var es' := es;
    ListedStart(kvs, appendOffset, es);
    for k := 0 to |kvs|
      invariant Listed(kvs, k, appendOffset, cursor, es, es')
      invariant Built(h, heads0, heads[..], payload, appended, touched, es, es')
    {
      var kv := kvs[k];
      var recordStart := cursor;
      cursor := cursor + HEADER_SIZE + |kv.key| + |kv.val|;
      ListedStep(kvs, k, appendOffset, recordStart, es, es');
      if kv.key != [] {
        ghost var e := Entry(recordStart, kv.key, |kv.val|);
        payload, touched := BuildOne(h, h(kv.key), recordStart, heads, recordCount, payload, appended, touched, heads0, es, es', e);
        appended := appended + 1;
        es' := es' + [e];
      }
    }
    ListedEnd(kvs, appendOffset, cursor, es, es');
  }

  lemma BuiltStart(h: Hash, heads: seq<u64>, es: seq<Entry>)
    requires HeadsArray(h, heads, es) && |es| < MAX_FILE_SIZE
    ensures Built(h, heads, heads, [], 0, [], es, es)
  {
    hide Latest;
  }

  /** The first `k` records end at `cursor`, and `es'` has their entries after `es`. */
  ghost predicate Listed(kvs: seq<Kv>, k: nat, base: nat, cursor: nat, es: seq<Entry>, es': seq<Entry>) {
    && k <= |kvs| && AllFramable(kvs) && ItemsOk(Recs(kvs[..k])) && cursor == base + |Encode(Recs(kvs[..k]))|
    && es' == es + Entries(Recs(kvs[..k]), base) && |es'| <= |es| + k
    && base + |Encode(Recs(kvs))| < MAX_FILE_SIZE && |es| + |kvs| < MAX_FILE_SIZE
  }

  lemma ListedStart(kvs: seq<Kv>, base: nat, es: seq<Entry>)
    requires AllFramable(kvs) && base + |Encode(Recs(kvs))| < MAX_FILE_SIZE && |es| + |kvs| < MAX_FILE_SIZE
    ensures Listed(kvs, 0, base, base, es, es)
  {
    EmptyLog(base);
    assert kvs[..0] == [];
    assert es + [] == es;
  }

  lemma ListedStep(kvs: seq<Kv>, k: nat, base: nat, cursor: nat, es: seq<Entry>, es': seq<Entry>)
    requires Listed(kvs, k, base, cursor, es, es') && k < |kvs|
    ensures var kv := kvs[k];
            var next := cursor + HEADER_SIZE + |kv.key| + |kv.val|;
            && cursor < MAX_FILE_SIZE && |es'| + 1 < MAX_FILE_SIZE
            && Listed(kvs, k + 1, base, next, es, if kv.key == [] then es' else es' + [Entry(cursor, kv.key, |kv.val|)])
  {
    hide Encode, Entries, Recs;
    var kv := kvs[k];
    assert ItemOk(Rec(kv));
    hide AllFramable, ItemsOk, Framable;
    RecsSnoc(kvs, k);
    EntriesAfterSnoc(es, Recs(kvs[..k]), Rec(kv), base);
  }

  lemma ListedEnd(kvs: seq<Kv>, base: nat, cursor: nat, es: seq<Entry>, es': seq<Entry>)
    requires Listed(kvs, |kvs|, base, cursor, es, es')
    ensures es' == es + Entries(Recs(kvs), base)
  {
    hide Encode, Entries, Recs;
    assert kvs[..|kvs|] == kvs;
  }

  lemma EntriesAfterSnoc(es: seq<Entry>, a: seq<Item>, it: Item, base: nat)
    requires ItemsOk(a) && ItemOk(it)
    ensures ItemsOk(a + [it]) && |Encode(a + [it])| == |Encode(a)| + ItemSize(it)
    ensures es + Entries(a + [it], base) ==
              if it.Rec? && it.kv.key != [] then (es + Entries(a, base)) + [Entry(base + |Encode(a)|, it.kv.key, |it.kv.val|)]
              else es + Entries(a, base)
  {
    hide Encode, Entries;
    EntriesSnoc(a, it, base);
    EncodeAround(a, it, []);
  }

  lemma RecsSnoc(kvs: seq<Kv>, k: nat)
    requires AllFramable(kvs) && k < |kvs|
    ensures Recs(kvs[..k + 1]) == Recs(kvs[..k]) + [Rec(kvs[k])]
    ensures |Encode(Recs(kvs[..k + 1]))| <= |Encode(Recs(kvs))|
  {
    hide Encode;
    EncodeConcat(Recs(kvs[..k + 1]), Recs(kvs[k + 1..]));
    assert Recs(kvs) == Recs(kvs[..k + 1]) + Recs(kvs[k + 1..]);
  }

  lemma EmptyLog(base: nat)
    ensures Encode([]) == [] && Entries([], base) == [] && RefMap([]) == map[]
  {
  }

  // ----- writing the index file

  function EncodeHeads(heads: seq<u64>): (s: seq<byte>)
    ensures |s| == |heads| * HEAD_SIZE
  {
    if heads == [] then [] else EncodeHeads(heads[..|heads| - 1]) + Put64(heads[|heads| - 1])
  }

  lemma {:induction false} EncodeHeadsAt(heads: seq<u64>, b: nat)
    requires b < |heads|
    ensures EncodeHeads(heads)[b * HEAD_SIZE..(b + 1) * HEAD_SIZE] == Put64(heads[b])
  {
    hide Put64;
    var n := |heads| - 1;
    if b < n {
      EncodeHeadsAt(heads[..n], b);
      assert EncodeHeads(heads)[b * HEAD_SIZE..(b + 1) * HEAD_SIZE] == EncodeHeads(heads[..n])[b * HEAD_SIZE..(b + 1) * HEAD_SIZE];
    }
  }

  /** The head table in the file equals the head table in memory. */
  ghost predicate HeadsSynced(f: seq<byte>, heads: seq<u64>, b: nat)
    requires b < |heads| && RecordsOffset(|heads|) <= |f|
  {
    HeadAt(f, b) == heads[b]
  }

  lemma WriteAllHeadsSyncs(f: seq<byte>, heads: seq<u64>, b: nat)
    requires b < |heads| && RecordsOffset(|heads|) <= |f|
    ensures var g := WriteAt(f, Write(INDEX_HEADER_SIZE, EncodeHeads(heads)));
            |g| == |f| && HeadsSynced(g, heads, b)
  {
    hide Put64, Get64, WriteAt, EncodeHeads;
    var w := Write(INDEX_HEADER_SIZE, EncodeHeads(heads));
    EncodeHeadsAt(heads, b);
    ReadInsideWrite(f, w, INDEX_HEADER_SIZE + b * HEAD_SIZE, INDEX_HEADER_SIZE + (b + 1) * HEAD_SIZE);
  }

  lemma WriteOneHeadSyncs(f: seq<byte>, heads: seq<u64>, c: nat, b: nat)
    requires c < |heads| && b < |heads| && RecordsOffset(|heads|) <= |f|
    requires b == c || HeadsSynced(f, heads, b)
    ensures var g := WriteAt(f, Write(INDEX_HEADER_SIZE + c * HEAD_SIZE, Put64(heads[c])));
            |g| == |f| && HeadsSynced(g, heads, b)
  {
    hide Put64, Get64, WriteAt;
    var w := Write(INDEX_HEADER_SIZE + c * HEAD_SIZE, Put64(heads[c]));
    var lo, hi := INDEX_HEADER_SIZE + b * HEAD_SIZE, INDEX_HEADER_SIZE + (b + 1) * HEAD_SIZE;
    if b == c {
      ReadInsideWrite(f, w, lo, hi);
      assert w.data[0..8] == w.data;
    } else {
      ReadOutsideWrite(f, w, lo, hi);
    }
  }

  /** `writeBufferLogDiskIndexTouchedBucketHeads`: the whole table if many heads moved, else one
      write per touched bucket. Either way only the head table is written. */
  method WriteTouchedHeads(f: seq<byte>, heads: seq<u64>, touched: seq<nat>) returns (g: seq<byte>, hw: seq<Write>)
    requires RecordsOffset(|heads|) <= |f| && heads != []
    requires forall b :: 0 <= b < |heads| && !HeadsSynced(f, heads, b) ==> b in touched
    requires forall i :: 0 <= i < |touched| ==> touched[i] < |heads|
    ensures HeadWrites(hw, |heads|) && g == WriteAll(f, hw) && |g| == |f|
    ensures forall b :: 0 <= b < |heads| ==> HeadsSynced(g, heads, b)
    ensures |hw| == if touched == [] then 0 else if |touched| > |heads| / 4 then 1 else |touched|
  {
    hide HeadsSynced, EncodeHeads, Put64, WriteAt;
    g, hw := f, [];
    if touched == [] {
      return;
    }
    if |touched| > |heads| / 4 {
      var w := Write(INDEX_HEADER_SIZE, EncodeHeads(heads));
      g, hw := WriteAt(f, w), [w];
      forall b | 0 <= b < |heads| ensures HeadsSynced(g, heads, b) {
        WriteAllHeadsSyncs(f, heads, b);
      }
      WriteAllSnoc(f, [], w);
      assert [] + [w] == [w];
      return;
    }
    for k := 0 to |touched|
      invariant HeadWrites(hw, |heads|) && g == WriteAll(f, hw) && |g| == |f| && |hw| == k
      invariant forall b :: 0 <= b < |heads| && !HeadsSynced(g, heads, b) ==> b in touched[k..]
    {
      var c := touched[k];
      var w := Write(INDEX_HEADER_SIZE + c * HEAD_SIZE, Put64(heads[c]));
      WriteAllSnoc(f, hw, w);
      assert touched[k..] == [c] + touched[k + 1..];
      forall b | 0 <= b < |heads| && b !in touched[k + 1..] ensures HeadsSynced(WriteAt(g, w), heads, b) {
        WriteOneHeadSyncs(g, heads, c, b);
      }
      assert |WriteAt(g, w)| == |g| by { WriteOneHeadSyncs(g, heads, c, c); }
      g, hw := WriteAt(g, w), hw + [w];
    }
  }

  /** `readBufferLogDiskIndexBucketHeads`. */
  method ReadHeads(f: seq<byte>, n: nat) returns (heads: array<u64>)
    requires RecordsOffset(n) <= |f|
    ensures fresh(heads) && heads.Length == n
    ensures forall b :: 0 <= b < n ==> heads[b] == HeadAt(f, b)
  {
    hide HeadAt;
    heads := new u64[n];
    for b := 0 to n
      invariant forall c :: 0 <= c < b ==> heads[c] == HeadAt(f, c)
    {
      heads[b] := HeadAt(f, b);
    }
  }

  lemma BuiltGivesPayload(h: Hash, f: seq<byte>, heads0: seq<u64>, heads: seq<u64>, payload: seq<byte>, appended: nat, touched: seq<nat>,
                          es: seq<Entry>, es': seq<Entry>, end: u64, n: u64)
    requires Built(h, heads0, heads, payload, appended, touched, es, es') && |es| < |es'|
    requires Complete(h, f, es, end, n) && |heads0| == n
    requires forall b :: 0 <= b < n ==> heads0[b] == HeadAt(f, b)
    ensures PayloadFor(h, payload, es, es', n)
    ensures var f1 := WriteAt(f, PayloadWrite(payload, |es|, n));
            |f1| >= |f| && forall b :: 0 <= b < n && !HeadsSynced(f1, heads, b) ==> b in touched
  {
    hide HeadsHold, RecordsHold, Latest, DecodeRecord, HeadsArray, WriteAt, HeaderIs, IsPowerOfTwo;
    var w := PayloadWrite(payload, |es|, n);
    var f1 := WriteAt(f, w);
    forall b | 0 <= b < n ensures HeadAt(f1, b) == HeadAt(f, b) {
      ReadOutsideWrite(f, w, INDEX_HEADER_SIZE + b * HEAD_SIZE, INDEX_HEADER_SIZE + (b + 1) * HEAD_SIZE);
    }
  }

  lemma SyncedHeadsHold(h: Hash, g: seq<byte>, heads: seq<u64>, es': seq<Entry>)
    requires HeadsArray(h, heads, es') && RecordsOffset(|heads|) <= |g|
    requires forall b :: 0 <= b < |heads| ==> HeadsSynced(g, heads, b)
    ensures HeadsHold(h, g, es', |heads|)
  {
    hide HeadAt, Latest;
    forall b | 0 <= b < |heads| ensures HeadAt(g, b) == Latest(h, es', |es'|, b, |heads|) {
      assert HeadsSynced(g, heads, b);
    }
  }

  /** `g` is `f` after one index append whose records are `payload` and whose head writes are `hw`:
      complete for the longer log, and safe to be interrupted anywhere. */
  ghost predicate Extended(h: Hash, f: seq<byte>, g: seq<byte>, es: seq<Entry>, es': seq<Entry>, end: u64, end': u64, n: u64,
                           payload: seq<byte>, hw: seq<Write>)
  {
    && 0 < n && |es| < |es'| < MAX_FILE_SIZE
    && PayloadFor(h, payload, es, es', n) && HeadWrites(hw, n)
    && HeadsDone(h, WriteAt(f, PayloadWrite(payload, |es|, n)), hw, es', n)
    && var ws := AppendWrites(payload, |es|, n, hw, end', |es'|);
    && g == WriteAll(f, ws)
    && Complete(h, g, es', end', n)
    && forall c :: CrashOf(f, ws, c) ==> CrashSafe(h, c, es, end, es', end')
  }

  ghost predicate HeadsDone(h: Hash, f1: seq<byte>, hw: seq<Write>, es': seq<Entry>, n: nat)
    requires n > 0
  {
    |WriteAll(f1, hw)| >= RecordsOffset(n) && HeadsHold(h, WriteAll(f1, hw), es', n)
  }

  lemma HeadsDoneBy(h: Hash, f1: seq<byte>, hw: seq<Write>, es': seq<Entry>, n: nat)
    requires n > 0 && |WriteAll(f1, hw)| >= RecordsOffset(n) && HeadsHold(h, WriteAll(f1, hw), es', n)
    ensures HeadsDone(h, f1, hw, es', n)
  {
  }

  lemma ExtendedBy(h: Hash, f: seq<byte>, es: seq<Entry>, es': seq<Entry>, end: u64, end': u64, n: u64, payload: seq<byte>, hw: seq<Write>)
    requires Complete(h, f, es, end, n) && |es| < |es'| < MAX_FILE_SIZE && end' < MAX_FILE_SIZE
    requires PayloadFor(h, payload, es, es', n) && HeadWrites(hw, n)
    requires HeadsDone(h, WriteAt(f, PayloadWrite(payload, |es|, n)), hw, es', n)
    ensures var f1 := WriteAll(WriteAt(f, PayloadWrite(payload, |es|, n)), hw);
            Extended(h, f, WriteAt(f1, Write(0, HeaderBytes(end', |es'|, n))), es, es', end, end', n, payload, hw)
  {
    hide PayloadFor, HeadsHold, RecordsHold, WriteAt, HeaderBytes, HeaderIs, CrashOf, CrashSafe, IsPowerOfTwo;
    var pw := PayloadWrite(payload, |es|, n);
    var hdr := Write(0, HeaderBytes(end', |es'|, n));
    var f1 := WriteAt(f, pw);
    var ws := AppendWrites(payload, |es|, n, hw, end', |es'|);
    PayloadWritten(h, f, es, es', end, n, payload);
    AppendFinishes(h, f1, es, es', end, end', n, hw);
    assert ws[1..] == HeadThenHeader(hw, end', |es'|, n);
    WriteAllSnoc(f1, hw, hdr);
    forall c | CrashOf(f, ws, c) ensures CrashSafe(h, c, es, end, es', end') {
      CrashDuringAppend(h, f, es, es', end, end', n, payload, hw, c);
    }
  }

  /** The records, heads and header writes of `appendBufferLogPhysicalIndexEntries`. */
  method ExtendIndex(h: Hash, f: seq<byte>, n: u64, recordCount: u64, appendOffset: nat, logEnd: nat, kvs: seq<Kv>, heads: array<u64>,
                     ghost es: seq<Entry>)
    returns (g: seq<byte>, payload: seq<byte>, hw: seq<Write>)
    requires AllFramable(kvs) && recordCount == |es|
    requires appendOffset + |Encode(Recs(kvs))| <= logEnd < MAX_FILE_SIZE && |es| + |kvs| < MAX_FILE_SIZE
    requires Complete(h, f, es, appendOffset, n)
    requires heads.Length == n && forall b :: 0 <= b < n ==> heads[b] == HeadAt(f, b)
    modifies heads
    ensures var es' := es + Entries(Recs(kvs), appendOffset);
            if |es'| == |es| then g == f else Extended(h, f, g, es, es', appendOffset, logEnd, n, payload, hw)
  {
    hide Encode, Entries, Recs, Complete, Extended, WriteAt, WriteAll, PayloadWrite, HeaderBytes, HeadAt, Latest, HeadsArray, Built, HeadsDone, IsPowerOfTwo, HeadsHold, HeadsSynced;
    ghost var es' := es + Entries(Recs(kvs), appendOffset);
    ghost var heads0 := heads[..];
    CompleteHeads(h, f, heads0, es, appendOffset, n);
    var body, appended, touched := BuildPayload(h, appendOffset, kvs, heads, recordCount, es);
    payload, hw := body, [];
    var heads1 := heads[..];
    BuiltFacts(h, heads0, heads1, body, appended, touched, es, es');
    if appended == 0 {
      g := f;
      return;
    }
    BuiltGivesPayload(h, f, heads0, heads1, body, appended, touched, es, es', appendOffset, n);
    g := WriteAt(f, PayloadWrite(body, recordCount, n));
    g, hw := WriteTouchedHeads(g, heads1, touched);
    SyncedHeadsHold(h, g, heads1, es');
    HeadsDoneBy(h, WriteAt(f, PayloadWrite(body, |es|, n)), hw, es', n);
    ExtendedBy(h, f, es, es', appendOffset, logEnd, n, body, hw);
    g := WriteAt(g, Write(0, HeaderBytes(logEnd, recordCount + appended, n)));
  }

  lemma CompleteHeads(h: Hash, f: seq<byte>, heads: seq<u64>, es: seq<Entry>, end: u64, n: u64)
    requires Complete(h, f, es, end, n)
    requires |heads| == n && forall b :: 0 <= b < n ==> heads[b] == HeadAt(f, b)
    ensures HeadsArray(h, heads, es) && |f| >= RecordsOffset(n)
  {
    hide HeadAt, Latest, IsPowerOfTwo, HeaderIs;
  }

  lemma BuiltFacts(h: Hash, heads0: seq<u64>, heads: seq<u64>, payload: seq<byte>, appended: nat, touched: seq<nat>, es: seq<Entry>, es': seq<Entry>)
    requires Built(h, heads0, heads, payload, appended, touched, es, es')
    ensures appended == |es'| - |es| && |es'| < MAX_FILE_SIZE && HeadsArray(h, heads, es') && |heads| > 0
    ensures forall i :: 0 <= i < |touched| ==> touched[i] < |heads|
  {
    hide Latest, DecodeRecord;
  }

  lemma ExtendedFromEmpty(h: Hash, g: seq<byte>, es': seq<Entry>, end': u64, n: u64, payload: seq<byte>, hw: seq<Write>)
    requires 0 < n <= MAX_BUCKETS && IsPowerOfTwo(n) && end' < MAX_FILE_SIZE
    requires Extended(h, WriteAll([], CreateWrites(n, [])), g, [], es', 0, end', n, payload, hw)
    ensures forall c :: CrashOf([], CreateWrites(n, AppendWrites(payload, 0, n, hw, end', |es'|)), c) ==> CrashSafe(h, c, [], 0, es', end')
  {
    hide PayloadFor, HeadsHold, WriteAt, HeaderBytes, CrashOf, CrashSafe, IsPowerOfTwo, Complete, AppendWrites, CreateWrites;
    forall c | CrashOf([], CreateWrites(n, AppendWrites(payload, 0, n, hw, end', |es'|)), c) ensures CrashSafe(h, c, [], 0, es', end') {
      CrashDuringCreate(h, es', end', n, payload, hw, c);
    }
  }

  /** First creation of the index, for the first append to an empty log: the old file is truncated,
      an empty index is written, and then it is extended. */
  method CreateIndex(h: Hash, n: u64, logEnd: nat, kvs: seq<Kv>) returns (g: seq<byte>, payload: seq<byte>, hw: seq<Write>)
    requires AllFramable(kvs) && |Encode(Recs(kvs))| <= logEnd < MAX_FILE_SIZE && |kvs| < MAX_FILE_SIZE
    requires 0 < n <= MAX_BUCKETS && IsPowerOfTwo(n)
    requires Entries(Recs(kvs), 0) != []
    ensures var es' := Entries(Recs(kvs), 0);
            && Complete(h, g, es', logEnd, n)
            && g == WriteAll([], CreateWrites(n, AppendWrites(payload, 0, n, hw, logEnd, |es'|)))
            && forall c :: CrashOf([], CreateWrites(n, AppendWrites(payload, 0, n, hw, logEnd, |es'|)), c) ==> CrashSafe(h, c, [], 0, es', logEnd)
  {
    hide Encode, Entries, Recs, Complete, Extended, WriteAt, WriteAll, HeaderBytes, HeadAt, IsPowerOfTwo, CrashOf, CrashSafe, CreateWrites, AppendWrites, Zeros;
    var f := WriteAt(WriteAt([], Write(0, HeaderBytes(0, 0, n))), Write(INDEX_HEADER_SIZE, Zeros(n * HEAD_SIZE)));
    CreatedAs(n);
    CreatedEmpty(h, n);
    var heads := new u64[n](_ => 0);
    CreatedHeads(h, f, n);
    g, payload, hw := ExtendIndex(h, f, n, 0, 0, logEnd, kvs, heads, []);
    ghost var es' := Entries(Recs(kvs), 0);
    assert [] + es' == es';
    ExtendedGives(h, f, g, [], es', 0, logEnd, n, payload, hw);
    ExtendedFromEmpty(h, g, es', logEnd, n, payload, hw);
    CreatedThen(n, AppendWrites(payload, 0, n, hw, logEnd, |es'|));
    ExtendedIs(h, f, g, [], es', 0, logEnd, n, payload, hw);
  }

  lemma CreatedThen(n: u64, rest: seq<Write>)
    ensures WriteAll([], CreateWrites(n, rest)) == WriteAll(WriteAll([], CreateWrites(n, [])), rest)
  {
    hide WriteAt, HeaderBytes, Zeros;
    var hdr := Write(0, HeaderBytes(0, 0, n));
    var zs := Write(INDEX_HEADER_SIZE, Zeros(n * HEAD_SIZE));
    CreatedAs(n);
    var ws := CreateWrites(n, rest);
    assert ws[0] == hdr && ws[1..][0] == zs && ws[1..][1..] == rest;
  }

  lemma ExtendedIs(h: Hash, f: seq<byte>, g: seq<byte>, es: seq<Entry>, es': seq<Entry>, end: u64, end': u64, n: u64,
                   payload: seq<byte>, hw: seq<Write>)
    requires Extended(h, f, g, es, es', end, end', n, payload, hw)
    ensures |es'| < MAX_FILE_SIZE && g == WriteAll(f, AppendWrites(payload, |es|, n, hw, end', |es'|))
    ensures forall c :: CrashOf(f, AppendWrites(payload, |es|, n, hw, end', |es'|), c) ==> CrashSafe(h, c, es, end, es', end')
  {
    hide PayloadFor, HeadsHold, WriteAt, HeaderBytes, CrashOf, CrashSafe, IsPowerOfTwo, AppendWrites, Complete, WriteAll;
  }

  lemma CreatedHeads(h: Hash, f: seq<byte>, n: u64)
    requires Complete(h, f, [], 0, n)
    ensures |f| == RecordsOffset(n) && n > 0 && forall b :: 0 <= b < n ==> HeadAt(f, b) == 0
  {
    hide HeadAt, IsPowerOfTwo, HeaderIs;
  }

  lemma ExtendedGives(h: Hash, f: seq<byte>, g: seq<byte>, es: seq<Entry>, es': seq<Entry>, end: u64, end': u64, n: u64,
                      payload: seq<byte>, hw: seq<Write>)
    requires Extended(h, f, g, es, es', end, end', n, payload, hw)
    ensures |es'| < MAX_FILE_SIZE && Complete(h, g, es', end', n)
  {
    hide PayloadFor, HeadsHold, WriteAt, HeaderBytes, CrashOf, CrashSafe, IsPowerOfTwo, AppendWrites, CreateWrites;
  }

  // ----- scanning the log

  lemma EncodeAround(a: seq<Item>, it: Item, b: seq<Item>)
    requires ItemsOk(a) && ItemOk(it) && ItemsOk(b)
    ensures ItemsOk((a + [it]) + b) && Encode((a + [it]) + b) == Encode(a) + EncodeItem(it) + Encode(b)
    ensures |Encode(a + [it])| == |Encode(a)| + ItemSize(it)
  {
    hide EncodeItem, Encode;
    EncodeOne(it);
    EncodeConcat(a, [it]);
    EncodeConcat(a + [it], b);
  }

  /** A full scan in progress: `done` is behind the cursor, `rest` is ahead. */
  ghost predicate Scanning(data: seq<byte>, cursor: nat, done: seq<Item>, rest: seq<Item>) {
    ItemsOk(done) && ItemsOk(rest) && data == Encode(done + rest) && cursor == |Encode(done)| <= |data|
  }

  lemma ScanStart(items: seq<Item>)
    requires ItemsOk(items)
    ensures Scanning(Encode(items), 0, [], items)
  {
    hide EncodeItem;
    assert [] + items == items;
  }

  lemma ScanEnd(data: seq<byte>, cursor: nat, done: seq<Item>, rest: seq<Item>)
    requires Scanning(data, cursor, done, rest)
    ensures ItemsOk(done) && cursor == |Encode(done)| <= |data| && (cursor == |data| <==> rest == [])
  {
    hide EncodeItem;
    EncodeConcat(done, rest);
  }

  /** The cursor of every full scan stops exactly at item boundaries. */
  lemma ScanStep(data: seq<byte>, cursor: nat, done: seq<Item>, rest: seq<Item>)
    requires Scanning(data, cursor, done, rest) && rest != []
    ensures var it := rest[0];
            var next := cursor + ItemSize(it);
            ItemOk(it) && Scanning(data, next, done + [it], rest[1..]) && (done + [it]) + rest[1..] == done + rest &&
            ReadItem(data, cursor) ==
              match it
              case Rec(kv) => AtRec(kv.key, cursor + HEADER_SIZE + |kv.key|, |kv.val|, next)
              case Tag(_) => AtTag(next)
  {
    hide EncodeItem, Encode, ReadItem;
    var it, b := rest[0], rest[1..];
    assert done + rest == (done + [it]) + b;
    EncodeAround(done, it, b);
    ReadWholeItem(Encode(done), it, Encode(b));
  }

  lemma EntriesSnoc(a: seq<Item>, it: Item, base: nat)
    requires ItemsOk(a) && ItemOk(it)
    ensures ItemsOk(a + [it])
    ensures Entries(a + [it], base) ==
              if it.Rec? && it.kv.key != [] then Entries(a, base) + [Entry(base + |Encode(a)|, it.kv.key, |it.kv.val|)]
              else Entries(a, base)
    ensures RefMap(a + [it]) ==
              if it.Rec? && it.kv.key != [] then RefMap(a)[it.kv.key := Ref(|Encode(a)| + HEADER_SIZE + |it.kv.key|, |it.kv.val|)]
              else RefMap(a)
  {
    hide Encode;
    var all := a + [it];
    assert all[..|all| - 1] == a && all[|all| - 1] == it;
  }

  datatype Pending = Pending(keyHash: u64, logOffset: u64)

  ghost predicate PendingFor(h: Hash, ps: seq<Pending>, es: seq<Entry>) {
    |ps| == |es| && forall i :: 0 <= i < |ps| ==> es[i].off < MAX_FILE_SIZE && ps[i] == Pending(h(es[i].key), es[i].off)
  }

  /** The scan of `rebuildBufferLogPhysicalIndexFromBuffer`; a frame that does not fit is an error. */
  method ScanPending(h: Hash, data: seq<byte>, ghost items: seq<Item>) returns (ok: bool, ps: seq<Pending>)
    requires ItemsOk(items) && data == Encode(items) && |data| < MAX_FILE_SIZE
    ensures ok && PendingFor(h, ps, Entries(items, 0))
  {
    hide Encode, Entries, ReadItem, PendingFor, Scanning;
    ok, ps := true, [];
    var cursor := 0;
    ghost var done: seq<Item>, rest := [], items;
    ScanStart(items);
    EmptyLog(0);
    PendingNone(h);
    ScanEnd(data, cursor, done, rest);
    while cursor < |data|
      invariant Scanning(data, cursor, done, rest) && done + rest == items
      invariant ItemsOk(done) && cursor == |Encode(done)| <= |data| && (cursor == |data| <==> rest == [])
      invariant PendingFor(h, ps, Entries(done, 0))
      decreases |data| - cursor
    {
      ScanStep(data, cursor, done, rest);
      EntriesSnoc(done, rest[0], 0);
      match ReadItem(data, cursor) {
        case Stop =>
          ok := false;
          return;
        case AtTag(next) =>
          cursor := next;
        case AtRec(key, _, _, next) =>
          if key != [] {
            PendingSnoc(h, ps, Entries(done, 0), Entry(cursor, key, |rest[0].kv.val|));
            ps := ps + [Pending(h(key), cursor)];
          }
          cursor := next;
      }
      done, rest := done + [rest[0]], rest[1..];
      ScanEnd(data, cursor, done, rest);
    }
    assert done == items;
  }

  lemma PendingNone(h: Hash)
    ensures PendingFor(h, [], [])
  {
  }

  lemma PendingSnoc(h: Hash, ps: seq<Pending>, es: seq<Entry>, e: Entry)
    requires PendingFor(h, ps, es) && e.off < MAX_FILE_SIZE
    ensures PendingFor(h, ps + [Pending(h(e.key), e.off)], es + [e])
  {
  }

  /** `rebuildBufferLogPhysicalIndexFromBuffer`: a new file, renamed over the old one when complete.
      A log without keyed records leaves the old index alone. */
  method RebuildIndex(h: Hash, data: seq<byte>, ghost items: seq<Item>) returns (r: Option<seq<byte>>)
    requires ItemsOk(items) && data == Encode(items) && |data| < MAX_FILE_SIZE
    ensures r.None? ==> Entries(items, 0) == []
    ensures r.Some? ==> Represents(h, r.value, Entries(items, 0), |data|)
  {
    hide Encode, Entries, PendingFor, Complete, IsPowerOfTwo, WriteAt, WriteAll, HeadsArray, Built, Represents, HeadAt, PayloadWrite, HeaderBytes, Zeros, Extended, HeadsDone;
    var ok, ps := ScanPending(h, data, items);
    ghost var es := Entries(items, 0);
    EntriesBounded(items, 0);
    PendingSize(h, ps, es);
    if !ok || ps == [] {
      return None;
    }
    var n := BucketCountForRecords(|ps|);
    var heads := new u64[n](_ => 0);
    var f := WriteAt(WriteAt([], Write(0, HeaderBytes(0, 0, n))), Write(INDEX_HEADER_SIZE, Zeros(n * HEAD_SIZE)));
    CreatedAs(n);
    CreatedEmpty(h, n);
    CreatedHeads(h, f, n);
    ghost var heads0 := heads[..];
    CompleteHeads(h, f, heads0, [], 0, n);
    var payload, appended, touched := PendingPayload(h, ps, heads, es);
    BuiltFacts(h, heads0, heads[..], payload, appended, touched, [], es);
    BuiltGivesPayload(h, f, heads0, heads[..], payload, appended, touched, [], es, 0, n);
    var f1 := WriteAt(f, PayloadWrite(payload, 0, n));
    var hw := Write(INDEX_HEADER_SIZE, EncodeHeads(heads[..]));
    var f2 := WriteAt(f1, hw);
    WriteAllHeads(h, f1, heads[..], es);
    ExtendedBy(h, f, [], es, 0, |data|, n, payload, [hw]);
    var g := WriteAt(f2, Write(0, HeaderBytes(|data|, |ps|, n)));
    ExtendedGives(h, f, g, [], es, 0, |data|, n, payload, [hw]);
    CompleteRepresents(h, g, es, |data|, n);
    return Some(g);
  }

  lemma PendingSize(h: Hash, ps: seq<Pending>, es: seq<Entry>)
    requires PendingFor(h, ps, es)
    ensures |ps| == |es| && forall i :: 0 <= i < |ps| ==> ps[i].logOffset < MAX_FILE_SIZE
  {
  }

  lemma WriteAllHeads(h: Hash, f1: seq<byte>, heads: seq<u64>, es': seq<Entry>)
    requires HeadsArray(h, heads, es') && RecordsOffset(|heads|) <= |f1|
    ensures var hw := Write(INDEX_HEADER_SIZE, EncodeHeads(heads));
            && HeadWrites([hw], |heads|)
            && WriteAll(f1, [hw]) == WriteAt(f1, hw)
            && HeadsDone(h, f1, [hw], es', |heads|)
  {
    hide EncodeHeads, WriteAt, HeadAt, Latest, HeadsSynced, HeadsHold;
    var hw := Write(INDEX_HEADER_SIZE, EncodeHeads(heads));
    WriteAllSnoc(f1, [], hw);
    assert [] + [hw] == [hw];
    forall b | 0 <= b < |heads| ensures HeadsSynced(WriteAt(f1, hw), heads, b) {
      WriteAllHeadsSyncs(f1, heads, b);
    }
    SyncedHeadsHold(h, WriteAt(f1, hw), heads, es');
  }

  /** The record loop of the rebuild, chaining scanned records into an empty table. */
  method PendingPayload(ghost h: Hash, ps: seq<Pending>, heads: array<u64>, ghost es: seq<Entry>)
    returns (payload: seq<byte>, ghost appended: nat, ghost touched: seq<nat>)
    requires PendingFor(h, ps, es) && |es| < MAX_FILE_SIZE
    requires HeadsArray(h, heads[..], [])
    modifies heads
    ensures Built(h, old(heads[..]), heads[..], payload, appended, touched, [], es)
  {
    ghost var heads0 := heads[..];
    assert Built(h, heads0, heads0, [], 0, [], [], []) by { hide Latest; }
    hide Built, HeadsArray;
    var buckets: seq<nat>;
    payload, appended, touched, buckets := [], 0, [], [];
    assert es[..0] == [];
    for k := 0 to |ps|
      invariant appended == k && touched == buckets
      invariant Built(h, heads0, heads[..], payload, k, buckets, [], es[..k])
    {
      payload, buckets := BuildOne(h, ps[k].keyHash, ps[k].logOffset, heads, 0, payload, k, buckets, heads0, [], es[..k], es[k]);
      assert es[..k + 1] == es[..k] + [es[k]];
      appended, touched := k + 1, buckets;
    }
    assert es[..|ps|] == es;
  }

  // ----- the in-memory index

  /** The scan of `buildBufferLogIndexForAccount`. */
  method BuildMemory(data: seq<byte>, ghost items: seq<Item>) returns (ok: bool, m: map<seq<byte>, Ref>)
    requires ItemsOk(items) && data == Encode(items)
    ensures ok && m == RefMap(items)
  {
    hide Encode, RefMap, ReadItem, Scanning;
    ok, m := true, map[];
    var cursor := 0;
    ghost var done: seq<Item>, rest := [], items;
    ScanStart(items);
    EmptyLog(0);
    ScanEnd(data, cursor, done, rest);
    while cursor < |data|
      invariant Scanning(data, cursor, done, rest) && done + rest == items
      invariant ItemsOk(done) && cursor == |Encode(done)| <= |data| && (cursor == |data| <==> rest == [])
      invariant m == RefMap(done)
      decreases |data| - cursor
    {
      ScanStep(data, cursor, done, rest);
      EntriesSnoc(done, rest[0], 0);
      match ReadItem(data, cursor) {
        case Stop =>
          ok := false;
          return;
        case AtTag(next) =>
          cursor := next;
        case AtRec(key, valOff, valLen, next) =>
          if key != [] {
            m := m[key := Ref(valOff, valLen)];
          }
          cursor := next;
      }
      done, rest := done + [rest[0]], rest[1..];
      ScanEnd(data, cursor, done, rest);
    }
    assert done == items;
  }

  /** The loop of `updateBufferLogIndexForAppend`: the map of the longer log without reading it. */
  method UpdateMemory(m: map<seq<byte>, Ref>, appendOffset: nat, kvs: seq<Kv>, blockId: u64, ghost items: seq<Item>)
    returns (m': map<seq<byte>, Ref>)
    requires ItemsOk(items) && m == RefMap(items) && appendOffset == |Encode(items)| && AllFramable(kvs)
    ensures ItemsOk(items + AppendItems(kvs, blockId)) && m' == RefMap(items + AppendItems(kvs, blockId))
  {
    hide Encode, RefMap, Entries;
    m' := m;
    var cursor := appendOffset;
    ghost var done := items;
    assert items + Recs(kvs[..0]) == items;
    for k := 0 to |kvs|
      invariant ItemsOk(done) && done == items + Recs(kvs[..k])
      invariant m' == RefMap(done) && cursor == |Encode(done)|
    {
      var kv := kvs[k];
      EntriesSnoc(done, Rec(kv), 0);
      EncodeAround(done, Rec(kv), []);
      if kv.key != [] {
        m' := m'[kv.key := Ref(cursor + HEADER_SIZE + |kv.key|, |kv.val|)];
      }
      cursor := cursor + HEADER_SIZE + |kv.key| + |kv.val|;
      assert Recs(kvs[..k + 1]) == Recs(kvs[..k]) + [Rec(kv)];
      done := done + [Rec(kv)];
    }
    assert kvs[..|kvs|] == kvs;
    if blockId != 0 {
      EntriesSnoc(done, Tag(blockId), 0);
      assert items + AppendItems(kvs, blockId) == done + [Tag(blockId)];
    } else {
      assert items + AppendItems(kvs, blockId) == done;
    }
  }

  // ----- one append

  /** `serializeStorageSegment`: fails, writing nothing, if a length does not fit 16 bits. */
  method Serialize(kvs: seq<Kv>) returns (ok: bool, buf: seq<byte>)
    requires NoBlanks(kvs)
    ensures ok <==> AllFramable(kvs)
    ensures ok ==> buf == Encode(Recs(kvs))
  {
    hide Encode, EncodeItem;
    ok, buf := true, [];
    for i := 0 to |kvs|
      invariant AllFramable(kvs[..i])
    {
      if |kvs[i].key| > 0xFFFF || |kvs[i].val| > 0xFFFF {
        return false, [];
      }
      assert kvs[..i + 1] == kvs[..i] + [kvs[i]];
    }
    assert kvs[..|kvs|] == kvs;
    ghost var done: seq<Item> := [];
    EmptyLog(0);
    for i := 0 to |kvs|
      invariant ItemsOk(done) && done == Recs(kvs[..i]) && buf == Encode(done)
    {
      var kv := kvs[i];
      EncodeConcat(done, [Rec(kv)]);
      EncodeOne(Rec(kv));
      buf := buf + EncodeItem(Rec(kv));
      done := done + [Rec(kv)];
      assert Recs(kvs[..i + 1]) == done;
    }
  }

  /** A pair that is empty on both sides would read back as a commit tag. */
  predicate NoBlanks(kvs: seq<Kv>) {
    forall i :: 0 <= i < |kvs| ==> kvs[i].key != [] || kvs[i].val != []
  }

  /** What the index file must satisfy at all times: a file accepted for the whole log indexes
      exactly the log, and no file claims to cover more than the log. */
  ghost predicate IndexOk(h: Hash, index: Option<seq<byte>>, items: seq<Item>, end: nat)
    requires ItemsOk(items)
  {
    index.Some? && ReadHeader(index.value).Some? ==>
      && ReadHeader(index.value).value.coveredEnd <= end
      && (Accepts(index.value, end) ==> Represents(h, index.value, Entries(items, 0), end))
  }

  lemma IndexOkNone(h: Hash, items: seq<Item>, end: nat)
    requires ItemsOk(items)
    ensures IndexOk(h, None, items, end)
  {
  }

  lemma IndexOkIf(h: Hash, f: seq<byte>, items: seq<Item>, end: nat)
    requires ItemsOk(items) && Represents(h, f, Entries(items, 0), end)
    ensures IndexOk(h, Some(f), items, end)
  {
    hide ReadHeader, HeadsHold, RecordsHold, Entries;
  }

  /** A stale index stays rejected while the log grows. */
  lemma StaleIndexOk(h: Hash, index: Option<seq<byte>>, items: seq<Item>, end: nat, items': seq<Item>, end': nat)
    requires ItemsOk(items) && ItemsOk(items') && IndexOk(h, index, items, end) && end < end'
    ensures IndexOk(h, index, items', end')
  {
    hide ReadHeader, HeadsHold, RecordsHold, Entries;
  }

  /** The entries an append adds; a tag adds none. */
  lemma AppendEntries(items: seq<Item>, kvs: seq<Kv>, blockId: u64)
    requires ItemsOk(items) && AllFramable(kvs)
    ensures var all := items + AppendItems(kvs, blockId);
            && ItemsOk(all)
            && Entries(all, 0) == Entries(items, 0) + Entries(Recs(kvs), |Encode(items)|)
            && |Encode(all)| == |Encode(items)| + |Encode(AppendItems(kvs, blockId))|
            && |Encode(Recs(kvs))| <= |Encode(AppendItems(kvs, blockId))|
  {
    hide Encode, Entries, EncodeItem;
    var add := AppendItems(kvs, blockId);
    EntriesConcat(items, add, 0);
    EncodeConcat(items, add);
    if blockId == 0 {
      assert add == Recs(kvs);
    } else {
      EntriesSnoc(Recs(kvs), Tag(blockId), |Encode(items)|);
      EncodeConcat(Recs(kvs), [Tag(blockId)]);
    }
  }

  lemma {:induction false} RecsSize(kvs: seq<Kv>)
    requires AllFramable(kvs)
    ensures |kvs| <= |Encode(Recs(kvs))|
    decreases |kvs|
  {
    hide EncodeItem;
    if kvs != [] {
      assert Recs(kvs)[1..] == Recs(kvs[1..]);
      RecsSize(kvs[1..]);
    }
  }

  method CountKeyed(kvs: seq<Kv>, ghost base: nat) returns (c: nat)
    requires AllFramable(kvs)
    ensures c == |Entries(Recs(kvs), base)|
  {
    hide Encode, Entries, Recs, ItemsOk;
    c := 0;
    EmptyLog(base);
    RecsNone(kvs);
    for i := 0 to |kvs|
      invariant ItemsOk(Recs(kvs[..i])) && c == |Entries(Recs(kvs[..i]), base)|
    {
      RecsStep(kvs, i);
      EntriesSnoc(Recs(kvs[..i]), Rec(kvs[i]), base);
      if kvs[i].key != [] {
        c := c + 1;
      }
    }
    assert kvs[..|kvs|] == kvs;
  }

  lemma RecsNone(kvs: seq<Kv>)
    ensures Recs(kvs[..0]) == [] && ItemsOk([])
  {
  }

  lemma RecsStep(kvs: seq<Kv>, i: nat)
    requires AllFramable(kvs) && i < |kvs|
    ensures Recs(kvs[..i + 1]) == Recs(kvs[..i]) + [Rec(kvs[i])] && ItemsOk(Recs(kvs[..i])) && ItemOk(Rec(kvs[i]))
  {
    hide Framable;
  }

  /** What an append does to the index file. */
  datatype IndexWork =
    | Keep
    | Remove
    | Rename(file: seq<byte>)
    | Overwrite(base: seq<byte>, ws: seq<Write>)

  /** The index file when the work is done. */
  function Finished(work: IndexWork, index: Option<seq<byte>>): Option<seq<byte>> {
    match work
    case Keep => index
    case Remove => None
    case Rename(file) => Some(file)
    case Overwrite(base, ws) => Some(WriteAll(base, ws))
  }

  /** The index file when the machine stops `steps` steps into the work; after the first one, which
      removes, renames or truncates, each byte written is a step. */
  function Interrupted(work: IndexWork, index: Option<seq<byte>>, steps: nat): Option<seq<byte>> {
    if steps == 0 then index
    else
      match work
      case Keep => index
      case Remove => None
      case Rename(file) => Some(file)
      case Overwrite(base, ws) => Some(WriteUpTo(base, ws, steps - 1))
  }

  /** How many steps the work takes at most. */
  function StepsOf(work: IndexWork): nat {
    match work
    case Overwrite(_, ws) => 2 + BytesOf(ws)
    case _ => 1
  }

  function BytesOf(ws: seq<Write>): nat {
    if ws == [] then 0 else |ws[0].data| + BytesOf(ws[1..])
  }

  /** Given enough steps the work is finished. */
  lemma EnoughSteps(work: IndexWork, index: Option<seq<byte>>, steps: nat)
    requires steps >= StepsOf(work)
    ensures Interrupted(work, index, steps) == Finished(work, index)
  {
    if work.Overwrite? {
      EnoughBytes(work.base, work.ws, steps - 1);
    }
  }

  lemma {:induction false} EnoughBytes(f: seq<byte>, ws: seq<Write>, budget: nat)
    requires budget > BytesOf(ws)
    ensures WriteUpTo(f, ws, budget) == WriteAll(f, ws)
    decreases |ws|
  {
    hide WriteAt;
    if ws != [] {
      EnoughBytes(WriteAt(f, ws[0]), ws[1..], budget - |ws[0].data|);
    }
  }

  predicate AnyKeyed(kvs: seq<Kv>) {
    exists i :: 0 <= i < |kvs| && kvs[i].key != []
  }

  predicate Current(index: Option<seq<byte>>, end: int) {
    index.Some? && Accepts(index.value, end)
  }

  /** What an append does with the index: one that covers the log, or the first one, covers the longer
      log afterwards; any other is removed; a batch without keys leaves a current one as it is. */
  ghost predicate Decided(was: Option<seq<byte>>, now: Option<seq<byte>>, kvs: seq<Kv>, end: int, end': int) {
    && (AnyKeyed(kvs) && (end == 0 || Current(was, end)) ==> Current(now, end'))
    && (!AnyKeyed(kvs) && (end == 0 || Current(was, end)) ==> now == was)
    && (end != 0 && !Current(was, end) ==> now == None)
  }

  lemma {:induction false} SomeKeyed(kvs: seq<Kv>, base: nat)
    requires AllFramable(kvs)
    ensures AnyKeyed(kvs) <==> |Entries(Recs(kvs), base)| > 0
    decreases |kvs|
  {
    hide Encode;
    if kvs != [] {
      var n := |kvs| - 1;
      var init := kvs[..n];
      SomeKeyed(init, base);
      assert Recs(kvs)[..n] == Recs(init);
      assert forall i :: 0 <= i < n ==> init[i] == kvs[i];
      if AnyKeyed(init) {
        var i :| 0 <= i < |init| && init[i].key != [];
        assert kvs[i].key != [];
      }
    }
  }

  /** However far the work gets, an index that is then accepted is right for the longer log. */
  ghost predicate WorkOk(h: Hash, work: IndexWork, index: Option<seq<byte>>, items: seq<Item>, end: nat)
    requires ItemsOk(items)
  {
    IndexOk(h, Finished(work, index), items, end) && forall steps :: IndexOk(h, Interrupted(work, index, steps), items, end)
  }

  /** Work of one step. */
  lemma QuickWork(h: Hash, work: IndexWork, index: Option<seq<byte>>, items: seq<Item>, end: nat)
    requires ItemsOk(items) && !work.Overwrite? && IndexOk(h, index, items, end) && IndexOk(h, Finished(work, index), items, end)
    ensures WorkOk(h, work, index, items, end)
  {
    hide IndexOk;
  }

  /** Writes whose every crash is safe. */
  lemma WriteWork(h: Hash, base: seq<byte>, ws: seq<Write>, index: Option<seq<byte>>, es: seq<Entry>, end: nat, items': seq<Item>, end': nat)
    requires ItemsOk(items') && end < end' && IndexOk(h, index, items', end')
    requires Represents(h, WriteAll(base, ws), Entries(items', 0), end')
    requires forall c :: CrashOf(base, ws, c) ==> CrashSafe(h, c, es, end, Entries(items', 0), end')
    ensures WorkOk(h, Overwrite(base, ws), index, items', end')
  {
    hide IndexOk, WriteAll, WriteUpTo, CrashOf, CrashSafe, Represents, Entries;
    IndexOkIf(h, WriteAll(base, ws), items', end');
    forall steps: nat ensures IndexOk(h, Interrupted(Overwrite(base, ws), index, steps), items', end') {
      if steps > 0 {
        StopIsCrash(base, ws, steps - 1);
        SafeIsOk(h, WriteUpTo(base, ws, steps - 1), es, end, items', end');
      }
    }
  }

  lemma SafeIsOk(h: Hash, c: seq<byte>, es: seq<Entry>, end: nat, items': seq<Item>, end': nat)
    requires ItemsOk(items') && end < end' && CrashSafe(h, c, es, end, Entries(items', 0), end')
    ensures IndexOk(h, Some(c), items', end')
  {
    hide ReadHeader, Represents, Entries;
    if ReadHeader(c).Some? {
      assert Accepts(c, ReadHeader(c).value.coveredEnd);
    }
  }

  /** `appendBufferLogPhysicalIndexEntries`: create, extend, rebuild, leave stale or remove. */
  method IndexAfterAppend(h: Hash, index: Option<seq<byte>>, log': seq<byte>, appendOffset: nat, kvs: seq<Kv>, blockId: u64, ghost items: seq<Item>)
    returns (work: IndexWork)
    requires ItemsOk(items) && AllFramable(kvs) && kvs != [] && appendOffset == |Encode(items)|
    requires ItemsOk(items + AppendItems(kvs, blockId)) && log' == Encode(items + AppendItems(kvs, blockId)) && |log'| < MAX_FILE_SIZE
    requires IndexOk(h, index, items, appendOffset)
    ensures WorkOk(h, work, index, items + AppendItems(kvs, blockId), |log'|)
    ensures Decided(index, Finished(work, index), kvs, appendOffset, |log'|)
    ensures appendOffset != 0 && Current(index, appendOffset) && AnyKeyed(kvs) ==>
              var m := ReadHeader(index.value).value;
              if m.recordCount as int + |Entries(Recs(kvs), appendOffset)| > m.bucketCount as int * 128 then work.Rename?
              else work.Overwrite? && work.base == index.value
  {
    hide Encode, Entries, IndexOk, Represents, Complete, CrashOf, CrashSafe, Extended, ReadHeader, Recs, IsPowerOfTwo, HeadAt, WorkOk, WriteAll,
         AppendWrites, CreateWrites;
    ghost var items' := items + AppendItems(kvs, blockId);
    ghost var es, es' := Entries(items, 0), Entries(items', 0);
    AppendEntries(items, kvs, blockId);
    RecsSize(kvs);
    EntriesBounded(items, 0);
    StaleIndexOk(h, index, items, appendOffset, items', |log'|);
    IndexOkNone(h, items', |log'|);
    var added := CountKeyed(kvs, appendOffset);
    SomeKeyed(kvs, appendOffset);
    var current := index.Some? && ReadHeader(index.value).Some? && ReadHeader(index.value).value.coveredEnd == appendOffset;
    if added == 0 {
      work := if appendOffset != 0 && !current then Remove else Keep;
      QuickWork(h, work, index, items', |log'|);
      return;
    }
    if appendOffset == 0 {
      work := CreateWork(h, index, log', added, kvs, items, items');
      return;
    }
    if !current {
      work := Remove;
      QuickWork(h, work, index, items', |log'|);
      return;
    }
    var f := index.value;
    var meta := ReadHeader(f).value;
    IndexOkGives(h, f, items, appendOffset);
    if meta.recordCount + added > meta.bucketCount * REBUILD_CHAIN {
      var rebuilt := RebuildIndex(h, log', items');
      assert es' != [];
      work := if rebuilt.Some? then Rename(rebuilt.value) else Remove;
      if rebuilt.Some? {
        IndexOkIf(h, rebuilt.value, items', |log'|);
        AcceptedIf(h, rebuilt.value, es', |log'|);
      }
      QuickWork(h, work, index, items', |log'|);
      return;
    }
    var heads := ReadHeads(f, meta.bucketCount);
    var g, p, hw := ExtendIndex(h, f, meta.bucketCount, meta.recordCount, appendOffset, |log'|, kvs, heads, es);
    ExtendedGives(h, f, g, es, es', appendOffset, |log'|, meta.bucketCount, p, hw);
    ExtendedIs(h, f, g, es, es', appendOffset, |log'|, meta.bucketCount, p, hw);
    CompleteRepresents(h, g, es', |log'|, meta.bucketCount);
    AcceptedIf(h, g, es', |log'|);
    work := Overwrite(f, AppendWrites(p, meta.recordCount, meta.bucketCount, hw, |log'|, meta.recordCount + added));
    WriteWork(h, f, work.ws, index, es, appendOffset, items', |log'|);
  }

  /** The first keyed append creates the file. */
  method CreateWork(h: Hash, index: Option<seq<byte>>, log': seq<byte>, added: nat, kvs: seq<Kv>, ghost items: seq<Item>, ghost items': seq<Item>)
    returns (work: IndexWork)
    requires ItemsOk(items) && |Encode(items)| == 0 && ItemsOk(items') && AllFramable(kvs) && IndexOk(h, index, items', |log'|)
    requires Entries(items', 0) == Entries(items, 0) + Entries(Recs(kvs), 0) && added == |Entries(Recs(kvs), 0)| > 0
    requires |kvs| <= |Encode(Recs(kvs))| <= |log'| < MAX_FILE_SIZE && 0 < |log'|
    ensures WorkOk(h, work, index, items', |log'|)
    ensures Finished(work, index).Some? && Accepts(Finished(work, index).value, |log'|)
  {
    hide Encode, Entries, IndexOk, Represents, Complete, CrashOf, CrashSafe, Extended, ReadHeader, Recs, IsPowerOfTwo, HeadAt, WorkOk, WriteAll,
         AppendWrites, CreateWrites;
    NoEntries(items);
    ghost var es' := Entries(items', 0);
    assert es' == Entries(Recs(kvs), 0);
    EntriesBounded(Recs(kvs), 0);
    var n := BucketCountForRecords(added);
    var g, p, hw := CreateIndex(h, n, |log'|, kvs);
    CompleteRepresents(h, g, es', |log'|, n);
    AcceptedIf(h, g, es', |log'|);
    work := Overwrite([], CreateWrites(n, AppendWrites(p, 0, n, hw, |log'|, added)));
    WriteWork(h, [], work.ws, index, [], 0, items', |log'|);
  }

  lemma NoEntries(items: seq<Item>)
    requires ItemsOk(items) && |Encode(items)| == 0
    ensures items == [] && Entries(items, 0) == [] && RefMap(items) == map[]
  {
    hide EncodeItem;
  }

  lemma IndexOkGives(h: Hash, f: seq<byte>, items: seq<Item>, end: u64)
    requires ItemsOk(items) && IndexOk(h, Some(f), items, end) && Accepts(f, end)
    requires |Entries(items, 0)| < MAX_FILE_SIZE && end < MAX_FILE_SIZE
    ensures var m := ReadHeader(f).value;
            m.recordCount == |Entries(items, 0)| && m.bucketCount < 0x1_0000_0000 && Complete(h, f, Entries(items, 0), end, m.bucketCount)
  {
    hide Entries, HeadsHold, RecordsHold, IsPowerOfTwo, Get64, Get32, Get16;
    RepresentsComplete(h, f, Entries(items, 0), end);
  }

  lemma WorkDone(h: Hash, work: IndexWork, index: Option<seq<byte>>, items: seq<Item>, end: nat, steps: nat)
    requires ItemsOk(items) && WorkOk(h, work, index, items, end)
    ensures IndexOk(h, Finished(work, index), items, end) && IndexOk(h, Interrupted(work, index, steps), items, end)
  {
    hide IndexOk;
  }

  /** How many items a cut after the last tag leaves. */
  ghost function CommittedCount(items: seq<Item>): (n: nat)
    ensures n <= |items|
  {
    if items == [] then 0 else if items[|items| - 1].Tag? then |items| else CommittedCount(items[..|items| - 1])
  }

  /** The scan's last tag is the end of the committed items. */
  lemma {:induction false} TagSeenIs(items: seq<Item>)
    requires ItemsOk(items)
    ensures var n := CommittedCount(items);
            TagSeen(items, 0, None) == if n == 0 then None else Some(|Encode(items[..n])|)
    decreases |items|
  {
    hide Encode, TagSeen;
    if items == [] {
      assert TagSeen(items, 0, None) == None by { NothingSeen(); }
    } else {
      var init, last := items[..|items| - 1], items[|items| - 1];
      TagSeenIs(init);
      assert items == init + [last];
      SeenSnoc(init, last, 0, None);
      EncodeSize(items);
      EncodeSize(init);
      var n := CommittedCount(items);
      if last.Tag? {
        assert items[..n] == items;
      } else {
        assert items[..n] == init[..n];
      }
    }
  }

  lemma NothingSeen()
    ensures TagSeen([], 0, None) == None
  {
  }

  lemma {:induction false} SeenSnoc(items: seq<Item>, it: Item, c: nat, found: Option<nat>)
    requires found.Some? ==> found.value <= c
    ensures ItemsSize(items + [it]) == ItemsSize(items) + ItemSize(it)
    ensures TagSeen(items + [it], c, found) == if it.Tag? then Some(c + ItemsSize(items + [it])) else TagSeen(items, c, found)
    decreases |items|
  {
    var all := items + [it];
    if items == [] {
      assert all[1..] == [];
    } else {
      assert all[1..] == items[1..] + [it];
      var n := c + ItemSize(items[0]);
      SeenSnoc(items[1..], it, n, if items[0].Tag? then Some(n) else found);
    }
  }

  /** What recovery leaves of a log with a torn append: everything up to its last tag, or, when it has
      none, the log and the torn bytes. */
  lemma TrimmedLog(items: seq<Item>, kvs: seq<Kv>, blockId: u64, torn: seq<byte>)
    requires ItemsOk(items) && AllFramable(kvs) && blockId != 0 && torn < Encode(AppendItems(kvs, blockId))
    ensures var n, p := CommittedCount(items), Encode(items) + torn;
            && ItemsOk(items[..n]) && Encode(items[..n]) <= Encode(items)
            && Trim(p, false) == if n > 0 then Encode(items[..n]) else p
  {
    hide Encode, EncodeItem, ReadItem, LastTagEnd, TagSeen, CommittedCount;
    var n := CommittedCount(items);
    var kept, p := items[..n], Encode(items) + torn;
    assert [] + Encode(items) + torn == p;
    ScanItems([], items, torn, None);
    EncodeSize(items);
    TagSeenIs(items);
    assert AppendItems(kvs, blockId) == BatchItems(Batch(kvs, blockId));
    ScanTorn(Encode(items), kvs, blockId, torn, TagSeen(items, 0, None));
    EncodeConcat(kept, items[n..]);
    assert items == kept + items[n..];
    assert p[..|Encode(kept)|] == Encode(kept);
  }

  /** Recovery leaves exactly what was committed if and only if a tag was ever written, or there is
      nothing to cut. */
  lemma TrimCommittedIff(items: seq<Item>, kvs: seq<Kv>, blockId: u64, torn: seq<byte>)
    requires ItemsOk(items) && AllFramable(kvs) && blockId != 0 && torn < Encode(AppendItems(kvs, blockId))
    ensures var n, p := CommittedCount(items), Encode(items) + torn;
            ItemsOk(items[..n]) && (Trim(p, false) == Encode(items[..n]) <==> n > 0 || p == [])
  {
    hide Encode, CommittedCount, AppendItems, Trim;
    TrimmedLog(items, kvs, blockId, torn);
    EmptyLog(0);
    assert items[..0] == [];
  }

  /** The files and memory of one account's buffer log. Every method keeps `Valid`, so lookups are
      right after any history of appends, index losses, rebuilds and memory evictions. */
  class BufferLog {
    const h: Hash
    var log: seq<byte>
    var index: Option<seq<byte>>
    var memory: Option<map<seq<byte>, Ref>>
    ghost var items: seq<Item>

    ghost predicate Valid()
      reads this
    {
      && ItemsOk(items) && log == Encode(items) && |log| < MAX_FILE_SIZE
      && IndexOk(h, index, items, |log|)
      && (memory.Some? ==> memory.value == RefMap(items))
    }

    constructor (hash: Hash)
      ensures Valid() && items == [] && h == hash
    {
      h := hash;
      log, index, memory, items := [], None, None, [];
    }

    /** `appendBufferLogEntries`. */
    method Append(kvs: seq<Kv>, blockId: u64) returns (ok: bool)
      requires Valid() && NoBlanks(kvs)
      requires AllFramable(kvs) ==> |log| + |Encode(AppendItems(kvs, blockId))| < MAX_FILE_SIZE
      modifies this
      ensures Valid() && ok == AllFramable(kvs)
      ensures items == if ok && kvs != [] then old(items) + AppendItems(kvs, blockId) else old(items)
      ensures log == if ok && kvs != [] then old(log) + Encode(AppendItems(kvs, blockId)) else old(log)
      ensures if ok && kvs != [] then Decided(old(index), index, kvs, |old(log)|, |log|) else index == old(index)
      ensures memory.Some? <==> old(memory).Some? || (ok && kvs != [] && old(log) == [])
    {
      hide Encode, RefMap, IndexOk, Recs, Framable, WorkOk, AppendItems, Finished, Decided;
      var payload;
      ok, payload := Frame(kvs, blockId);
      if !ok || kvs == [] {
        return;
      }
      var appendOffset := |log|;
      EncodeConcat(items, AppendItems(kvs, blockId));
      log := log + payload;
      var work := IndexAfterAppend(h, index, log, appendOffset, kvs, blockId, items);
      WorkDone(h, work, index, items + AppendItems(kvs, blockId), |log|, 0);
      index := Finished(work, index);
      if memory.Some? || appendOffset == 0 {
        if appendOffset == 0 {
          NoEntries(items);
        }
        var m := if memory.Some? then memory.value else map[];
        m := UpdateMemory(m, appendOffset, kvs, blockId, items);
        memory := Some(m);
      }
      items := items + AppendItems(kvs, blockId);
    }

    /** The same append when the machine stops some steps into the index work, and the next start:
        memory is gone and the index file is whatever was left. Lookups are still never wrong. */
    method AppendInterrupted(kvs: seq<Kv>, blockId: u64, steps: nat) returns (ok: bool, ghost work: IndexWork)
      requires Valid() && NoBlanks(kvs)
      requires AllFramable(kvs) ==> |log| + |Encode(AppendItems(kvs, blockId))| < MAX_FILE_SIZE
      modifies this
      ensures Valid() && ok == AllFramable(kvs) && memory == None
      ensures items == if ok && kvs != [] then old(items) + AppendItems(kvs, blockId) else old(items)
      ensures log == if ok && kvs != [] then old(log) + Encode(AppendItems(kvs, blockId)) else old(log)
      ensures ok && kvs != [] && steps >= StepsOf(work) ==> Decided(old(index), index, kvs, |old(log)|, |log|)
      ensures !ok || kvs == [] || steps == 0 ==> index == old(index)
    {
      hide Encode, RefMap, IndexOk, Recs, Framable, WorkOk, AppendItems, Decided, StepsOf, Finished;
      var payload;
      memory := None;
      work := Keep;
      ok, payload := Frame(kvs, blockId);
      if !ok || kvs == [] {
        return;
      }
      var appendOffset := |log|;
      EncodeConcat(items, AppendItems(kvs, blockId));
      log := log + payload;
      var todo := IndexAfterAppend(h, index, log, appendOffset, kvs, blockId, items);
      WorkDone(h, todo, index, items + AppendItems(kvs, blockId), |log|, steps);
      work := todo;
      if steps >= StepsOf(work) {
        EnoughSteps(work, index, steps);
      }
      index := Interrupted(todo, index, steps);
      items := items + AppendItems(kvs, blockId);
    }

    /** The framed batch and its tag. */
    method Frame(kvs: seq<Kv>, blockId: u64) returns (ok: bool, payload: seq<byte>)
      requires NoBlanks(kvs)
      ensures ok == AllFramable(kvs) && (ok ==> payload == Encode(AppendItems(kvs, blockId)))
    {
      hide Encode, Framable;
      var seg;
      ok, seg := Serialize(kvs);
      payload := seg;
      if ok {
        EncodeConcat(Recs(kvs), [Tag(blockId)]);
        EncodeOne(Tag(blockId));
        assert blockId == 0 ==> AppendItems(kvs, blockId) == Recs(kvs);
        payload := if blockId == 0 then seg else seg + EncodeItem(Tag(blockId));
      }
    }

    /** A tagged append interrupted while the log itself was written, and the recovery of the next
        start: the log is cut after its last tag and the index removed. A log without any tag is not
        cut, and keeps the torn bytes. */
    method RecoverTornAppend(kvs: seq<Kv>, blockId: u64, written: nat)
      requires Valid() && AllFramable(kvs) && blockId != 0 && written < |Encode(AppendItems(kvs, blockId))|
      modifies this
      ensures index == None && memory == None
      ensures Valid() <==> CommittedCount(old(items)) > 0 || written == 0
      ensures CommittedCount(old(items)) > 0 ==> items == old(items)[..CommittedCount(old(items))]
      ensures CommittedCount(old(items)) == 0 ==> items == old(items) && log == old(log) + Encode(AppendItems(kvs, blockId))[..written]
    {
      hide Encode, RefMap, CommittedCount, AppendItems, Trim;
      var ok, payload := Frame(kvs, blockId);
      log := log + payload[..written];
      log := Trim(log, false);
      index, memory := None, None;
      TrimmedLog(items, kvs, blockId, payload[..written]);
      if CommittedCount(items) > 0 {
        items := items[..CommittedCount(items)];
      }
    }

    /** The index file disappears: recovery and stale appends remove it. */
    method DropIndex()
      requires Valid()
      modifies this`index
      ensures Valid() && index == None
    {
      index := None;
    }

    /** The memory budget evicts this account's map. */
    method EvictMemory()
      requires Valid()
      modifies this`memory
      ensures Valid() && memory == None
    {
      memory := None;
    }

    /** `maybeRebuildBufferLogPhysicalIndex`. */
    method MaybeRebuild()
      requires Valid()
      modifies this`index
      ensures Valid()
      ensures Entries(items, 0) != [] ==> index.Some? && Accepts(index.value, |log|)
      ensures old(Current(index, |log|)) ==> index == old(index)
    {
      hide Encode, RefMap, IndexOk, Entries, ReadHeader, Represents;
      if index.Some? && ReadHeader(index.value).Some? && ReadHeader(index.value).value.coveredEnd == |log| {
        return;
      }
      var r := RebuildIndex(h, log, items);
      if r.Some? {
        IndexOkIf(h, r.value, items, |log|);
        AcceptedIf(h, r.value, Entries(items, 0), |log|);
        index := r;
      }
    }

    /** `buildBufferLogIndexForAccount` / `getBufferLogIndex`: the map that answers from memory. */
    method Memory() returns (m: map<seq<byte>, Ref>)
      requires Valid()
      modifies this`memory, this`index
      ensures Valid() && m == RefMap(items) && memory == Some(m)
    {
      hide Encode, RefMap, IndexOk;
      if memory.Some? {
        return memory.value;
      }
      var ok;
      ok, m := BuildMemory(log, items);
      MaybeRebuild();
      memory := Some(m);
    }

    /** A disk-index read never changes anything and never lies. */
    method Lookup(key: seq<byte>) returns (r: Lookup)
      requires Valid()
      ensures r.NotUsable? <==> (index.None? || !Accepts(index.value, |log|))
      ensures r.Found? ==> key in RefMap(items) && r.ref == RefMap(items)[key]
      ensures r.Absent? ==> key !in RefMap(items)
    {
      hide Encode, RefMap, Entries, ReadHeader, Represents;
      if index.None? {
        return NotUsable;
      }
      r := LookupRef(h, index.value, log, key, items);
    }
  }

  lemma AcceptedIf(h: Hash, f: seq<byte>, es: seq<Entry>, end: int)
    requires Represents(h, f, es, end)
    ensures Accepts(f, end)
  {
  }
}
