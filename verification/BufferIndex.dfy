/** The per-account buffer log and its on-disk hash-chain index (`buffer.log`, `buffer.idx`).

    The index file is a 40-byte header, a table of bucket heads and one fixed-size record per
    log record; a record names the previous record of its bucket, so each bucket is a chain from
    newest to oldest.  The hash function is a parameter: nothing here depends on collisions. */
module BufferIndex {
  import opened Bytes
  import opened ForwardLog

  const INDEX_MAGIC: u32 := 0x424c4958
  const INDEX_VERSION: u16 := 3
  const INDEX_HEADER_SIZE := 40
  const RECORD_SIZE := 24
  const HEAD_SIZE := 8
  const MIN_BUCKETS := 1024
  const MAX_BUCKETS := 0x40_0000
  const TARGET_CHAIN := 16
  const REBUILD_CHAIN := 128
  const MAX_FILE_SIZE := 0x8000_0000_0000_0000 // file sizes are int64

  type Hash = seq<byte> -> u64

  /** Where a value lies in the log (`bufferLogEntryRef`). */
  datatype Ref = Ref(valOff: nat, valLen: nat)

  /** A log record as the index sees it. */
  datatype Entry = Entry(off: nat, key: seq<byte>, valLen: nat)

  // ----- the log's meaning

  /** Last-write-wins scan of the log: for each key, the value range of its last record. */
  function RefMap(items: seq<Item>): map<seq<byte>, Ref>
    requires ItemsOk(items)
  {
    if items == [] then map[]
    else
      var init, last := items[..|items| - 1], items[|items| - 1];
      if last.Rec? && last.kv.key != [] then
        RefMap(init)[last.kv.key := Ref(|Encode(init)| + HEADER_SIZE + |last.kv.key|, |last.kv.val|)]
      else RefMap(init)
  }

  /** The records of `items`, written from offset `base` on. Records with empty keys are not indexed. */
  function Entries(items: seq<Item>, base: nat): (es: seq<Entry>)
    requires ItemsOk(items)
  {
    if items == [] then []
    else
      var init, last := items[..|items| - 1], items[|items| - 1];
      Entries(init, base)
      + if last.Rec? && last.kv.key != [] then [Entry(base + |Encode(init)|, last.kv.key, |last.kv.val|)] else []
  }

  function EntryRef(e: Entry): Ref {
    Ref(e.off + HEADER_SIZE + |e.key|, e.valLen)
  }

  /** Index of the last entry for `key`, -1 if there is none. */
  function LastWrite(es: seq<Entry>, key: seq<byte>): (r: int)
    ensures -1 <= r < |es|
    ensures r >= 0 ==> es[r].key == key
    ensures forall i :: r < i < |es| ==> es[i].key != key
  {
    if es == [] then -1
    else if es[|es| - 1].key == key then |es| - 1
    else LastWrite(es[..|es| - 1], key)
  }

  lemma {:induction false} EntriesConcat(a: seq<Item>, b: seq<Item>, base: nat)
    requires ItemsOk(a) && ItemsOk(b)
    ensures ItemsOk(a + b)
    ensures Entries(a + b, base) == Entries(a, base) + Entries(b, base + |Encode(a)|)
    decreases |b|
  {
    hide EncodeItem;
    if b == [] {
      assert a + b == a;
    } else {
      var init := b[..|b| - 1];
      EntriesConcat(a, init, base);
      assert (a + b)[..|a + b| - 1] == a + init;
      assert (a + b)[|a + b| - 1] == b[|b| - 1];
      EncodeConcat(a, init);
    }
  }

  /** Offsets and counts stay within the log. */
  lemma {:induction false} EntriesBounded(items: seq<Item>, base: nat)
    requires ItemsOk(items)
    ensures var es := Entries(items, base);
            |es| <= |Encode(items)| &&
            forall i :: 0 <= i < |es| ==> es[i].off < base + |Encode(items)|
  {
    hide EncodeItem;
    if items != [] {
      var init, last := items[..|items| - 1], items[|items| - 1];
      EntriesBounded(init, base);
      EncodeConcat(init, [last]);
      assert items == init + [last];
      EncodeOne(last);
    }
  }

  /** The record at an entry's offset reads back with the entry's key and value length. */
  lemma {:induction false} EntryReadsBack(items: seq<Item>, tail: seq<byte>, i: nat)
    requires ItemsOk(items) && i < |Entries(items, 0)|
    ensures var e := Entries(items, 0)[i];
            e.key != [] &&
            ReadItem(Encode(items) + tail, e.off) ==
              AtRec(e.key, e.off + HEADER_SIZE + |e.key|, e.valLen, e.off + HEADER_SIZE + |e.key| + e.valLen)
    decreases |items|
  {
    hide EncodeItem, ReadItem;
    var init, last := items[..|items| - 1], items[|items| - 1];
    EncodeConcat(init, [last]);
    assert items == init + [last];
    EncodeOne(last);
    assert Encode(items) + tail == Encode(init) + EncodeItem(last) + tail;
    if i < |Entries(init, 0)| {
      EntryReadsBack(init, EncodeItem(last) + tail, i);
      assert Encode(items) + tail == Encode(init) + (EncodeItem(last) + tail);
    } else {
      ReadWholeItem(Encode(init), last, tail);
    }
  }

  /** The scan's map is the last write of each key among the entries. */
  lemma {:induction false} RefMapIsLastWrite(items: seq<Item>, key: seq<byte>)
    requires ItemsOk(items)
    ensures var es := Entries(items, 0);
            var i := LastWrite(es, key);
            if i < 0 then key !in RefMap(items) else key in RefMap(items) && RefMap(items)[key] == EntryRef(es[i])
  {
    hide EncodeItem;
    if items != [] {
      var init, last := items[..|items| - 1], items[|items| - 1];
      var es0, es := Entries(init, 0), Entries(items, 0);
      RefMapIsLastWrite(init, key);
      if last.Rec? && last.kv.key != [] {
        assert es[..|es| - 1] == es0;
      } else {
        assert es == es0;
      }
    }
  }

  /** The value range the map names holds the bytes of the key's last record. */
  lemma {:induction false} RefMapReadsValue(items: seq<Item>, i: nat)
    requires ItemsOk(items) && i < |items| && items[i].Rec? && items[i].kv.key != []
    requires forall j :: i < j < |items| && items[j].Rec? ==> items[j].kv.key != items[i].kv.key
    ensures var kv := items[i].kv;
            kv.key in RefMap(items) &&
            var ref := RefMap(items)[kv.key];
            ref.valOff + ref.valLen <= |Encode(items)| &&
            Encode(items)[ref.valOff..ref.valOff + ref.valLen] == kv.val
    decreases |items|
  {
    hide EncodeItem;
    var kv := items[i].kv;
    var init, last := items[..|items| - 1], items[|items| - 1];
    assert items == init + [last];
    EncodeOne(last);
    EncodeConcat(init, [last]);
    var a, e := Encode(init), EncodeItem(last);
    if i == |init| {
      RecordTail(kv);
      var off := |a| + HEADER_SIZE + |kv.key|;
      assert (a + e)[off..off + |kv.val|] == e[HEADER_SIZE + |kv.key|..];
    } else {
      RefMapReadsValue(init, i);
      var ref := RefMap(init)[kv.key];
      assert (a + e)[ref.valOff..ref.valOff + ref.valLen] == a[ref.valOff..ref.valOff + ref.valLen];
    }
  }

  lemma RecordTail(kv: Kv)
    requires Framable(kv)
    ensures EncodeItem(Rec(kv))[HEADER_SIZE + |kv.key|..] == kv.val
  {
    hide Put16;
  }

  // ----- the index file

  predicate IsPowerOfTwo(n: nat) {
    n == 1 || (n > 1 && n % 2 == 0 && IsPowerOfTwo(n / 2))
  }

  datatype Meta = Meta(coveredEnd: int, recordCount: nat, bucketCount: nat)

  function AsInt64(v: u64): int {
    if v < MAX_FILE_SIZE then v else v as int - 0x1_0000_0000_0000_0000
  }

  function RecordsOffset(bucketCount: nat): nat {
    INDEX_HEADER_SIZE + bucketCount * HEAD_SIZE
  }

  /** `readBufferLogDiskIndexHeader` on a whole file. */
  function ReadHeader(f: seq<byte>): (m: Option<Meta>)
    ensures m.Some? ==> m.value.bucketCount > 0
    ensures m.Some? ==> |f| == RecordsOffset(m.value.bucketCount) + m.value.recordCount * RECORD_SIZE
  {
    if |f| < INDEX_HEADER_SIZE then None
    else if Get32(f[0..4]) != INDEX_MAGIC || Get16(f[4..6]) != INDEX_VERSION then None
    else
      var n := Get64(f[24..32]) as int;
      if n == 0 || !IsPowerOfTwo(n) || n > MAX_BUCKETS || |f| < RecordsOffset(n) then None
      else
        var recordBytes := |f| - RecordsOffset(n);
        if recordBytes % RECORD_SIZE != 0 || recordBytes / RECORD_SIZE != Get64(f[16..24]) then None
        else Some(Meta(AsInt64(Get64(f[8..16])), Get64(f[16..24]), n))
  }

  function HeaderBytes(end: u64, count: u64, bucketCount: u64): (s: seq<byte>)
    ensures |s| == INDEX_HEADER_SIZE
  {
    Put32(INDEX_MAGIC) + Put16(INDEX_VERSION) + Put16(0) + Put64(end) + Put64(count) + Put64(bucketCount) + Put64(0)
  }

  /** The bytes of the header: `BLIX`, version 3, covered end, record count and bucket count. */
  lemma FormatExample()
    ensures HeaderBytes(0x0102, 5, 0x0400) ==
            [0x42, 0x4c, 0x49, 0x58, 0, 3, 0, 0] + [0, 0, 0, 0, 0, 0, 1, 2] + [0, 0, 0, 0, 0, 0, 0, 5] + [0, 0, 0, 0, 0, 0, 4, 0] + [0, 0, 0, 0, 0, 0, 0, 0]
  {
    hide Put64, Put32, Put16;
    MagicBytes();
    Small64(0x0102, 1, 2);
    Small64(5, 0, 5);
    Small64(0x0400, 4, 0);
    Small64(0, 0, 0);
  }

  lemma MagicBytes()
    ensures Put32(INDEX_MAGIC) + Put16(INDEX_VERSION) + Put16(0) == [0x42, 0x4c, 0x49, 0x58, 0, 3, 0, 0]
  {
    assert Put32(0x424c4958) == [0x42, 0x4c, 0x49, 0x58];
  }

  lemma HeaderFields(end: u64, count: u64, n: u64)
    ensures var s := HeaderBytes(end, count, n);
            s[0..4] == Put32(INDEX_MAGIC) && s[4..6] == Put16(INDEX_VERSION) &&
            s[8..16] == Put64(end) && s[16..24] == Put64(count) && s[24..32] == Put64(n)
  {
    hide Put32, Put16, Put64;
  }

  function HeadAt(f: seq<byte>, b: nat): u64
    requires INDEX_HEADER_SIZE + (b + 1) * HEAD_SIZE <= |f|
  {
    Get64(f[INDEX_HEADER_SIZE + b * HEAD_SIZE..INDEX_HEADER_SIZE + (b + 1) * HEAD_SIZE])
  }

  datatype IndexRecord = IndexRecord(keyHash: u64, logOffset: int, prev: u64)

  function DecodeRecord(s: seq<byte>): IndexRecord
    requires |s| == RECORD_SIZE
  {
    IndexRecord(Get64(s[0..8]), AsInt64(Get64(s[8..16])), Get64(s[16..24]))
  }

  function EncodeRecord(keyHash: u64, logOffset: u64, prev: u64): (s: seq<byte>)
    ensures |s| == RECORD_SIZE
    ensures DecodeRecord(s) == IndexRecord(keyHash, AsInt64(logOffset), prev)
  {
    var s := Put64(keyHash) + Put64(logOffset) + Put64(prev);
    assert s[0..8] == Put64(keyHash) && s[8..16] == Put64(logOffset) && s[16..24] == Put64(prev);
    s
  }

  function RecordAt(f: seq<byte>, n: nat, i: nat): IndexRecord
    requires RecordsOffset(n) + (i + 1) * RECORD_SIZE <= |f|
  {
    DecodeRecord(f[RecordsOffset(n) + i * RECORD_SIZE..RecordsOffset(n) + (i + 1) * RECORD_SIZE])
  }

  function Bucket(h: Hash, key: seq<byte>, n: nat): (b: nat)
    requires n > 0
    ensures b < n
  {
    h(key) as int % n
  }

  /** One-based id of the newest of the first `k` entries in bucket `b`, 0 if there is none. */
  function Latest(h: Hash, es: seq<Entry>, k: nat, b: nat, n: nat): (id: nat)
    requires k <= |es| && n > 0
    ensures id <= k
    ensures id != 0 ==> Bucket(h, es[id - 1].key, n) == b
    ensures forall i :: id <= i < k ==> Bucket(h, es[i].key, n) != b
  {
    if k == 0 then 0
    else if Bucket(h, es[k - 1].key, n) == b then k
    else Latest(h, es, k - 1, b, n)
  }

  lemma {:induction false} LatestPrefix(h: Hash, es: seq<Entry>, more: seq<Entry>, k: nat, b: nat, n: nat)
    requires k <= |es| && n > 0
    ensures Latest(h, es + more, k, b, n) == Latest(h, es, k, b, n)
    decreases k
  {
    if k != 0 {
      LatestPrefix(h, es, more, k - 1, b, n);
    }
  }

  /** The record the index must hold for entry `i`. */
  function WantRecord(h: Hash, es: seq<Entry>, i: nat, n: nat): IndexRecord
    requires i < |es| <= MAX_FILE_SIZE && n > 0
  {
    IndexRecord(h(es[i].key), es[i].off, Latest(h, es, i, Bucket(h, es[i].key, n), n))
  }

  ghost predicate HeadsHold(h: Hash, f: seq<byte>, es: seq<Entry>, n: nat)
    requires n > 0 && RecordsOffset(n) <= |f|
  {
    forall b :: 0 <= b < n ==> HeadAt(f, b) == Latest(h, es, |es|, b, n)
  }

  ghost predicate RecordsHold(h: Hash, f: seq<byte>, es: seq<Entry>, n: nat)
    requires n > 0 && RecordsOffset(n) + |es| * RECORD_SIZE <= |f| && |es| <= MAX_FILE_SIZE
  {
    forall i :: 0 <= i < |es| ==> RecordAt(f, n, i) == WantRecord(h, es, i, n)
  }

  /** The file is accepted for a log of `end` bytes. */
  predicate Accepts(f: seq<byte>, end: int) {
    ReadHeader(f).Some? && ReadHeader(f).value.coveredEnd == end
  }

  /** The file is an index of exactly the entries `es`, covering `end` bytes of log. */
  ghost predicate Represents(h: Hash, f: seq<byte>, es: seq<Entry>, end: int) {
    && Accepts(f, end)
    && var m := ReadHeader(f).value;
    && m.recordCount == |es| <= MAX_FILE_SIZE
    && HeadsHold(h, f, es, m.bucketCount)
    && RecordsHold(h, f, es, m.bucketCount)
  }

  // ----- lookup

  datatype Lookup = NotUsable | Absent | Found(ref: Ref)

  /** `readBufferLogRecordRef` without an expected key. */
  function ReadRecordRef(log: seq<byte>, off: int): Option<(seq<byte>, Ref)> {
    if off < 0 || off + HEADER_SIZE > |log| then None
    else
      var klen := Get16(log[off..off + 2]) as int;
      var vlen := Get16(log[off + 2..off + 4]) as int;
      if klen <= 0 || off + HEADER_SIZE + klen + vlen > |log| then None
      else Some((log[off + 4..off + 4 + klen], Ref(off + HEADER_SIZE + klen, vlen)))
  }

  lemma ReadRecordRefAgrees(log: seq<byte>, off: nat)
    requires ReadItem(log, off).AtRec? && ReadItem(log, off).key != []
    ensures var r := ReadItem(log, off);
            ReadRecordRef(log, off) == Some((r.key, Ref(r.valOff, r.valLen)))
  {
    hide Get16;
  }

  /** What one step of the chain walk reads from the two files. */
  lemma ChainStepReads(h: Hash, f: seq<byte>, items: seq<Item>, id: nat)
    requires ItemsOk(items) && Represents(h, f, Entries(items, 0), |Encode(items)|)
    requires 0 < id <= |Entries(items, 0)|
    ensures var es, n := Entries(items, 0), ReadHeader(f).value.bucketCount;
            var e := es[id - 1];
            RecordAt(f, n, id - 1) == IndexRecord(h(e.key), e.off, Latest(h, es, id - 1, Bucket(h, e.key, n), n)) &&
            ReadRecordRef(Encode(items), e.off) == Some((e.key, EntryRef(e)))
  {
    hide Encode, Entries, ReadItem, Latest, ReadRecordRef, ReadHeader, RecordAt, HeadAt;
    EntryReadsBack(items, [], id - 1);
    assert Encode(items) + [] == Encode(items);
    ReadRecordRefAgrees(Encode(items), Entries(items, 0)[id - 1].off);
  }

  /** `lookupBufferLogPhysicalIndexRef`: whenever the header is accepted, walking one bucket's
      chain answers exactly like the last-write-wins scan, and never exhausts its step budget. */
  method LookupRef(h: Hash, f: seq<byte>, log: seq<byte>, key: seq<byte>, ghost items: seq<Item>) returns (r: Lookup)
    requires ItemsOk(items) && log == Encode(items)
    requires Accepts(f, |log|) ==> Represents(h, f, Entries(items, 0), |log|)
    ensures r.NotUsable? <==> !Accepts(f, |log|)
    ensures r.Found? ==> key in RefMap(items) && r.ref == RefMap(items)[key]
    ensures r.Absent? ==> key !in RefMap(items)
  {
    hide Encode, RefMap, Entries, ReadHeader, RecordAt, HeadAt, ReadRecordRef, Bucket, Latest, LastWrite;
    var header := ReadHeader(f);
    if header.None? || header.value.coveredEnd != |log| {
      return NotUsable;
    }
    var meta := header.value;
    ghost var es := Entries(items, 0);
    RefMapIsLastWrite(items, key);
    var bucket := Bucket(h, key, meta.bucketCount);
    var id := HeadAt(f, bucket);
    ghost var k := |es|;
    var steps := 0;
    while id != 0 && steps < meta.recordCount
      invariant 0 <= k <= |es|
      invariant id == Latest(h, es, k, bucket, meta.bucketCount)
      invariant forall j :: k <= j < |es| ==> es[j].key != key
      invariant id != 0 ==> steps + id <= meta.recordCount
      decreases id
    {
      ChainStepReads(h, f, items, id);
      var rec := RecordAt(f, meta.bucketCount, id - 1);
      assert forall j :: id <= j < k ==> es[j].key != key;
      if rec.keyHash == h(key) {
        var at := ReadRecordRef(log, rec.logOffset);
        if at.None? {
          return NotUsable;
        }
        if at.value.0 == key {
          assert LastWrite(es, key) == id - 1;
          return Found(at.value.1);
        }
      }
      k := id - 1;
      id := rec.prev;
      steps := steps + 1;
    }
    if id != 0 {
      return NotUsable;
    }
    r := Absent;
  }
}
