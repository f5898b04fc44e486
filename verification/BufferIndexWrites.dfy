/** How the buffer-log index file is written, and what survives a crash while writing it.

    An append writes the new records after the old ones, then the touched bucket heads in place,
    then the header.  First creation starts from an empty file with a header for zero records and
    a zeroed head table.  A crash leaves any number of complete writes and a prefix of the next. */
module BufferIndexWrites {
  import opened Bytes
  import opened ForwardLog
  import opened BufferIndex

  /** One `WriteAt`; a gap past the end of the file reads as zeros. */
  datatype Write = Write(off: nat, data: seq<byte>)

  function WriteAt(f: seq<byte>, w: Write): (r: seq<byte>)
    ensures |r| == if w.off + |w.data| > |f| then w.off + |w.data| else |f|
  {
    if w.off > |f| then f + Zeros(w.off - |f|) + w.data
    else f[..w.off] + w.data + if w.off + |w.data| <= |f| then f[w.off + |w.data|..] else []
  }

  function WriteAll(f: seq<byte>, ws: seq<Write>): seq<byte>
    decreases |ws|
  {
    if ws == [] then f else WriteAll(WriteAt(f, ws[0]), ws[1..])
  }

  /** `g` is what the file may hold if the machine stops while `ws` is being written to `f`. */
  ghost predicate CrashOf(f: seq<byte>, ws: seq<Write>, g: seq<byte>)
    decreases |ws|
  {
    if ws == [] then g == f
    else
      || (exists j :: 0 <= j <= |ws[0].data| && g == Torn(f, ws[0], j))
      || CrashOf(WriteAt(f, ws[0]), ws[1..], g)
  }

  function Torn(f: seq<byte>, w: Write, j: nat): seq<byte>
    requires j <= |w.data|
  {
    if j == 0 then f else WriteAt(f, Write(w.off, w.data[..j]))
  }

  /** The file when the machine stops after `budget` bytes of `ws`. */
  function WriteUpTo(f: seq<byte>, ws: seq<Write>, budget: nat): seq<byte>
    decreases |ws|
  {
    if ws == [] then f
    else if budget <= |ws[0].data| then Torn(f, ws[0], budget)
    else WriteUpTo(WriteAt(f, ws[0]), ws[1..], budget - |ws[0].data|)
  }

  /** The crashes are exactly the stops after some number of bytes. */
  lemma {:induction false} CrashIsStop(f: seq<byte>, ws: seq<Write>, g: seq<byte>)
    requires forall i :: 0 <= i < |ws| ==> ws[i].data != []
    ensures CrashOf(f, ws, g) <==> exists budget: nat :: g == WriteUpTo(f, ws, budget)
    decreases |ws|
  {
    hide WriteAt;
    if CrashOf(f, ws, g) {
      if ws == [] {
        assert g == WriteUpTo(f, ws, 0);
      } else if j :| 0 <= j <= |ws[0].data| && g == Torn(f, ws[0], j) {
        assert g == WriteUpTo(f, ws, j);
      } else {
        var f1, n := WriteAt(f, ws[0]), |ws[0].data|;
        CrashIsStop(f1, ws[1..], g);
        var b: nat :| g == WriteUpTo(f1, ws[1..], b);
        if b == 0 {
          assert ws[0].data[..n] == ws[0].data;
          assert g == WriteUpTo(f, ws, n);
        } else {
          assert g == WriteUpTo(f, ws, n + b);
        }
      }
    }
    if budget: nat :| g == WriteUpTo(f, ws, budget) {
      StopIsCrash(f, ws, budget);
    }
  }

  lemma {:induction false} StopIsCrash(f: seq<byte>, ws: seq<Write>, budget: nat)
    ensures CrashOf(f, ws, WriteUpTo(f, ws, budget))
    decreases |ws|
  {
    hide WriteAt;
    if ws != [] && budget > |ws[0].data| {
      StopIsCrash(WriteAt(f, ws[0]), ws[1..], budget - |ws[0].data|);
    }
  }

  lemma ReadOutsideWrite(f: seq<byte>, w: Write, a: nat, b: nat)
    requires a <= b <= |f|
    requires b <= w.off || a >= w.off + |w.data|
    ensures WriteAt(f, w)[a..b] == f[a..b]
  {
  }

  lemma ReadInsideWrite(f: seq<byte>, w: Write, a: nat, b: nat)
    requires w.off <= |f| && w.off <= a <= b <= w.off + |w.data|
    ensures WriteAt(f, w)[a..b] == w.data[a - w.off..b - w.off]
  {
  }

  // ----- complete and half-written files

  /** The header fields that a file shows. */
  ghost predicate HeaderIs(f: seq<byte>, end: u64, count: u64, n: u64) {
    && |f| >= INDEX_HEADER_SIZE
    && Get32(f[0..4]) == INDEX_MAGIC && Get16(f[4..6]) == INDEX_VERSION
    && Get64(f[8..16]) == end && Get64(f[16..24]) == count && Get64(f[24..32]) == n
  }

  /** An index file complete for `es`: header, heads, records and nothing after them. */
  ghost predicate Complete(h: Hash, f: seq<byte>, es: seq<Entry>, end: u64, n: u64) {
    && 0 < n <= MAX_BUCKETS && IsPowerOfTwo(n) && end < MAX_FILE_SIZE && |es| < MAX_FILE_SIZE
    && HeaderIs(f, end, |es|, n)
    && |f| == RecordsOffset(n) + |es| * RECORD_SIZE
    && HeadsHold(h, f, es, n)
    && RecordsHold(h, f, es, n)
  }

  lemma CompleteRepresents(h: Hash, f: seq<byte>, es: seq<Entry>, end: u64, n: u64)
    requires Complete(h, f, es, end, n)
    ensures Represents(h, f, es, end) && ReadHeader(f).value.bucketCount == n
  {
    hide Get32, Get16, Get64, IsPowerOfTwo, HeadsHold, RecordsHold;
  }

  lemma RepresentsComplete(h: Hash, f: seq<byte>, es: seq<Entry>, end: u64)
    requires Represents(h, f, es, end) && |es| < MAX_FILE_SIZE && end < MAX_FILE_SIZE
    ensures Complete(h, f, es, end, ReadHeader(f).value.bucketCount)
  {
    hide Get32, Get16, Get64, IsPowerOfTwo, HeadsHold, RecordsHold;
  }

  /** A file whose size does not match its header's record count is rejected. */
  lemma SizeMismatchRejected(f: seq<byte>, end: u64, count: u64, n: u64)
    requires HeaderIs(f, end, count, n)
    requires |f| != RecordsOffset(n) + count as int * RECORD_SIZE
    ensures ReadHeader(f).None?
  {
    hide Get32, Get16, Get64, IsPowerOfTwo;
  }

  lemma HeaderWritten(f: seq<byte>, end: u64, count: u64, n: u64)
    ensures HeaderIs(WriteAt(f, Write(0, HeaderBytes(end, count, n))), end, count, n)
  {
    hide Get32, Get16, Get64, Put32, Put16, Put64, HeaderBytes;
    var s := HeaderBytes(end, count, n);
    HeaderFields(end, count, n);
    var w := Write(0, s);
    ReadInsideWrite(f, w, 0, 4);
    ReadInsideWrite(f, w, 4, 6);
    ReadInsideWrite(f, w, 8, 16);
    ReadInsideWrite(f, w, 16, 24);
    ReadInsideWrite(f, w, 24, 32);
  }

  lemma HeaderFrame(f: seq<byte>, w: Write, end: u64, count: u64, n: u64)
    requires HeaderIs(f, end, count, n) && w.off >= INDEX_HEADER_SIZE
    ensures HeaderIs(WriteAt(f, w), end, count, n)
  {
    hide Get32, Get16, Get64;
    ReadOutsideWrite(f, w, 0, 4);
    ReadOutsideWrite(f, w, 4, 6);
    ReadOutsideWrite(f, w, 8, 16);
    ReadOutsideWrite(f, w, 16, 24);
    ReadOutsideWrite(f, w, 24, 32);
  }

  /** Heads depend only on the head table's bytes. */
  lemma HeadsFrame(h: Hash, f: seq<byte>, g: seq<byte>, es: seq<Entry>, n: nat)
    requires n > 0 && RecordsOffset(n) <= |f| && RecordsOffset(n) <= |g|
    requires f[INDEX_HEADER_SIZE..RecordsOffset(n)] == g[INDEX_HEADER_SIZE..RecordsOffset(n)]
    requires HeadsHold(h, f, es, n)
    ensures HeadsHold(h, g, es, n)
  {
    hide Get64, Latest;
    forall b | 0 <= b < n ensures HeadAt(g, b) == HeadAt(f, b) {
      SubSlice(f, INDEX_HEADER_SIZE, RecordsOffset(n), b * HEAD_SIZE, (b + 1) * HEAD_SIZE);
      SubSlice(g, INDEX_HEADER_SIZE, RecordsOffset(n), b * HEAD_SIZE, (b + 1) * HEAD_SIZE);
    }
  }

  lemma RecordsFrame(h: Hash, f: seq<byte>, g: seq<byte>, es: seq<Entry>, n: nat)
    requires n > 0 && |es| <= MAX_FILE_SIZE
    requires RecordsOffset(n) + |es| * RECORD_SIZE <= |f| && RecordsOffset(n) + |es| * RECORD_SIZE <= |g|
    requires var ro := RecordsOffset(n);
             f[ro..ro + |es| * RECORD_SIZE] == g[ro..ro + |es| * RECORD_SIZE]
    requires RecordsHold(h, f, es, n)
    ensures RecordsHold(h, g, es, n)
  {
    hide DecodeRecord, Latest;
    var ro := RecordsOffset(n);
    forall i | 0 <= i < |es| ensures RecordAt(g, n, i) == RecordAt(f, n, i) {
      SubSlice(f, ro, ro + |es| * RECORD_SIZE, i * RECORD_SIZE, (i + 1) * RECORD_SIZE);
      SubSlice(g, ro, ro + |es| * RECORD_SIZE, i * RECORD_SIZE, (i + 1) * RECORD_SIZE);
    }
  }

  // ----- the append protocol

  /** The `i`-th 24-byte record of a record region. */
  function RecordSlice(s: seq<byte>, i: nat): (r: seq<byte>)
    requires (i + 1) * RECORD_SIZE <= |s|
    ensures |r| == RECORD_SIZE
  {
    s[i * RECORD_SIZE..(i + 1) * RECORD_SIZE]
  }

  /** `payload` is the records for the entries `es'` has beyond `es`. */
  ghost predicate PayloadFor(h: Hash, payload: seq<byte>, es: seq<Entry>, es': seq<Entry>, n: nat)
    requires n > 0
  {
    && es <= es' && |es| < |es'| < MAX_FILE_SIZE
    && |payload| == (|es'| - |es|) * RECORD_SIZE
    && forall i :: 0 <= i < |es'| - |es| ==> DecodeRecord(RecordSlice(payload, i)) == WantRecord(h, es', |es| + i, n)
  }

  function PayloadWrite(payload: seq<byte>, count: nat, n: nat): Write {
    Write(RecordsOffset(n) + count * RECORD_SIZE, payload)
  }

  ghost predicate HeadWrites(hw: seq<Write>, n: nat) {
    forall i :: 0 <= i < |hw| ==> INDEX_HEADER_SIZE <= hw[i].off && hw[i].off + |hw[i].data| <= RecordsOffset(n)
  }

  /** Records and perhaps heads of `es'` are in place, the header still counts fewer. */
  ghost predicate HeaderPending(h: Hash, f: seq<byte>, es': seq<Entry>, end: u64, count: u64, n: u64) {
    && 0 < n && count < |es'| < MAX_FILE_SIZE
    && HeaderIs(f, end, count, n)
    && |f| == RecordsOffset(n) + |es'| * RECORD_SIZE
    && RecordsHold(h, f, es', n)
  }

  lemma PayloadWritten(h: Hash, f: seq<byte>, es: seq<Entry>, es': seq<Entry>, end: u64, n: u64, payload: seq<byte>)
    requires Complete(h, f, es, end, n) && PayloadFor(h, payload, es, es', n)
    ensures HeaderPending(h, WriteAt(f, PayloadWrite(payload, |es|, n)), es', end, |es|, n)
  {
    hide Get32, Get16, Get64, IsPowerOfTwo, DecodeRecord, Latest, HeadsHold, WriteAt;
    var w := PayloadWrite(payload, |es|, n);
    var g := WriteAt(f, w);
    HeaderFrame(f, w, end, |es|, n);
    var ro := RecordsOffset(n);
    forall i | 0 <= i < |es'| ensures RecordAt(g, n, i) == WantRecord(h, es', i, n) {
      var lo, hi := i * RECORD_SIZE, (i + 1) * RECORD_SIZE;
      if i < |es| {
        ReadOutsideWrite(f, w, ro + lo, ro + hi);
        assert es' == es + es'[|es|..];
        LatestPrefix(h, es, es'[|es|..], i, Bucket(h, es[i].key, n), n);
        assert RecordAt(f, n, i) == WantRecord(h, es, i, n);
      } else {
        ReadInsideWrite(f, w, ro + lo, ro + hi);
        assert DecodeRecord(RecordSlice(payload, i - |es|)) == WantRecord(h, es', |es| + (i - |es|), n);
      }
    }
  }

  lemma HeadWriteKeepsPending(h: Hash, f: seq<byte>, w: Write, es': seq<Entry>, end: u64, count: u64, n: u64)
    requires HeaderPending(h, f, es', end, count, n)
    requires INDEX_HEADER_SIZE <= w.off && w.off + |w.data| <= RecordsOffset(n)
    ensures HeaderPending(h, WriteAt(f, w), es', end, count, n)
  {
    hide Get32, Get16, Get64, RecordsHold, WriteAt;
    HeaderFrame(f, w, end, count, n);
    ReadOutsideWrite(f, w, RecordsOffset(n), |f|);
    RecordsFrame(h, f, WriteAt(f, w), es', n);
  }

  /** Crash while the header is overwritten: `j` bytes of the new header have reached the file.
      It is accepted only if it reads as the new header. */
  lemma TornHeader(f: seq<byte>, end: u64, count: u64, end': u64, held: u64, n: u64, j: nat)
    requires HeaderIs(f, end, count, n) && count < held && j <= INDEX_HEADER_SIZE
    requires |f| == RecordsOffset(n) + held as int * RECORD_SIZE
    requires end' < MAX_FILE_SIZE
    requires ReadHeader(WriteAt(f, Write(0, HeaderBytes(end', held, n)[..j]))).Some?
    ensures var m := ReadHeader(WriteAt(f, Write(0, HeaderBytes(end', held, n)[..j]))).value;
            m == Meta(end', held, n)
  {
    hide IsPowerOfTwo, Get64, Put64, Get32, Get16, HeaderBytes, WriteAt;
    var hdr := HeaderBytes(end', held, n);
    var w := Write(0, hdr[..j]);
    var g := WriteAt(f, w);
    HeaderFields(end', held, n);
    Get64Injective(f[24..32], Put64(n));
    TornBuckets(f, hdr, j, n);
    if j <= 16 {
      ReadOutsideWrite(f, w, 16, 24);
    } else {
      ReadInsideWrite(f, w, 8, 16);
      assert w.data[8..16] == hdr[8..16];
    }
  }

  /** The bucket count is the same in both headers, so a torn header still shows it. */
  lemma TornBuckets(f: seq<byte>, hdr: seq<byte>, j: nat, n: u64)
    requires |f| >= INDEX_HEADER_SIZE && |hdr| == INDEX_HEADER_SIZE && j <= INDEX_HEADER_SIZE
    requires f[24..32] == hdr[24..32] == Put64(n)
    ensures WriteAt(f, Write(0, hdr[..j]))[24..32] == Put64(n)
  {
    hide Put64;
    var g := WriteAt(f, Write(0, hdr[..j]));
    forall i | 24 <= i < 32 ensures g[i] == Put64(n)[i - 24] {
      assert f[i] == f[24..32][i - 24] && hdr[i] == hdr[24..32][i - 24];
    }
  }

  /** Writing (part of) the header leaves heads and records alone. */
  lemma HeaderWriteFrame(h: Hash, f: seq<byte>, hdr: seq<byte>, es: seq<Entry>, n: nat)
    requires n > 0 && |es| <= MAX_FILE_SIZE && |hdr| <= INDEX_HEADER_SIZE
    requires RecordsOffset(n) + |es| * RECORD_SIZE <= |f|
    requires HeadsHold(h, f, es, n) && RecordsHold(h, f, es, n)
    ensures var g := WriteAt(f, Write(0, hdr));
            |g| == |f| && HeadsHold(h, g, es, n) && RecordsHold(h, g, es, n)
  {
    hide HeadsHold, RecordsHold, WriteAt;
    var ro := RecordsOffset(n);
    var w := Write(0, hdr);
    ReadOutsideWrite(f, w, INDEX_HEADER_SIZE, ro);
    ReadOutsideWrite(f, w, ro, ro + |es| * RECORD_SIZE);
    HeadsFrame(h, f, WriteAt(f, w), es, n);
    RecordsFrame(h, f, WriteAt(f, w), es, n);
  }

  function AppendWrites(payload: seq<byte>, count: nat, n: u64, hw: seq<Write>, end': u64, count': u64): seq<Write> {
    [PayloadWrite(payload, count, n)] + HeadThenHeader(hw, end', count', n)
  }

  function HeadThenHeader(hw: seq<Write>, end': u64, count': u64, n: u64): seq<Write> {
    hw + [Write(0, HeaderBytes(end', count', n))]
  }

  /** What a crash may leave behind: nothing usable, or a complete index of the old or the new log. */
  ghost predicate CrashSafe(h: Hash, g: seq<byte>, es: seq<Entry>, end: int, es': seq<Entry>, end': int) {
    forall l :: Accepts(g, l) ==>
      || (l == end && Represents(h, g, es, end))
      || (l == end' && Represents(h, g, es', end'))
  }

  /** From the moment the records are in place: heads being written, then the header. */
  lemma {:induction false} CrashAfterPayload(h: Hash, f: seq<byte>, es: seq<Entry>, es': seq<Entry>, end: u64, end': u64, n: u64,
                                             hw: seq<Write>, g: seq<byte>)
    requires |es| < |es'| < MAX_FILE_SIZE && end' < MAX_FILE_SIZE
    requires HeaderPending(h, f, es', end, |es|, n)
    requires HeadWrites(hw, n)
    requires |WriteAll(f, hw)| >= RecordsOffset(n) && HeadsHold(h, WriteAll(f, hw), es', n)
    requires CrashOf(f, HeadThenHeader(hw, end', |es'|, n), g)
    ensures CrashSafe(h, g, es, end, es', end')
    decreases |hw|
  {
    hide Get32, Get16, Get64, HeadsHold, RecordsHold, HeaderBytes, WriteAt, ReadHeader, IsPowerOfTwo;
    var ws := HeadThenHeader(hw, end', |es'|, n);
    if hw == [] {
      assert ws[1..] == [];
      var w := ws[0];
      assert g == f || exists j :: 0 < j <= INDEX_HEADER_SIZE && g == WriteAt(f, Write(0, w.data[..j])) by {
        assert w.data == w.data[..INDEX_HEADER_SIZE];
      }
      if g == f {
        SizeMismatchRejected(f, end, |es|, n);
      } else if ReadHeader(g).Some? {
        var j :| 0 < j <= INDEX_HEADER_SIZE && g == WriteAt(f, Write(0, w.data[..j]));
        TornHeader(f, end, |es|, end', |es'|, n, j);
        HeaderWriteFrame(h, f, w.data[..j], es', n);
      }
    } else {
      assert ws[1..] == HeadThenHeader(hw[1..], end', |es'|, n);
      var w := hw[0];
      HeadWriteKeepsPending(h, f, w, es', end, |es|, n);
      if j: nat :| j <= |w.data| && g == Torn(f, w, j) {
        if j != 0 {
          HeadWriteKeepsPending(h, f, Write(w.off, w.data[..j]), es', end, |es|, n);
        }
        SizeMismatchRejected(g, end, |es|, n);
      } else {
        CrashAfterPayload(h, WriteAt(f, w), es, es', end, end', n, hw[1..], g);
      }
    }
  }

  /** Crash anywhere inside an index append. */
  lemma CrashDuringAppend(h: Hash, f: seq<byte>, es: seq<Entry>, es': seq<Entry>, end: u64, end': u64, n: u64,
                          payload: seq<byte>, hw: seq<Write>, g: seq<byte>)
    requires |es| < |es'| < MAX_FILE_SIZE && end' < MAX_FILE_SIZE
    requires Complete(h, f, es, end, n) && PayloadFor(h, payload, es, es', n)
    requires HeadWrites(hw, n)
    requires var f1 := WriteAt(f, PayloadWrite(payload, |es|, n));
             |WriteAll(f1, hw)| >= RecordsOffset(n) && HeadsHold(h, WriteAll(f1, hw), es', n)
    requires CrashOf(f, AppendWrites(payload, |es|, n, hw, end', |es'|), g)
    ensures CrashSafe(h, g, es, end, es', end')
  {
    hide Get32, Get16, Get64, HeadsHold, RecordsHold, HeaderBytes, WriteAt, IsPowerOfTwo, PayloadFor, WriteAll, ReadHeader;
    var ws := AppendWrites(payload, |es|, n, hw, end', |es'|);
    var w := ws[0];
    assert ws[1..] == HeadThenHeader(hw, end', |es'|, n);
    PayloadWritten(h, f, es, es', end, n, payload);
    if j: nat :| j <= |w.data| && g == Torn(f, w, j) {
      if j == 0 {
        CompleteRepresents(h, f, es, end, n);
      } else {
        HeaderFrame(f, Write(w.off, w.data[..j]), end, |es|, n);
        SizeMismatchRejected(g, end, |es|, n);
      }
    } else {
      CrashAfterPayload(h, WriteAt(f, w), es, es', end, end', n, hw, g);
    }
  }

  /** The finished append is a complete index of the new entries. */
  lemma {:induction false} AppendFinishes(h: Hash, f: seq<byte>, es: seq<Entry>, es': seq<Entry>, end: u64, end': u64, n: u64, hw: seq<Write>)
    requires |es| < |es'| < MAX_FILE_SIZE && end' < MAX_FILE_SIZE
    requires HeaderPending(h, f, es', end, |es|, n)
    requires n <= MAX_BUCKETS && IsPowerOfTwo(n) && HeadWrites(hw, n)
    requires |WriteAll(f, hw)| >= RecordsOffset(n) && HeadsHold(h, WriteAll(f, hw), es', n)
    ensures Complete(h, WriteAll(f, HeadThenHeader(hw, end', |es'|, n)), es', end', n)
    decreases |hw|
  {
    hide Get32, Get16, Get64, HeadsHold, RecordsHold, HeaderBytes, WriteAt, IsPowerOfTwo;
    var ws := HeadThenHeader(hw, end', |es'|, n);
    if hw == [] {
      HeaderWritten(f, end', |es'|, n);
      HeaderWriteFrame(h, f, HeaderBytes(end', |es'|, n), es', n);
      assert WriteAll(WriteAt(f, ws[0]), []) == WriteAt(f, ws[0]);
      assert ws[1..] == [];
    } else {
      assert ws[1..] == HeadThenHeader(hw[1..], end', |es'|, n);
      HeadWriteKeepsPending(h, f, hw[0], es', end, |es|, n);
      AppendFinishes(h, WriteAt(f, hw[0]), es, es', end, end', n, hw[1..]);
    }
  }

  lemma {:induction false} WriteAllSnoc(f: seq<byte>, ws: seq<Write>, w: Write)
    ensures WriteAll(f, ws + [w]) == WriteAt(WriteAll(f, ws), w)
    decreases |ws|
  {
    hide WriteAt;
    if ws == [] {
      assert (ws + [w])[1..] == [];
      assert WriteAll(WriteAt(f, w), []) == WriteAt(f, w);
    } else {
      assert (ws + [w])[1..] == ws[1..] + [w];
      WriteAllSnoc(WriteAt(f, ws[0]), ws[1..], w);
    }
  }

  // ----- first creation

  function CreateWrites(n: u64, rest: seq<Write>): seq<Write> {
    [Write(0, HeaderBytes(0, 0, n)), Write(INDEX_HEADER_SIZE, Zeros(n * HEAD_SIZE))] + rest
  }

  lemma GetZeros(s: seq<byte>)
    requires |s| == 8 && forall i :: 0 <= i < 8 ==> s[i] == 0
    ensures Get64(s) == 0
  {
    assert Get32(s[..4]) == 0 && Get32(s[4..]) == 0;
  }

  /** The freshly created file is a complete index of the empty log. */
  lemma CreatedEmpty(h: Hash, n: u64)
    requires 0 < n <= MAX_BUCKETS && IsPowerOfTwo(n)
    ensures Complete(h, WriteAll([], CreateWrites(n, [])), [], 0, n)
  {
    hide IsPowerOfTwo, HeaderBytes, Put64, Put32, Put16, Get32, Get16, Get64, WriteAt;
    var hdr := Write(0, HeaderBytes(0, 0, n));
    var zs := Write(INDEX_HEADER_SIZE, Zeros(n * HEAD_SIZE));
    var f1 := WriteAt([], hdr);
    var f := WriteAt(f1, zs);
    CreatedAs(n);
    HeaderWritten([], 0, 0, n);
    HeaderFrame(f1, zs, 0, 0, n);
    forall b | 0 <= b < n ensures HeadAt(f, b) == 0 {
      ReadInsideWrite(f1, zs, INDEX_HEADER_SIZE + b * HEAD_SIZE, INDEX_HEADER_SIZE + (b + 1) * HEAD_SIZE);
      GetZeros(zs.data[b * HEAD_SIZE..(b + 1) * HEAD_SIZE]);
    }
  }

  /** Crash anywhere inside the first creation. */
  lemma CrashDuringCreate(h: Hash, es': seq<Entry>, end': u64, n: u64, payload: seq<byte>, hw: seq<Write>, g: seq<byte>)
    requires 0 < n <= MAX_BUCKETS && IsPowerOfTwo(n)
    requires 0 < |es'| < MAX_FILE_SIZE && end' < MAX_FILE_SIZE && PayloadFor(h, payload, [], es', n)
    requires HeadWrites(hw, n)
    requires var f1 := WriteAt(WriteAll([], CreateWrites(n, [])), PayloadWrite(payload, 0, n));
             |WriteAll(f1, hw)| >= RecordsOffset(n) && HeadsHold(h, WriteAll(f1, hw), es', n)
    requires CrashOf([], CreateWrites(n, AppendWrites(payload, 0, n, hw, end', |es'|)), g)
    ensures CrashSafe(h, g, [], 0, es', end')
  {
    hide IsPowerOfTwo, HeaderBytes, HeadsHold, PayloadFor, WriteAt, AppendWrites, Get32, Get16, Get64;
    var hdr := Write(0, HeaderBytes(0, 0, n));
    var zs := Write(INDEX_HEADER_SIZE, Zeros(n * HEAD_SIZE));
    var rest := AppendWrites(payload, 0, n, hw, end', |es'|);
    var ws := CreateWrites(n, rest);
    var f1 := WriteAt([], hdr);
    assert ws[1..] == [zs] + rest && ws[1..][1..] == rest;
    HeaderWritten([], 0, 0, n);
    if j: nat :| j <= |hdr.data| && g == Torn([], hdr, j) {
      if j == INDEX_HEADER_SIZE {
        assert hdr.data[..j] == hdr.data;
        SizeMismatchRejected(g, 0, 0, n);
      }
    } else if j: nat :| j <= |zs.data| && g == Torn(f1, zs, j) {
      if j == |zs.data| {
        assert zs.data[..j] == zs.data;
        CreatedEmpty(h, n);
        assert WriteAll([], CreateWrites(n, [])) == WriteAt(f1, zs) by { CreatedAs(n); }
        CompleteRepresents(h, g, [], 0, n);
      } else {
        if j != 0 {
          HeaderFrame(f1, Write(zs.off, zs.data[..j]), 0, 0, n);
        }
        SizeMismatchRejected(g, 0, 0, n);
      }
    } else {
      assert CrashOf(WriteAt(f1, zs), rest, g);
      CreatedEmpty(h, n);
      CreatedAs(n);
      CrashDuringAppend(h, WriteAt(f1, zs), [], es', 0, end', n, payload, hw, g);
    }
  }

  lemma CreatedAs(n: u64)
    ensures WriteAll([], CreateWrites(n, []))
         == WriteAt(WriteAt([], Write(0, HeaderBytes(0, 0, n))), Write(INDEX_HEADER_SIZE, Zeros(n * HEAD_SIZE)))
  {
    hide HeaderBytes, WriteAt;
    var hdr := Write(0, HeaderBytes(0, 0, n));
    var zs := Write(INDEX_HEADER_SIZE, Zeros(n * HEAD_SIZE));
    assert CreateWrites(n, []) == [hdr] + [zs];
    WriteAllSnoc([], [hdr], zs);
    WriteAllSnoc([], [], hdr);
    assert [] + [hdr] == [hdr];
  }
}
