/** The bytes of the segment index: flat tables of chunk metadata and the top-level table. */
module SegmentLayout {
  import opened Bytes
  import opened SegmentIndex

  // ----- fixed-width key fields

  /** `appendFixedSegmentIndexKeyStart`: length byte, key, zero padding. */
  function EncodeKey(k: Key): (s: seq<byte>)
    requires |k| <= KEY_START_MAX
    ensures |s| == KEY_FIELD
  {
    [|k|] + k + seq(KEY_START_MAX - |k|, _ => 0)
  }

  /** `decodeFixedSegmentIndexKeyStart`. */
  function DecodeKey(s: seq<byte>): Option<Key> {
    if |s| < KEY_FIELD then None
    else if s[0] > KEY_START_MAX then None
    else Some(s[1..1 + s[0]])
  }

  lemma DecodeEncodeKey(k: Key)
    requires |k| <= KEY_START_MAX
    ensures DecodeKey(EncodeKey(k)) == Some(k)
  {
    assert EncodeKey(k)[1..1 + |k|] == k;
  }

  // ----- records of a fixed width, one after the other

  /** The concatenation of equally long records. */
  ghost function Join(rs: seq<seq<byte>>): seq<byte> {
    if rs == [] then [] else Join(rs[..|rs| - 1]) + rs[|rs| - 1]
  }

  ghost predicate Wide(rs: seq<seq<byte>>, w: nat) {
    forall i :: 0 <= i < |rs| ==> |rs[i]| == w
  }

  lemma {:induction false} JoinAt(rs: seq<seq<byte>>, w: nat, i: nat)
    requires Wide(rs, w) && i < |rs|
    ensures |Join(rs)| == |rs| * w && 0 <= i * w <= i * w + w <= |rs| * w && Join(rs)[i * w..i * w + w] == rs[i]
    decreases |rs|
  {
    var n := |rs| - 1;
    var init := Join(rs[..n]);
    JoinLength(rs, w);
    JoinLength(rs[..n], w);
    Bounds(i, |rs|, w);
    if i < n {
      JoinAt(rs[..n], w, i);
      assert Join(rs)[i * w..i * w + w] == init[i * w..i * w + w];
    } else {
      assert (n + 1) * w == n * w + w;
    }
  }

  lemma {:induction false} Bounds(i: nat, n: nat, w: nat)
    requires i < n
    ensures 0 <= i * w <= i * w + w <= n * w
  {
    if i + 1 < n {
      Bounds(i, n - 1, w);
    }
    assert n * w == (n - 1) * w + w;
  }

  lemma {:induction false} JoinLength(rs: seq<seq<byte>>, w: nat)
    requires Wide(rs, w)
    ensures |Join(rs)| == |rs| * w
  {
    if rs != [] {
      JoinLength(rs[..|rs| - 1], w);
      assert |rs| * w == (|rs| - 1) * w + w;
    }
  }

  // ----- the flat table

  ghost predicate Compact(ms: seq<Meta>) {
    |ms| < 0x1_0000_0000 && forall i :: 0 <= i < |ms| ==> |ms[i].start| <= KEY_START_MAX
  }

  function EncodeMeta(m: Meta): (s: seq<byte>)
    requires |m.start| <= KEY_START_MAX
    ensures |s| == FLAT_ENTRY
  {
    Put32(m.file) + EncodeKey(m.start)
  }

  function FlatHeader(n: u32): (s: seq<byte>)
    ensures |s| == 12
  {
    Put32(FLAT_MAGIC) + Put16(FORMAT_VERSION) + [0, 0] + Put32(n)
  }

  /** The bytes of a flat table's header, `FLIX` and version 3, and of one entry. */
  lemma FormatExample()
    ensures FlatHeader(5) == [0x46, 0x4c, 0x49, 0x58, 0, 3, 0, 0, 0, 0, 0, 5]
    ensures EncodeMeta(Meta(0x0102, [7])) == [0, 0, 1, 2, 1, 7] + seq(31, _ => 0)
  {
    assert Put32(0x464c4958) == [0x46, 0x4c, 0x49, 0x58] && Put16(3) == [0, 3];
    Small32(5, 0, 5);
    Small32(0x0102, 1, 2);
  }

  ghost function MetaRecords(ms: seq<Meta>): seq<seq<byte>>
    requires Compact(ms)
  {
    seq(|ms|, i requires 0 <= i < |ms| => EncodeMeta(ms[i]))
  }

  /** `encodeSegmentChunkMetas`. */
  ghost function EncodeFlat(ms: seq<Meta>): seq<byte>
    requires Compact(ms)
  {
    FlatHeader(|ms|) + Join(MetaRecords(ms))
  }

  method WriteFlat(ms: seq<Meta>) returns (buf: seq<byte>)
    requires Compact(ms)
    ensures buf == EncodeFlat(ms)
  {
    hide FlatHeader, EncodeMeta;
    var body: seq<byte> := [];
    ghost var rs := MetaRecords(ms);
    for i := 0 to |ms|
      invariant body == Join(rs[..i])
    {
      assert rs[..i + 1][..i] == rs[..i];
      body := body + EncodeMeta(ms[i]);
    }
    assert rs[..|ms|] == rs;
    buf := FlatHeader(|ms|) + body;
  }

  /** `flatSegmentIndexCount`. */
  function FlatCount(data: seq<byte>): Option<u32> {
    if |data| < 12 then None
    else if Get32(data[..4]) != FLAT_MAGIC || Get16(data[4..6]) != FORMAT_VERSION then None
    else Some(Get32(data[8..12]))
  }

  /** `flatSegmentIndexMetaAt`. */
  function FlatMetaAt(data: seq<byte>, i: nat): Option<Meta> {
    var off := 12 + i * FLAT_ENTRY;
    if off + FLAT_ENTRY > |data| then None
    else
      var k := DecodeKey(data[off + 4..off + FLAT_ENTRY]);
      if k.None? then None else Some(Meta(Get32(data[off..off + 4]), k.value))
  }

  lemma FlatReads(ms: seq<Meta>)
    requires Compact(ms)
    ensures FlatCount(EncodeFlat(ms)) == Some(|ms|)
  {
    hide Put32, Get32, Put16, Get16;
    var d, h := EncodeFlat(ms), FlatHeader(|ms|);
    assert h[..4] == Put32(FLAT_MAGIC) && h[4..6] == Put16(FORMAT_VERSION) && h[8..12] == Put32(|ms|);
    assert d[..4] == h[..4] && d[4..6] == h[4..6] && d[8..12] == h[8..12];
  }

  lemma FlatReadsAt(ms: seq<Meta>, i: nat)
    requires Compact(ms) && i < |ms|
    ensures FlatMetaAt(EncodeFlat(ms), i) == Some(ms[i])
  {
    hide Put32, Get32, EncodeKey, DecodeKey, FlatHeader, Join;
    var rs := MetaRecords(ms);
    var d, off := EncodeFlat(ms), 12 + i * FLAT_ENTRY;
    JoinAt(rs, FLAT_ENTRY, i);
    DecodeEncodeKey(ms[i].start);
    var r := EncodeMeta(ms[i]);
    assert d[off..off + FLAT_ENTRY] == r;
    assert r[..4] == Put32(ms[i].file) && r[4..] == EncodeKey(ms[i].start);
    SubSlice(d, off, off + FLAT_ENTRY, 0, 4);
    SubSlice(d, off, off + FLAT_ENTRY, 4, FLAT_ENTRY);
  }

  /** `decodeSegmentIndexBuffer`. */
  method DecodeFlat(data: seq<byte>, ghost ms: seq<Meta>) returns (r: Option<seq<Meta>>)
    requires Compact(ms) && data == EncodeFlat(ms)
    ensures r == Some(ms)
  {
    hide EncodeFlat, FlatMetaAt, FlatCount;
    FlatReads(ms);
    var n := FlatCount(data);
    if n.None? {
      return None;
    }
    var out: seq<Meta> := [];
    var i := 0;
    while i < n.value
      invariant 0 <= i <= |ms| && out == ms[..i]
    {
      FlatReadsAt(ms, i);
      var m := FlatMetaAt(data, i);
      if m.None? {
        return None;
      }
      out := out + [m.value];
      i := i + 1;
    }
    assert ms[..|ms|] == ms;
    r := Some(out);
  }

  datatype Selected = Corrupt | Chunk(meta: Option<Meta>)

  /** `selectFixedFlatSegmentIndexMeta`: a binary search over the encoded bytes, which decodes only
      the entries it touches. */
  method SelectFlat(data: seq<byte>, key: Key, ghost ms: seq<Meta>) returns (r: Selected)
    requires Compact(ms) && data == EncodeFlat(ms) && StartsSorted(ms)
    ensures r == Chunk(Select(ms, key))
  {
    hide EncodeFlat, FlatMetaAt, FlatCount, LastLeq, Less;
    FlatReads(ms);
    var n := FlatCount(data);
    if n.None? {
      return Corrupt;
    }
    if n.value == 0 {
      LastLeqIs(ms, key, -1);
      return Chunk(None);
    }
    var idx := SearchFlat(data, key, n.value, ms);
    if idx == 0 {
      FlatReadsAt(ms, 0);
      LessTrichotomy(key, ms[0].start);
      var first := FlatMetaAt(data, 0);
      return if first.None? then Corrupt else if Less(key, first.value.start) then Chunk(None) else Chunk(first);
    }
    FlatReadsAt(ms, idx - 1);
    LessTrichotomy(key, ms[idx - 1].start);
    var m := FlatMetaAt(data, idx - 1);
    if m.None? {
      return Corrupt;
    }
    if Less(key, m.value.start) {
      return Chunk(None);
    }
    if idx < n.value {
      FlatReadsAt(ms, idx);
      LessTrichotomy(key, ms[idx].start);
      var following := FlatMetaAt(data, idx);
      if following.None? {
        return Corrupt;
      }
      if !Less(key, following.value.start) {
        return Chunk(None);
      }
    }
    r := Chunk(m);
  }

  method SearchFlat(data: seq<byte>, key: Key, n: nat, ghost ms: seq<Meta>) returns (lo: nat)
    requires Compact(ms) && data == EncodeFlat(ms) && StartsSorted(ms) && n == |ms|
    ensures lo <= n && lo - 1 == LastLeq(ms, key)
  {
    hide EncodeFlat, FlatMetaAt, LastLeq, Less;
    lo := 0;
    var hi := n;
    while lo < hi
      invariant lo <= hi <= |ms|
      invariant forall j :: 0 <= j < lo ==> Leq(ms[j].start, key)
      invariant forall j :: hi <= j < |ms| ==> !Leq(ms[j].start, key)
    {
      var mid := (lo + hi) / 2;
      FlatReadsAt(ms, mid);
      var m := FlatMetaAt(data, mid);
      LessTrichotomy(key, ms[mid].start);
      if m.Some? && !Less(key, m.value.start) {
        forall j | 0 <= j <= mid ensures Leq(ms[j].start, key) {
          if j < mid {
            LeqTransitive(ms[j].start, ms[mid].start, key);
          }
        }
        lo := mid + 1;
      } else {
        forall j | mid <= j < |ms| ensures !Leq(ms[j].start, key) {
          if j > mid && Leq(ms[j].start, key) {
            LeqTransitive(ms[mid].start, ms[j].start, key);
          }
        }
        hi := mid;
      }
    }
    LastLeqIs(ms, key, lo - 1);
  }

  // ----- the top-level table

  datatype Entry = Entry(id: u32, count: u32, start: Key)

  ghost predicate CompactTop(es: seq<Entry>) {
    |es| < 0xffff_ffff && forall i :: 0 <= i < |es| ==> |es[i].start| <= KEY_START_MAX
  }

  function EncodeEntry(e: Entry): (s: seq<byte>)
    requires |e.start| <= KEY_START_MAX
    ensures |s| == TOP_ENTRY
  {
    Put32(e.id) + Put32(e.count) + EncodeKey(e.start)
  }

  function TopHeader(next: u32, n: u32): (s: seq<byte>)
    ensures |s| == 16
  {
    Put32(MULTI_MAGIC) + Put16(FORMAT_VERSION) + [0, 0] + Put32(next) + Put32(n)
  }

  /** The bytes of the top level's header, `MLIX` and version 3, and of one entry. */
  lemma TopFormatExample()
    ensures TopHeader(9, 5) == [0x4d, 0x4c, 0x49, 0x58, 0, 3, 0, 0, 0, 0, 0, 9, 0, 0, 0, 5]
    ensures EncodeEntry(Entry(0x0102, 5, [7])) == [0, 0, 1, 2, 0, 0, 0, 5, 1, 7] + seq(31, _ => 0)
  {
    assert Put32(0x4d4c4958) == [0x4d, 0x4c, 0x49, 0x58] && Put16(3) == [0, 3];
    Small32(9, 0, 9);
    Small32(5, 0, 5);
    Small32(0x0102, 1, 2);
  }

  ghost function EntryRecords(es: seq<Entry>): seq<seq<byte>>
    requires CompactTop(es)
  {
    seq(|es|, i requires 0 <= i < |es| => EncodeEntry(es[i]))
  }

  /** `encodeTopLevelIndex`. */
  ghost function EncodeTop(next: u32, es: seq<Entry>): seq<byte>
    requires CompactTop(es)
  {
    TopHeader(next, |es|) + Join(EntryRecords(es))
  }

  method WriteTop(next: u32, es: seq<Entry>) returns (buf: seq<byte>)
    requires CompactTop(es)
    ensures buf == EncodeTop(next, es)
  {
    hide TopHeader, EncodeEntry;
    var body: seq<byte> := [];
    ghost var rs := EntryRecords(es);
    for i := 0 to |es|
      invariant body == Join(rs[..i])
    {
      assert rs[..i + 1][..i] == rs[..i];
      body := body + EncodeEntry(es[i]);
    }
    assert rs[..|es|] == rs;
    buf := TopHeader(next, |es|) + body;
  }

  predicate LessEntry(a: Entry, b: Entry) {
    Less(a.start, b.start) || (a.start == b.start && (a.id < b.id || (a.id == b.id && a.count < b.count)))
  }

  lemma EntryOrder()
    ensures StrictWeak(LessEntry)
  {
    hide Less;
    forall a, b | LessEntry(a, b) ensures !LessEntry(b, a) {
      LessTrichotomy(a.start, b.start);
    }
    forall a, b, c | !LessEntry(b, a) && !LessEntry(c, b) ensures !LessEntry(c, a) {
      LessTrichotomy(a.start, b.start);
      LessTrichotomy(b.start, c.start);
      LessTrichotomy(a.start, c.start);
      if Less(a.start, b.start) || Less(b.start, c.start) {
        LeqTransitive(a.start, b.start, c.start);
      }
    }
  }

  function IsMulti(data: seq<byte>): bool
    requires |data| >= 4
  {
    Get32(data[..4]) == MULTI_MAGIC
  }

  function TopEntryAt(data: seq<byte>, i: nat): Option<Entry> {
    var off := 16 + i * TOP_ENTRY;
    if off + TOP_ENTRY > |data| then None
    else
      var k := DecodeKey(data[off + 8..off + TOP_ENTRY]);
      if k.None? then None else Some(Entry(Get32(data[off..off + 4]), Get32(data[off + 4..off + 8]), k.value))
  }

  lemma TopReads(next: u32, es: seq<Entry>)
    requires CompactTop(es)
    ensures var d := EncodeTop(next, es);
            && |d| >= 16 && IsMulti(d) && Get16(d[4..6]) == FORMAT_VERSION
            && Get32(d[8..12]) == next && Get32(d[12..16]) == |es|
  {
    hide Put32, Get32, Put16, Get16, Join;
    var d, h := EncodeTop(next, es), TopHeader(next, |es|);
    assert h[..4] == Put32(MULTI_MAGIC) && h[4..6] == Put16(FORMAT_VERSION) && h[8..12] == Put32(next) && h[12..16] == Put32(|es|);
    assert d[..4] == h[..4] && d[4..6] == h[4..6] && d[8..12] == h[8..12] && d[12..16] == h[12..16];
  }

  lemma TopReadsAt(next: u32, es: seq<Entry>, i: nat)
    requires CompactTop(es) && i < |es|
    ensures TopEntryAt(EncodeTop(next, es), i) == Some(es[i])
  {
    hide Put32, Get32, EncodeKey, DecodeKey, TopHeader, Join;
    var rs := EntryRecords(es);
    var d, off := EncodeTop(next, es), 16 + i * TOP_ENTRY;
    JoinAt(rs, TOP_ENTRY, i);
    DecodeEncodeKey(es[i].start);
    var r := EncodeEntry(es[i]);
    assert d[off..off + TOP_ENTRY] == r;
    assert r[..4] == Put32(es[i].id) && r[4..8] == Put32(es[i].count) && r[8..] == EncodeKey(es[i].start);
    SubSlice(d, off, off + TOP_ENTRY, 0, 4);
    SubSlice(d, off, off + TOP_ENTRY, 4, 8);
    SubSlice(d, off, off + TOP_ENTRY, 8, TOP_ENTRY);
  }

  datatype Parsed = Broken | Top(next: u32, entries: seq<Entry>)

  /** `parseMultiLevelLayout`. */
  method ParseTop(data: seq<byte>, ghost next: u32, ghost es: seq<Entry>) returns (r: Parsed)
    requires CompactTop(es) && data == EncodeTop(next, es) && OrderedBy(LessEntry, es)
    ensures r == Top(if next == 0 then |es| + 1 else next, es)
  {
    hide EncodeTop, TopEntryAt, LessEntry, Get32;
    TopReads(next, es);
    if |data| < 16 || Get16(data[4..6]) != FORMAT_VERSION {
      return Broken;
    }
    var nx, n := Get32(data[8..12]), Get32(data[12..16]);
    var out: seq<Entry> := [];
    var i := 0;
    while i < n
      invariant 0 <= i <= |es| && out == es[..i]
    {
      TopReadsAt(next, es, i);
      var e := TopEntryAt(data, i);
      if e.None? {
        return Broken;
      }
      out := out + [e.value];
      i := i + 1;
    }
    assert es[..|es|] == es;
    EntryOrder();
    out := Normalize(LessEntry, out);
    r := Top(if nx == 0 then |out| + 1 else nx, out);
  }
}
