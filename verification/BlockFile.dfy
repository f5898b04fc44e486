/** The block append-only log's files: a data file of framed entries, block after block, and a slot
    index with one `(block, start, end)` entry per block from the first block on. */
module BlockFile {
  import opened Bytes

  const ENTRY_HEADER := 16

  type Key = seq<byte>

  datatype Entry = Entry(key: Key, val: seq<byte>)

  predicate Fits(e: Entry) {
    |e.key| < 0x1_0000_0000 && |e.val| < 0x1_0000_0000
  }

  predicate AllFit(es: seq<Entry>) {
    forall i :: 0 <= i < |es| ==> Fits(es[i])
  }

  predicate BlocksFit(min: u64, blocks: seq<seq<Entry>>) {
    min as int + |blocks| <= 0x1_0000_0000_0000_0000 && forall j :: 0 <= j < |blocks| ==> AllFit(blocks[j])
  }

  // ----- the data file

  /** `writeLogEntry`. */
  function EncodeEntry(b: u64, e: Entry): (s: seq<byte>)
    requires Fits(e)
    ensures |s| == ENTRY_HEADER + |e.key| + |e.val|
  {
    Put64(b) + Put32(|e.key|) + Put32(|e.val|) + e.key + e.val
  }

  /** The bytes of an entry. */
  lemma FormatExample()
    ensures EncodeEntry(0x0102, Entry([7], [8, 9])) == [0, 0, 0, 0, 0, 0, 1, 2, 0, 0, 0, 1, 0, 0, 0, 2, 7, 8, 9]
  {
    Small64(0x0102, 1, 2);
    Small32(1, 0, 1);
    Small32(2, 0, 2);
  }

  function EncodeBlock(b: u64, es: seq<Entry>): (s: seq<byte>)
    requires AllFit(es)
  {
    if es == [] then [] else EncodeBlock(b, es[..|es| - 1]) + EncodeEntry(b, es[|es| - 1])
  }

  function EncodeBlocks(min: u64, blocks: seq<seq<Entry>>): (s: seq<byte>)
    requires BlocksFit(min, blocks)
  {
    if blocks == [] then []
    else EncodeBlocks(min, blocks[..|blocks| - 1]) + EncodeBlock(min as int + |blocks| - 1, blocks[|blocks| - 1])
  }

  datatype Read = Bad | Good(block: u64, key: Key, val: seq<byte>, next: nat)

  /** `readLogEntry` at an offset. */
  function ReadEntry(data: seq<byte>, off: nat): (r: Read)
    ensures r.Good? ==> off + ENTRY_HEADER <= r.next <= |data|
  {
    if off + ENTRY_HEADER > |data| then Bad
    else
      var klen, vlen := Get32(data[off + 8..off + 12]) as int, Get32(data[off + 12..off + 16]) as int;
      if off + ENTRY_HEADER + klen + vlen > |data| then Bad
      else Good(Get64(data[off..off + 8]), data[off + 16..off + 16 + klen], data[off + 16 + klen..off + 16 + klen + vlen], off + 16 + klen + vlen)
  }

  lemma ReadBack(a: seq<byte>, b: u64, e: Entry, c: seq<byte>)
    requires Fits(e)
    ensures ReadEntry(a + EncodeEntry(b, e) + c, |a|) == Good(b, e.key, e.val, |a| + |EncodeEntry(b, e)|)
  {
    hide Put64, Put32, Get64, Get32;
    var s, o := EncodeEntry(b, e), |a|;
    var data := a + s + c;
    assert s[0..8] == Put64(b) && s[8..12] == Put32(|e.key|) && s[12..16] == Put32(|e.val|);
    assert s[16..16 + |e.key|] == e.key && s[16 + |e.key|..] == e.val;
    assert data[o..o + 8] == s[0..8] && data[o + 8..o + 12] == s[8..12] && data[o + 12..o + 16] == s[12..16];
    assert data[o + 16..o + 16 + |e.key|] == s[16..16 + |e.key|];
    assert data[o + 16 + |e.key|..o + |s|] == s[16 + |e.key|..];
  }

  lemma {:induction false} EncodeBlockConcat(b: u64, x: seq<Entry>, y: seq<Entry>)
    requires AllFit(x) && AllFit(y)
    ensures AllFit(x + y) && EncodeBlock(b, x + y) == EncodeBlock(b, x) + EncodeBlock(b, y)
    decreases |y|
  {
    hide EncodeEntry, EncodeBlock, Fits;
    if y == [] {
      assert x + y == x;
      assert EncodeBlock(b, []) == [] by { EncodeNoEntry(b); }
    } else {
      var init, last := y[..|y| - 1], y[|y| - 1];
      EncodeBlockConcat(b, x, init);
      EncodeBlockSnoc(b, x + init, last);
      EncodeBlockSnoc(b, init, last);
      assert y == init + [last] && x + y == (x + init) + [last];
    }
  }

  lemma EncodeNoEntry(b: u64)
    ensures EncodeBlock(b, []) == []
  {
  }

  lemma EncodeBlockSnoc(b: u64, es: seq<Entry>, e: Entry)
    requires AllFit(es) && Fits(e)
    ensures AllFit(es + [e]) && EncodeBlock(b, es + [e]) == EncodeBlock(b, es) + EncodeEntry(b, e)
  {
    hide EncodeEntry, Fits;
    assert (es + [e])[..|es|] == es;
  }

  lemma EncodeBlockOne(b: u64, e: Entry)
    requires Fits(e)
    ensures EncodeBlock(b, [e]) == EncodeEntry(b, e)
  {
    hide EncodeEntry;
    assert [e][..0] == [];
    assert EncodeBlock(b, []) == [];
  }

  /** The bytes before, of, and after one entry of a block. */
  lemma EntryInBlock(b: u64, es: seq<Entry>, i: nat)
    requires AllFit(es) && i < |es|
    ensures EncodeBlock(b, es) == EncodeBlock(b, es[..i]) + EncodeEntry(b, es[i]) + EncodeBlock(b, es[i + 1..])
  {
    hide EncodeEntry, EncodeBlock;
    AroundEntry(b, es[..i], es[i], es[i + 1..]);
    assert es == (es[..i] + [es[i]]) + es[i + 1..];
  }

  lemma AroundEntry(b: u64, x: seq<Entry>, e: Entry, y: seq<Entry>)
    requires AllFit(x) && Fits(e) && AllFit(y)
    ensures AllFit((x + [e]) + y) && EncodeBlock(b, (x + [e]) + y) == EncodeBlock(b, x) + EncodeEntry(b, e) + EncodeBlock(b, y)
  {
    hide EncodeEntry, EncodeBlock;
    EncodeBlockOne(b, e);
    EncodeBlockConcat(b, x, [e]);
    EncodeBlockConcat(b, x + [e], y);
  }

  // ----- the slot index

  datatype Slot = Slot(block: nat, start: nat, end: nat)

  /** One slot per block, each range starting where the previous one ends. */
  function SlotsFor(min: u64, blocks: seq<seq<Entry>>): (ss: seq<Slot>)
    requires BlocksFit(min, blocks)
    ensures |ss| == |blocks|
  {
    if blocks == [] then []
    else
      var init := blocks[..|blocks| - 1];
      SlotsFor(min, init) + [Slot(min as int + |init|, |EncodeBlocks(min, init)|, |EncodeBlocks(min, blocks)|)]
  }

  /** The ranges tile the data file in order, and each range holds exactly its block. */
  lemma {:induction false} SlotsTile(min: u64, blocks: seq<seq<Entry>>, j: nat)
    requires BlocksFit(min, blocks) && j < |blocks|
    ensures var ss, data := SlotsFor(min, blocks), EncodeBlocks(min, blocks);
            && ss[j].block == min as int + j
            && ss[0].start == 0 && ss[|ss| - 1].end == |data|
            && (j + 1 < |ss| ==> ss[j].end == ss[j + 1].start)
            && ss[j].start <= ss[j].end <= |data|
            && data[ss[j].start..ss[j].end] == EncodeBlock(min as int + j, blocks[j])
    decreases |blocks|
  {
    hide EncodeBlock, EncodeBlocks, SlotsFor, BlocksFit, AllFit;
    var n := |blocks| - 1;
    var init, last := blocks[..n], blocks[n];
    InitFits(min, blocks);
    assert blocks == init + [last];
    PushBlockData(min, init, last);
    PushBlockSlot(min, init, last);
    if n > 0 {
      SlotsTile(min, init, n - 1);
      SlotsTile(min, init, 0);
    } else {
      NoBytes(min, init);
    }
    if j < n {
      SlotsTile(min, init, j);
    }
    LastSlice(EncodeBlocks(min, init), EncodeBlock(min as int + n, last), if j < n then SlotsFor(min, init)[j] else Slot(0, 0, 0));
  }

  lemma InitFits(min: u64, blocks: seq<seq<Entry>>)
    requires BlocksFit(min, blocks) && blocks != []
    ensures BlocksFit(min, blocks[..|blocks| - 1]) && AllFit(blocks[|blocks| - 1])
    ensures forall j :: 0 <= j < |blocks| ==> AllFit(blocks[j])
    ensures min as int + |blocks| <= 0x1_0000_0000_0000_0000
  {
    hide AllFit;
  }

  lemma NoBytes(min: u64, blocks: seq<seq<Entry>>)
    requires BlocksFit(min, blocks) && blocks == []
    ensures EncodeBlocks(min, blocks) == [] && SlotsFor(min, blocks) == []
  {
  }

  /** The slices of a file that has grown. */
  lemma LastSlice(a: seq<byte>, b: seq<byte>, s: Slot)
    ensures (a + b)[|a|..|a| + |b|] == b
    ensures s.start <= s.end <= |a| ==> (a + b)[s.start..s.end] == a[s.start..s.end]
  {
  }

  /** A new last block: its bytes come last in the data file, and its slot last in the index. */
  lemma PushBlockFits(min: u64, blocks: seq<seq<Entry>>, es: seq<Entry>)
    requires BlocksFit(min, blocks) && AllFit(es) && min as int + |blocks| < 0x1_0000_0000_0000_0000
    ensures BlocksFit(min, blocks + [es])
  {
    hide AllFit;
  }

  lemma PushBlockData(min: u64, blocks: seq<seq<Entry>>, es: seq<Entry>)
    requires BlocksFit(min, blocks) && AllFit(es) && BlocksFit(min, blocks + [es])
    ensures EncodeBlocks(min, blocks + [es]) == EncodeBlocks(min, blocks) + EncodeBlock(min as int + |blocks|, es)
  {
    hide EncodeBlock, BlocksFit, AllFit;
    assert (blocks + [es])[..|blocks|] == blocks;
  }

  lemma PushBlockSlot(min: u64, blocks: seq<seq<Entry>>, es: seq<Entry>)
    requires BlocksFit(min, blocks) && AllFit(es) && BlocksFit(min, blocks + [es])
    ensures SlotsFor(min, blocks + [es]) == SlotsFor(min, blocks)
              + [Slot(min as int + |blocks|, |EncodeBlocks(min, blocks)|, |EncodeBlocks(min, blocks + [es])|)]
  {
    hide EncodeBlocks, BlocksFit, AllFit;
    assert (blocks + [es])[..|blocks|] == blocks;
  }

  lemma PushBlock(min: u64, blocks: seq<seq<Entry>>, es: seq<Entry>)
    requires BlocksFit(min, blocks) && AllFit(es) && min as int + |blocks| < 0x1_0000_0000_0000_0000
    ensures BlocksFit(min, blocks + [es])
    ensures EncodeBlocks(min, blocks + [es]) == EncodeBlocks(min, blocks) + EncodeBlock(min as int + |blocks|, es)
    ensures SlotsFor(min, blocks + [es]) == SlotsFor(min, blocks)
              + [Slot(min as int + |blocks|, |EncodeBlocks(min, blocks)|, |EncodeBlocks(min, blocks)| + |EncodeBlock(min as int + |blocks|, es)|)]
  {
    hide EncodeBlock, EncodeBlocks, SlotsFor, BlocksFit, AllFit;
    PushBlockFits(min, blocks, es);
    PushBlockData(min, blocks, es);
    PushBlockSlot(min, blocks, es);
  }

  /** More entries for the last block. */
  lemma GrowBlock(min: u64, blocks: seq<seq<Entry>>, es: seq<Entry>)
    requires BlocksFit(min, blocks) && AllFit(es) && blocks != []
    ensures var n := |blocks| - 1;
            var grown := blocks[n := blocks[n] + es];
            && BlocksFit(min, grown)
            && EncodeBlocks(min, grown) == EncodeBlocks(min, blocks) + EncodeBlock(min as int + n, es)
            && SlotsFor(min, grown) ==
                 SlotsFor(min, blocks)[n := SlotsFor(min, blocks)[n].(end := |EncodeBlocks(min, blocks)| + |EncodeBlock(min as int + n, es)|)]
  {
    hide EncodeBlock, EncodeBlocks, SlotsFor;
    var n := |blocks| - 1;
    var init, b := blocks[..n], min as int + n;
    PushBlock(min, init, blocks[n]);
    PushBlock(min, init, blocks[n] + es);
    EncodeBlockConcat(b, blocks[n], es);
    assert blocks == init + [blocks[n]] && blocks[n := blocks[n] + es] == init + [blocks[n] + es];
  }

  /** `WriteAt` of one slot; a gap reads back as zero slots. */
  function WriteSlot(ss: seq<Slot>, pos: nat, s: Slot): seq<Slot> {
    if pos < |ss| then ss[pos := s] else ss + seq(pos - |ss|, _ => Slot(0, 0, 0)) + [s]
  }

  /** The slots after flushing a buffer of index entries. */
  function Flushed(ss: seq<Slot>, min: nat, buffer: seq<Slot>): seq<Slot> {
    if buffer == [] then ss
    else
      var init, last := Flushed(ss, min, buffer[..|buffer| - 1]), buffer[|buffer| - 1];
      if last.block < min then init else WriteSlot(init, last.block - min, last)
  }

  lemma FlushedSnoc(ss: seq<Slot>, min: nat, buffer: seq<Slot>, s: Slot)
    ensures Flushed(ss, min, buffer + [s]) ==
              if s.block < min then Flushed(ss, min, buffer) else WriteSlot(Flushed(ss, min, buffer), s.block - min, s)
  {
    hide WriteSlot;
    assert (buffer + [s])[..|buffer|] == buffer;
  }

  /** `flushIndexBufferWithBlockID`. */
  method FlushBuffer(ss: seq<Slot>, min: nat, buffer: seq<Slot>) returns (r: seq<Slot>)
    ensures r == Flushed(ss, min, buffer)
  {
    r := ss;
    for i := 0 to |buffer|
      invariant r == Flushed(ss, min, buffer[..i])
    {
      assert buffer[..i + 1] == buffer[..i] + [buffer[i]];
      FlushedSnoc(ss, min, buffer[..i], buffer[i]);
      if buffer[i].block >= min {
        r := WriteSlot(r, buffer[i].block - min, buffer[i]);
      }
    }
    assert buffer[..|buffer|] == buffer;
  }

  /** `findBlockIndexEntryOnDisk`. */
  function FindSlot(ss: seq<Slot>, min: nat, b: nat): Option<Slot> {
    if b < min || b - min >= |ss| then None
    else
      var s := ss[b - min];
      if s.block != b || s == Slot(0, 0, 0) || s.end < s.start then None else Some(s)
  }

  lemma FindSlotFinds(min: u64, blocks: seq<seq<Entry>>, b: nat)
    requires BlocksFit(min, blocks) && min > 0
    ensures FindSlot(SlotsFor(min, blocks), min, b) ==
              if min <= b < min as int + |blocks| then Some(SlotsFor(min, blocks)[b - min]) else None
  {
    hide EncodeBlocks, SlotsFor;
    if min <= b < min as int + |blocks| {
      SlotsTile(min, blocks, b - min);
    }
  }

  /** Reloading: every slot of a well-formed index is accepted, so the block map is rebuilt whole.
      `loadBlockIndex`, with the minimum block from the metadata, or inferred when there is none. */
  method LoadSlots(ss: seq<Slot>, stored: u64, ghost min: u64, ghost blocks: seq<seq<Entry>>) returns (blockIndex: map<nat, Slot>, newMin: int, latest: nat)
    requires BlocksFit(min, blocks) && (min == 0 <==> blocks == []) && ss == SlotsFor(min, blocks) && (stored == min || stored == 0)
    ensures newMin == min && latest == if blocks == [] then 0 else min as int + |blocks| - 1
    ensures forall b :: b in blockIndex <==> min <= b < min as int + |blocks|
    ensures forall b :: b in blockIndex ==> blockIndex[b] == ss[b - min]
  {
    hide EncodeBlocks, SlotsFor;
    blockIndex, latest := map[], 0;
    var inferred: int, verify := 0, stored != 0;
    for i := 0 to |ss|
      invariant latest == if i == 0 then 0 else min as int + i - 1
      invariant inferred == if i == 0 then 0 else min
      invariant forall b :: b in blockIndex <==> min <= b < min as int + i
      invariant forall b :: b in blockIndex ==> blockIndex[b] == ss[b - min]
    {
      var s := ss[i];
      SlotsTile(min, blocks, i);
      if s.end >= s.start && s != Slot(0, 0, 0) && (!verify || s.block == stored as int + i) {
        if inferred == 0 || s.block < inferred {
          inferred := s.block;
        }
        blockIndex := blockIndex[s.block := s];
        if s.block > latest {
          latest := s.block;
        }
      }
    }
    newMin := if stored == 0 && inferred > 0 then inferred else stored;
  }
}
