/** How the block log's files and its in-memory index stay correct as blocks are added, grown,
    evicted and re-indexed. */
module BlockState {
  import opened Bytes
  import opened BlockFile
  import opened BlockIndex

  /** Block ids stay below the last 64-bit value, so `latest + 1` does not wrap. */
  const MAX_BLOCK := 0xffff_ffff_ffff_ffff

  type Tracking = map<nat, seq<Key>>

  // ----- the files

  ghost predicate FilesOk(kindOf: Kinds, min: u64, blocks: seq<seq<Entry>>, latest: nat, data: seq<byte>) {
    && BlocksOk(kindOf, min, blocks) && min as int + |blocks| <= MAX_BLOCK
    && latest == (if blocks == [] then 0 else min as int + |blocks| - 1)
    && (min == 0 <==> blocks == [])
    && data == EncodeBlocks(min, blocks)
  }

  /** The slot file, once the buffered entries are written, is the slot index of the blocks. */
  ghost predicate SlotsOk(min: u64, blocks: seq<seq<Entry>>, slots: seq<Slot>, buffer: seq<Slot>) {
    && BlocksFit(min, blocks)
    && (blocks == [] ==> slots == [] && buffer == [])
    && Flushed(slots, min, buffer) == SlotsFor(min, blocks)
  }

  /** The minimum after block `b` is added. */
  function MinWith(min: u64, b: u64): u64 {
    if min == 0 then b else min
  }

  ghost predicate Next(min: u64, blocks: seq<seq<Entry>>, b: u64) {
    1 <= b < MAX_BLOCK && (blocks == [] || b as int == min as int + |blocks|)
  }

  ghost predicate BlockOk(kindOf: Kinds, b: u64, es: seq<Entry>) {
    AllFit(es) && Embeds(kindOf, b, es) && Distinct(es)
  }

  lemma FilesPush(kindOf: Kinds, min: u64, blocks: seq<seq<Entry>>, latest: nat, data: seq<byte>, b: u64, es: seq<Entry>)
    requires FilesOk(kindOf, min, blocks, latest, data) && Next(min, blocks, b) && BlockOk(kindOf, b, es)
    ensures FilesOk(kindOf, MinWith(min, b), blocks + [es], b, data + EncodeBlock(b, es))
  {
    hide EncodeBlock, EncodeBlocks, AllFit, Embeds, Distinct;
    var m := MinWith(min, b);
    assert BlocksFit(m, blocks) && EncodeBlocks(m, blocks) == data by {
      NoBlocks(min, m);
    }
    PushBlock(m, blocks, es);
  }

  lemma NoBlocks(min: u64, m: u64)
    ensures BlocksFit(min, []) && BlocksFit(m, [])
    ensures EncodeBlocks(min, []) == EncodeBlocks(m, []) == [] && SlotsFor(min, []) == SlotsFor(m, []) == []
  {
  }

  lemma SlotsPush(kindOf: Kinds, min: u64, blocks: seq<seq<Entry>>, latest: nat, data: seq<byte>, slots: seq<Slot>, buffer: seq<Slot>, b: u64, es: seq<Entry>)
    requires FilesOk(kindOf, min, blocks, latest, data) && SlotsOk(min, blocks, slots, buffer)
    requires Next(min, blocks, b) && AllFit(es)
    ensures SlotsOk(MinWith(min, b), blocks + [es], slots, buffer + [Slot(b, |data|, |data| + |EncodeBlock(b, es)|)])
  {
    hide EncodeBlock, EncodeBlocks, AllFit, Embeds, Distinct, SlotsFor, Flushed;
    var m := MinWith(min, b);
    var s := Slot(b, |data|, |data| + |EncodeBlock(b, es)|);
    NoBlocks(min, m);
    assert Flushed(slots, m, buffer) == SlotsFor(m, blocks) by {
      if blocks == [] {
        assert Flushed([], m, []) == [] by { NothingFlushed(m); }
      }
    }
    PushBlock(m, blocks, es);
    FlushedSnoc(slots, m, buffer, s);
    assert WriteSlot(SlotsFor(m, blocks), |blocks|, s) == SlotsFor(m, blocks) + [s];
  }

  lemma NothingFlushed(min: nat)
    ensures Flushed([], min, []) == []
  {
  }

  lemma GrowSeq(blocks: seq<seq<Entry>>, es: seq<Entry>)
    requires blocks != []
    ensures |Grown(blocks, es)| == |blocks| && Grown(blocks, es)[|blocks| - 1] == blocks[|blocks| - 1] + es
    ensures forall j :: 0 <= j < |blocks| - 1 ==> Grown(blocks, es)[j] == blocks[j]
  {
  }

  /** More entries in the last block. */
  function Grown(blocks: seq<seq<Entry>>, es: seq<Entry>): seq<seq<Entry>>
    requires blocks != []
  {
    blocks[|blocks| - 1 := blocks[|blocks| - 1] + es]
  }

  lemma FilesGrow(kindOf: Kinds, min: u64, blocks: seq<seq<Entry>>, latest: nat, data: seq<byte>, es: seq<Entry>)
    requires FilesOk(kindOf, min, blocks, latest, data) && blocks != [] && BlockOk(kindOf, latest, blocks[|blocks| - 1] + es)
    ensures AllFit(es) && AllFit(blocks[|blocks| - 1]) && BlocksFit(min, Grown(blocks, es))
    ensures FilesOk(kindOf, min, Grown(blocks, es), latest, data + EncodeBlock(latest, es))
  {
    hide EncodeBlock, EncodeBlocks, Embeds, Distinct, Fits;
    var last := blocks[|blocks| - 1];
    assert AllFit(es) by {
      assert forall i :: 0 <= i < |es| ==> es[i] == (last + es)[|last| + i];
    }
    GrowBlock(min, blocks, es);
    GrowSeq(blocks, es);
  }

  lemma SlotsGrow(kindOf: Kinds, min: u64, blocks: seq<seq<Entry>>, latest: nat, data: seq<byte>, slots: seq<Slot>, es: seq<Entry>)
    requires FilesOk(kindOf, min, blocks, latest, data) && SlotsOk(min, blocks, slots, []) && blocks != [] && AllFit(es)
    ensures slots == SlotsFor(min, blocks)
    ensures var s := slots[|blocks| - 1];
            && s.block == latest && s.end == |data|
            && SlotsOk(min, Grown(blocks, es), slots, [s.(end := |data| + |EncodeBlock(latest, es)|)])
  {
    hide EncodeBlock, EncodeBlocks, AllFit, Embeds, Distinct, SlotsFor;
    var n := |blocks| - 1;
    SlotsTile(min, blocks, n);
    var s := slots[n];
    var t := s.(end := |data| + |EncodeBlock(latest, es)|);
    GrowBlock(min, blocks, es);
    FlushedSnoc(slots, min, [], t);
    assert [] + [t] == [t];
    assert WriteSlot(slots, n, t) == slots[n := t];
  }

  // ----- the abstract contents

  lemma StoredPush(kindOf: Kinds, min: u64, blocks: seq<seq<Entry>>, b: u64, es: seq<Entry>, key: Key)
    requires Next(min, blocks, b) && (min == 0 <==> blocks == []) && Embeds(kindOf, b, es)
    ensures Stored(kindOf, MinWith(min, b), blocks + [es], key) ==
              if BlockOf(kindOf, key) == Some(b) then FindIn(es, key) else Stored(kindOf, min, blocks, key)
  {
    hide FindIn;
  }

  lemma StoredGrow(kindOf: Kinds, min: u64, blocks: seq<seq<Entry>>, es: seq<Entry>, key: Key)
    requires blocks != []
    ensures Stored(kindOf, min, Grown(blocks, es), key) ==
              if BlockOf(kindOf, key) == Some(min as int + |blocks| - 1) then FindIn(blocks[|blocks| - 1] + es, key)
              else Stored(kindOf, min, blocks, key)
  {
    hide FindIn;
  }

  lemma {:induction false} FindInConcat(x: seq<Entry>, y: seq<Entry>, key: Key)
    ensures FindIn(x + y, key) == if FindIn(y, key).Some? then FindIn(y, key) else FindIn(x, key)
    decreases |y|
  {
    if y == [] {
      assert x + y == x;
    } else {
      FindInConcat(x, y[..|y| - 1], key);
      assert (x + y)[..|x + y| - 1] == x + y[..|y| - 1];
    }
  }

  // ----- the skiplist

  ghost predicate AllIndexed(min: u64, blocks: seq<seq<Entry>>, skip: Skiplist, indexed: set<nat>) {
    forall b :: b in indexed ==> IndexedOk(min, blocks, skip, b)
  }

  ghost predicate IndexOk(min: u64, blocks: seq<seq<Entry>>, skip: Skiplist, indexed: set<nat>) {
    BlocksFit(min, blocks) && SkipOk(min, blocks, skip) && AllIndexed(min, blocks, skip, indexed)
  }

  /** Every skiplist key is listed for its block. */
  ghost predicate Tracked(track: Tracking, skip: Skiplist) {
    forall k :: k in skip ==> skip[k].block in track && k in track[skip[k].block]
  }

  /** The skiplist without the keys of one block. */
  function Without(skip: Skiplist, b: nat): Skiplist {
    map k | k in skip && skip[k].block != b :: skip[k]
  }

  /** A skiplist key points into the block it names. */
  lemma PointsHome(kindOf: Kinds, min: u64, blocks: seq<seq<Entry>>, skip: Skiplist, key: Key)
    requires BlocksOk(kindOf, min, blocks) && SkipOk(min, blocks, skip) && key in skip
    ensures BlockOf(kindOf, key) == Some(skip[key].block) && min <= skip[key].block < min as int + |blocks|
  {
    hide EncodeBlock, BlockStart;
    var i :| PtrAt(min, blocks, key, skip[key], i);
    assert Embeds(kindOf, skip[key].block, blocks[skip[key].block - min]);
  }

  /** Dropping one block's keys hurts no other block. */
  lemma EvictOk(kindOf: Kinds, min: u64, blocks: seq<seq<Entry>>, skip: Skiplist, indexed: set<nat>, o: nat)
    requires BlocksOk(kindOf, min, blocks) && IndexOk(min, blocks, skip, indexed)
    ensures IndexOk(min, blocks, Without(skip, o), indexed - {o})
  {
    hide BlocksFit, PtrAt;
    var after := Without(skip, o);
    forall b | b in indexed - {o} ensures IndexedOk(min, blocks, after, b) {
      assert IndexedOk(min, blocks, skip, b);
      var es := blocks[b - min];
      forall i | 0 <= i < |es| ensures es[i].key in after {
        PointsHome(kindOf, min, blocks, skip, es[i].key);
        assert Embeds(kindOf, min as int + (b - min), es);
      }
    }
  }

  lemma TrackedWithout(track: Tracking, skip: Skiplist, o: nat)
    requires Tracked(track, skip)
    ensures Tracked(track - {o}, Without(skip, o))
  {
  }

  lemma IndexSame(min: u64, m: u64, blocks: seq<seq<Entry>>, skip: Skiplist, indexed: set<nat>)
    requires IndexOk(min, blocks, skip, indexed) && (min == m || blocks == []) && BlocksFit(m, blocks)
    ensures IndexOk(m, blocks, skip, indexed)
  {
    hide PtrAt, IndexedOk;
    if min != m {
      assert forall k, i :: k in skip ==> !PtrAt(min, blocks, k, skip[k], i) by { NoPtr(min, blocks, skip); }
      assert forall k :: k !in skip;
      assert forall b :: b !in indexed by { NoneIndexed(min, blocks, skip, indexed); }
    }
  }

  lemma NoPtr(min: u64, blocks: seq<seq<Entry>>, skip: Skiplist)
    requires blocks == [] && BlocksFit(min, blocks)
    ensures forall k, i :: k in skip ==> !PtrAt(min, blocks, k, skip[k], i)
  {
  }

  lemma NoneIndexed(min: u64, blocks: seq<seq<Entry>>, skip: Skiplist, indexed: set<nat>)
    requires blocks == [] && AllIndexed(min, blocks, skip, indexed)
    ensures forall b :: b !in indexed
  {
    assert forall b :: b in indexed ==> IndexedOk(min, blocks, skip, b);
  }

  /** Adding a block keeps the index right for the others. */
  lemma IndexPush(min: u64, blocks: seq<seq<Entry>>, skip: Skiplist, indexed: set<nat>, es: seq<Entry>)
    requires IndexOk(min, blocks, skip, indexed) && BlocksFit(min, blocks + [es])
    ensures IndexOk(min, blocks + [es], skip, indexed)
  {
    hide BlocksFit, PtrAt, SkipOk, KeysIn;
    SkipAfterPush(min, blocks, es, skip);
    forall b | b in indexed ensures IndexedOk(min, blocks + [es], skip, b) {
      assert IndexedOk(min, blocks, skip, b);
    }
  }

  lemma AddPtrsFrom(kindOf: Kinds, skip: Skiplist, b: u64, base: nat, es: seq<Entry>, k: Key)
    requires AllFit(es) && k in AddPtrs(kindOf, skip, b, base, es)
    ensures var r := AddPtrs(kindOf, skip, b, base, es);
            (k in KeysOf(es) && r[k].block == b) || (k in skip && r[k] == skip[k])
  {
    hide EncodeBlock, Fits;
    if es != [] {
      var n := |es| - 1;
      if k == es[n].key {
        assert KeysOf(es)[n] == k;
      } else {
        AddPtrsFrom(kindOf, skip, b, base, es[..n], k);
        if k in KeysOf(es[..n]) {
          var i :| 0 <= i < n && KeysOf(es[..n])[i] == k;
          assert KeysOf(es)[i] == k;
        }
      }
    }
  }

  /** Recording the keys of newly indexed entries keeps them tracked. */
  lemma TrackedAdd(kindOf: Kinds, track: Tracking, skip: Skiplist, b: u64, base: nat, es: seq<Entry>)
    requires Tracked(track, skip) && AllFit(es)
    ensures Tracked(TrackMore(track, b, KeysOf(es)), AddPtrs(kindOf, skip, b, base, es))
  {
    hide AddPtrs, KeysOf, Fits;
    var r := AddPtrs(kindOf, skip, b, base, es);
    forall k | k in r ensures r[k].block in TrackMore(track, b, KeysOf(es)) && k in TrackMore(track, b, KeysOf(es))[r[k].block] {
      AddPtrsFrom(kindOf, skip, b, base, es, k);
    }
  }

  function TrackMore(track: Tracking, b: nat, keys: seq<Key>): Tracking {
    track[b := (if b in track then track[b] else []) + keys]
  }

  /** Indexing the last `es` entries of block `b` makes the whole block indexed, when the earlier
      entries already were. */
  lemma IndexAdd(kindOf: Kinds, min: u64, blocks: seq<seq<Entry>>, skip: Skiplist, indexed: set<nat>, b: u64, before: seq<Entry>, es: seq<Entry>)
    requires BlocksFit(min, blocks) && min <= b < min as int + |blocks| && blocks[b - min] == before + es
    requires IndexOk(min, blocks, skip, indexed) && KeysIn(before, skip)
    ensures AllFit(before) && AllFit(es)
    ensures IndexOk(min, blocks, AddPtrs(kindOf, skip, b, BlockStart(min, blocks, b - min) + |EncodeBlock(b, before)|, es), indexed + {b as nat})
  {
    hide EncodeBlock, BlockStart, AddPtrs, SkipOk, Fits;
    var all := blocks[b - min];
    assert forall i :: 0 <= i < |before| ==> before[i] == all[i];
    assert forall i :: 0 <= i < |es| ==> es[i] == all[|before| + i];
    assert before + es + [] == before + es;
    AddPtrsOk(kindOf, min, blocks, skip, b, before, es, []);
    var base := BlockStart(min, blocks, b - min) + |EncodeBlock(b, before)|;
    AddPtrsKeys(kindOf, skip, b, base, es);
    IndexedMore(min, blocks, skip, AddPtrs(kindOf, skip, b, base, es), indexed, b, before, es);
  }

  lemma IndexedMore(min: u64, blocks: seq<seq<Entry>>, skip: Skiplist, r: Skiplist, indexed: set<nat>, b: u64, before: seq<Entry>, es: seq<Entry>)
    requires min <= b < min as int + |blocks| && blocks[b - min] == before + es
    requires AllIndexed(min, blocks, skip, indexed) && KeysIn(before, skip) && KeysIn(es, r)
    requires forall k :: k in skip ==> k in r
    ensures AllIndexed(min, blocks, r, indexed + {b as nat})
  {
    forall x | x in indexed ensures IndexedOk(min, blocks, r, x) {
      assert IndexedOk(min, blocks, skip, x);
    }
  }

  // ----- what `Get` sees

  lemma SkipRead(kindOf: Kinds, min: u64, blocks: seq<seq<Entry>>, skip: Skiplist, key: Key)
    requires BlocksOk(kindOf, min, blocks) && SkipOk(min, blocks, skip) && key in skip
    ensures var r := ReadEntry(EncodeBlocks(min, blocks), skip[key].offset);
            && r.Good? && Stored(kindOf, min, blocks, key) == Some(r.val)
            && (skip[key].inline.Some? ==> skip[key].inline.value == r.val)
  {
    hide EncodeBlock, EncodeBlocks, BlockStart, ReadEntry, FindIn;
    PointsHome(kindOf, min, blocks, skip, key);
    var p := skip[key];
    var i :| PtrAt(min, blocks, key, p, i);
    ReadThrough(min, blocks, key, p, i);
    FindInUnique(blocks[p.block - min], key, i);
  }

  lemma IndexedMiss(kindOf: Kinds, min: u64, blocks: seq<seq<Entry>>, skip: Skiplist, indexed: set<nat>, b: nat, key: Key)
    requires BlocksOk(kindOf, min, blocks) && AllIndexed(min, blocks, skip, indexed)
    requires b in indexed && BlockOf(kindOf, key) == Some(b) && key !in skip
    ensures Stored(kindOf, min, blocks, key) == None
  {
    hide FindIn;
    assert IndexedOk(min, blocks, skip, b);
  }
}
