/** The block append-only log (`BlockAppendOnlyLog`): a data file, a slot index, a window of recent
    blocks whose keys are held in a skiplist, and restart. */
module BlockLog {
  import opened Bytes
  import opened BlockFile
  import opened BlockIndex
  import opened BlockState

  /** Blocks this far behind the latest are answered as blank without a read. */
  const IGNORED_THRESHOLD := 10000

  /** The value `"_D_"`. */
  const TOMBSTONE: seq<byte> := [0x5f, 0x44, 0x5f]

  datatype Answer = Found(val: seq<byte>) | Blank | Missing | FutureBlock

  datatype AppendResult = Ok | NonMonotonic

  function AnswerOf(v: seq<byte>): Answer {
    if v == TOMBSTONE then Blank else Found(v)
  }

  // ----- the order of entries within one append

  function Priority(kindOf: Kinds, key: Key): nat {
    match kindOf(key) case Header => 0 case Body => 1 case Receipts => 2 case Other => 3
  }

  predicate Before(kindOf: Kinds, a: Key, b: Key) {
    var p, q := Priority(kindOf, a), Priority(kindOf, b);
    p < q || (p == q && Less(a, b))
  }

  lemma BeforeTransitive(kindOf: Kinds, a: Key, b: Key, c: Key)
    requires Before(kindOf, a, b) && Before(kindOf, b, c)
    ensures Before(kindOf, a, c)
  {
    if Priority(kindOf, a) == Priority(kindOf, b) == Priority(kindOf, c) {
      LessTransitive(a, b, c);
    }
  }

  ghost predicate Ordered(kindOf: Kinds, es: seq<Entry>) {
    forall i, j :: 0 <= i < j < |es| ==> Before(kindOf, es[i].key, es[j].key)
  }

  /** `es` lists the pairs of `kvs`, in write order. */
  ghost predicate Lists(kindOf: Kinds, es: seq<Entry>, kvs: map<Key, seq<byte>>) {
    && Ordered(kindOf, es)
    && (forall i :: 0 <= i < |es| ==> es[i].key in kvs && kvs[es[i].key] == es[i].val)
    && (forall k :: k in kvs ==> Entry(k, kvs[k]) in es)
  }

  method FirstKey(kindOf: Kinds, keys: set<Key>) returns (m: Key)
    requires keys != {}
    ensures m in keys && forall k :: k in keys && k != m ==> Before(kindOf, m, k)
  {
    hide Less, Priority;
    m :| m in keys;
    var rest := keys - {m};
    while rest != {}
      invariant rest <= keys && m in keys && m !in rest
      invariant forall k :: k in keys && k !in rest && k != m ==> Before(kindOf, m, k)
      decreases rest
    {
      var k :| k in rest;
      rest := rest - {k};
      LessTrichotomy(m, k);
      if Before(kindOf, k, m) {
        forall x | x in keys && x !in rest && x != k ensures Before(kindOf, k, x) {
          if x != m {
            BeforeTransitive(kindOf, k, m, x);
          }
        }
        m := k;
      }
    }
  }

  /** The sorting step of `writeLogEntries`. */
  method ListKvs(kindOf: Kinds, kvs: map<Key, seq<byte>>) returns (es: seq<Entry>)
    ensures Lists(kindOf, es, kvs)
    ensures forall i, j :: 0 <= i < j < |es| ==>
              var p, q := kindOf(es[i].key), kindOf(es[j].key);
              (p == q && Less(es[i].key, es[j].key)) || (p == Header && q != Header) || (p == Body && q != Body && q != Header) || (p == Receipts && q == Other)
  {
    hide Before, Less;
    es := [];
    var rest := kvs.Keys;
    while rest != {}
      invariant rest <= kvs.Keys && Ordered(kindOf, es)
      invariant forall i :: 0 <= i < |es| ==> es[i].key in kvs && es[i].key !in rest && kvs[es[i].key] == es[i].val
      invariant forall k :: k in kvs && k !in rest ==> Entry(k, kvs[k]) in es
      invariant forall i, k :: 0 <= i < |es| && k in rest ==> Before(kindOf, es[i].key, k)
      decreases rest
    {
      var k := FirstKey(kindOf, rest);
      ghost var was := es;
      es := es + [Entry(k, kvs[k])];
      rest := rest - {k};
      assert forall e :: e in was ==> e in es;
      assert es[|was|] == Entry(k, kvs[k]);
    }
    OrderedKinds(kindOf, es);
  }

  /** Headers, then bodies, then receipts, then the rest, each by key. */
  lemma OrderedKinds(kindOf: Kinds, es: seq<Entry>)
    requires Ordered(kindOf, es)
    ensures forall i, j :: 0 <= i < j < |es| ==>
              var p, q := kindOf(es[i].key), kindOf(es[j].key);
              (p == q && Less(es[i].key, es[j].key)) || (p == Header && q != Header) || (p == Body && q != Body && q != Header) || (p == Receipts && q == Other)
  {
    hide Less;
  }

  /** The bytes `writeLogEntries` produces. */
  method Serialize(b: u64, es: seq<Entry>) returns (bytes: seq<byte>)
    requires AllFit(es)
    ensures bytes == EncodeBlock(b, es)
  {
    hide EncodeEntry, Fits;
    bytes := [];
    for i := 0 to |es|
      invariant bytes == EncodeBlock(b, es[..i])
    {
      assert es[..i + 1][..i] == es[..i];
      bytes := bytes + EncodeEntry(b, es[i]);
    }
    assert es[..|es|] == es;
  }

  /** What a listing of new pairs gives: a block's worth of entries that finds each pair. */
  lemma ListedBlock(kindOf: Kinds, b: u64, es: seq<Entry>, kvs: map<Key, seq<byte>>)
    requires Lists(kindOf, es, kvs)
    requires forall k :: k in kvs ==> BlockOf(kindOf, k) == Some(b) && Fits(Entry(k, kvs[k]))
    ensures BlockOk(kindOf, b, es) && (es == [] <==> kvs == map[])
    ensures forall k :: FindIn(es, k) == if k in kvs then Some(kvs[k]) else None
  {
    hide Less, FindIn, BlockOf;
    forall i, j | 0 <= i < j < |es| ensures es[i].key != es[j].key {
      LessTrichotomy(es[i].key, es[j].key);
    }
    assert forall i :: 0 <= i < |es| ==> es[i] == Entry(es[i].key, kvs[es[i].key]);
    forall k ensures FindIn(es, k) == if k in kvs then Some(kvs[k]) else None {
      if k in kvs {
        var i :| 0 <= i < |es| && es[i] == Entry(k, kvs[k]);
        FindInUnique(es, k, i);
      }
    }
    if kvs != map[] {
      var k :| k in kvs;
      assert Entry(k, kvs[k]) in es;
    }
    if es != [] {
      assert es[0].key in kvs;
    }
  }

  lemma GrownBlockOk(kindOf: Kinds, b: u64, last: seq<Entry>, es: seq<Entry>, kvs: map<Key, seq<byte>>)
    requires BlockOk(kindOf, b, last) && BlockOk(kindOf, b, es)
    requires forall k :: FindIn(es, k) == if k in kvs then Some(kvs[k]) else None
    requires forall k :: k in kvs ==> FindIn(last, k) == None
    ensures BlockOk(kindOf, b, last + es)
    ensures forall k :: FindIn(last + es, k) == if k in kvs then Some(kvs[k]) else FindIn(last, k)
  {
    hide FindIn, BlockOf, Fits;
    forall i, j | 0 <= i < |last| && 0 <= j < |es| ensures last[i].key != es[j].key {
      FindInUnique(es, es[j].key, j);
      FindInUnique(last, last[i].key, i);
    }
    forall k ensures FindIn(last + es, k) == if k in kvs then Some(kvs[k]) else FindIn(last, k) {
      FindInConcat(last, es, k);
    }
  }

  // ----- sorted block ids

  ghost predicate Ascending(s: seq<nat>) {
    forall i, j :: 0 <= i < j < |s| ==> s[i] < s[j]
  }

  /** `s` lists `ids` from oldest to newest. */
  ghost predicate SortedIds(s: seq<nat>, ids: set<nat>) {
    Ascending(s) && forall x :: x in ids <==> x in s
  }

  method SortIds(ids: set<nat>) returns (s: seq<nat>)
    ensures SortedIds(s, ids)
  {
    s := [];
    var rest := ids;
    while rest != {}
      invariant rest <= ids && Ascending(s)
      invariant forall x :: x in ids <==> x in rest || x in s
      invariant forall i, x :: 0 <= i < |s| && x in rest ==> s[i] < x
      decreases rest
    {
      var m := MinId(rest);
      ghost var was := s;
      s := s + [m];
      rest := rest - {m};
      assert forall x :: x in s <==> x in was || x == m;
    }
  }

  method MinId(ids: set<nat>) returns (m: nat)
    requires ids != {}
    ensures m in ids && forall x :: x in ids ==> m <= x
  {
    m :| m in ids;
    var rest := ids - {m};
    while rest != {}
      invariant rest <= ids && m in ids
      invariant forall x :: x in ids && x !in rest ==> m <= x
      decreases rest
    {
      var x :| x in rest;
      rest := rest - {x};
      if x < m {
        m := x;
      }
    }
  }

  function LastN<T>(s: seq<T>, n: nat): seq<T> {
    if |s| > n then s[|s| - n..] else s
  }

  /** The ids from `a` to `b`. */
  function Range(a: nat, b: nat): (r: seq<nat>)
    requires a <= b + 1
  {
    seq(b + 1 - a, i requires 0 <= i => a + i)
  }

  lemma {:induction false} RangeUnique(s: seq<nat>, a: nat, b: nat)
    requires a <= b + 1 && Ascending(s) && forall x :: x in s <==> a <= x <= b
    ensures s == Range(a, b)
    decreases b + 1 - a
  {
    assert a <= b ==> a in s;
    if s != [] {
      assert s[0] in s;
    }
    if a <= b {
      var t := s[1..];
      assert s == [s[0]] + t;
      forall x ensures x in t <==> a + 1 <= x <= b {
        assert x in s <==> x == s[0] || x in t;
      }
      RangeUnique(t, a + 1, b);
      assert Range(a, b) == [a] + Range(a + 1, b);
    }
  }

  /** The recent window of a log written in one session: the last `n` blocks, all indexed. */
  ghost predicate Windowed(min: nat, count: nat, n: nat, recent: seq<nat>, indexed: set<nat>) {
    var c := if count < n then count else n;
    && |recent| == c && (forall i :: 0 <= i < c ==> recent[i] == min + count - c + i)
    && forall x :: x in indexed <==> min + count - c <= x < min + count
  }

  /** From an indexed block on, every block is indexed. */
  ghost predicate Upward(indexed: set<nat>, latest: nat) {
    forall b, c :: b in indexed && b <= c <= latest ==> c in indexed
  }

  lemma WindowPush(min: u64, blocks: seq<seq<Entry>>, n: nat, recent: seq<nat>, indexed: set<nat>, b: u64, after: set<nat>)
    requires n >= 1 && Windowed(min, |blocks|, n, recent, indexed) && Next(min, blocks, b) && (min == 0 <==> blocks == [])
    requires after == if |recent| == n then indexed + {b as nat} - {recent[0]} else indexed + {b as nat}
    ensures Windowed(MinWith(min, b), |blocks| + 1, n, LastN(recent + [b as nat], n), after)
  {
  }

  ghost predicate AllOrdered(kindOf: Kinds, blocks: seq<seq<Entry>>) {
    forall j :: 0 <= j < |blocks| ==> Ordered(kindOf, blocks[j])
  }

  ghost predicate AtMost(s: seq<nat>, latest: nat) {
    forall i :: 0 <= i < |s| ==> s[i] <= latest
  }

  // ----- the blocks after an append

  function Gaps(n: nat): seq<seq<Entry>> {
    seq(n, _ => [])
  }

  class BlockLog {
    const kindOf: Kinds
    const recentN: nat

    // the files
    var data: seq<byte>
    var offset: nat
    var slots: seq<Slot>
    var meta: Option<(u64, nat)>
    var buffer: seq<Slot>

    // memory
    var minBlock: u64
    var latest: nat
    var recent: Option<seq<nat>>
    var skip: Skiplist
    var indexed: set<nat>
    var track: Option<Tracking>

    /** What was appended, block by block from `minBlock` on. */
    ghost var blocks: seq<seq<Entry>>

    ghost predicate Valid()
      reads this
    {
      && recentN >= 1
      && FilesOk(kindOf, minBlock, blocks, latest, data) && offset == |data|
      && SlotsOk(minBlock, blocks, slots, []) && buffer == []
      && meta == (if blocks == [] then None else Some((minBlock, latest)))
      && IndexOk(minBlock, blocks, skip, indexed)
      && (track.Some? ==> Tracked(track.value, skip))
      && (recent.Some? ==> |recent.value| <= recentN && AtMost(recent.value, latest))
    }

    /** Valid with write tracking on, index entries possibly still buffered and the metadata stale. */
    ghost predicate Open()
      reads this
    {
      && recentN >= 1
      && FilesOk(kindOf, minBlock, blocks, latest, data) && offset == |data|
      && SlotsOk(minBlock, blocks, slots, buffer)
      && IndexOk(minBlock, blocks, skip, indexed)
      && track.Some? && Tracked(track.value, skip)
      && recent.Some? && |recent.value| <= recentN && AtMost(recent.value, latest)
    }

    ghost predicate OneSession()
      reads this
    {
      recent.Some? && track.Some? && Windowed(minBlock, |blocks|, recentN, recent.value, indexed)
    }

    /** The abstract map. */
    ghost function Value(key: Key): Option<seq<byte>>
      reads this
    {
      Stored(kindOf, minBlock, blocks, key)
    }

    constructor (kindOf: Kinds, recentN: nat)
      requires recentN >= 1
      ensures Valid() && blocks == [] && this.kindOf == kindOf && this.recentN == recentN
      ensures recent == Some([]) && indexed == {} && skip == map[]
    {
      this.kindOf, this.recentN := kindOf, recentN;
      data, offset, slots, meta, buffer := [], 0, [], None, [];
      minBlock, latest := 0, 0;
      recent, skip, indexed, track := Some([]), map[], {}, Some(map[]);
      blocks := [];
      new;
      NoBlocks(0, 0);
      NothingFlushed(0);
    }

    /** `ensureWriteTrackingInitialized`: the recent window is rebuilt from the skiplist. */
    method EnsureTracking()
      requires Valid()
      modifies this`recent, this`track
      ensures Valid() && recent.Some? && track.Some?
      ensures old(recent.Some? && track.Some?) ==> recent == old(recent) && track == old(track)
      ensures !old(recent.Some? && track.Some?) ==>
                exists ids: seq<nat> :: SortedIds(ids, set k | k in skip :: skip[k].block) && recent == Some(LastN(ids, recentN))
    {
      hide SlotsOk, SkipOk, AllIndexed, BlocksOk, EncodeBlocks;
      if recent.Some? && track.Some? {
        return;
      }
      var t := CollectKeys(skip);
      var ids := SortIds(set k | k in skip :: skip[k].block);
      forall k | k in skip ensures skip[k].block <= latest {
        PointsHome(kindOf, minBlock, blocks, skip, k);
      }
      assert forall i :: 0 <= i < |ids| ==> ids[i] in ids;
      recent := Some(LastN(ids, recentN));
      track := Some(t);
    }

    /** `evictOldBlockFromSkiplist`: the listed keys are dropped, or a full scan when none is listed. */
    method Evict(o: nat)
      requires track.Some? && Tracked(track.value, skip)
      modifies this`skip, this`track
      ensures skip == Without(old(skip), o)
      ensures track == Some(old(track.value) - {o})
    {
      var keys := if o in track.value then track.value[o] else [];
      ghost var was := skip;
      if keys == [] {
        skip := Without(skip, o);
      } else {
        for i := 0 to |keys|
          invariant track == old(track)
          invariant skip.Keys <= was.Keys && forall k :: k in skip ==> skip[k] == was[k]
          invariant forall k :: k in was && k !in skip ==> was[k].block == o
          invariant forall j :: 0 <= j < i && keys[j] in skip ==> was[keys[j]].block != o
        {
          if keys[i] in skip && skip[keys[i]].block == o {
            skip := skip - {keys[i]};
          }
        }
        assert forall k :: k in was && was[k].block == o ==> k in keys;
        assert skip == Without(was, o);
      }
      track := Some(track.value - {o});
    }

    /** `updateRecentBlocks`. */
    method UpdateRecent(b: nat)
      requires recentN >= 1 && recent.Some? && |recent.value| <= recentN && track.Some? && Tracked(track.value, skip)
      modifies this`recent, this`indexed, this`skip, this`track
      ensures recent == Some(LastN(old(recent.value) + [b], recentN))
      ensures track.Some? && Tracked(track.value, skip)
      ensures if |old(recent.value)| == recentN then
                var o := old(recent.value)[0];
                skip == Without(old(skip), o) && indexed == old(indexed) + {b} - {o}
              else skip == old(skip) && indexed == old(indexed) + {b}
    {
      hide Tracked, Without;
      var r := recent.value + [b];
      indexed := indexed + {b};
      recent := Some(r);
      if |r| > recentN {
        var o := r[0];
        recent := Some(r[1..]);
        indexed := indexed - {o};
        TrackedWithout(track.value, skip, o);
        Evict(o);
      }
    }

    /** A block is added at the end of both files and enters the recent window. */
    method WriteNewBlock(b: u64, bytes: seq<byte>, ghost es: seq<Entry>)
      requires Open() && Next(minBlock, blocks, b) && BlockOk(kindOf, b, es) && bytes == EncodeBlock(b, es)
      modifies this`data, this`offset, this`buffer, this`minBlock, this`latest, this`recent, this`indexed, this`skip, this`track, this`blocks
      ensures blocks == old(blocks) + [es] && minBlock == MinWith(old(minBlock), b) && latest == b
      ensures FilesOk(kindOf, minBlock, blocks, latest, data) && data == old(data) + bytes && offset == |data|
      ensures SlotsOk(minBlock, blocks, slots, buffer)
      ensures IndexOk(minBlock, blocks, skip, indexed - {b as nat}) && b as nat in indexed
      ensures track.Some? && Tracked(track.value, skip)
      ensures recent.Some? && |recent.value| <= recentN && AtMost(recent.value, latest)
      ensures old(OneSession()) ==> OneSession()
    {
      hide SlotsOk, IndexOk, BlocksOk, EncodeBlocks, EncodeBlock, Windowed, Tracked, BlockOk, Without;
      FilesPush(kindOf, minBlock, blocks, latest, data, b, es);
      assert BlockOk(kindOf, b, es) ==> AllFit(es) by { BlockFits(kindOf, b, es); }
      SlotsPush(kindOf, minBlock, blocks, latest, data, slots, buffer, b, es);
      if old(OneSession()) {
        WindowPush(minBlock, blocks, recentN, recent.value, indexed, b,
          if |recent.value| == recentN then indexed + {b as nat} - {recent.value[0]} else indexed + {b as nat});
      }
      IndexNext(kindOf, minBlock, blocks, latest, data, skip, indexed, b, es);
      data := data + bytes;
      buffer := buffer + [Slot(b, offset, offset + |bytes|)];
      offset := offset + |bytes|;
      if minBlock == 0 {
        minBlock := b;
      }
      latest := b;
      ghost var window := recent.value;
      UpdateRecent(b);
      blocks := blocks + [es];
      assert |window| == recentN ==> window[0] <= old(latest);
      assert indexed - {b as nat} <= if |window| == recentN then old(indexed) - {window[0]} else old(indexed);
      FewerIndexed(minBlock, blocks, skip, if |window| == recentN then old(indexed) - {window[0]} else old(indexed), indexed - {b as nat});
    }

    /** The decoded entries of the newest bytes go into the skiplist. */
    method IndexNewest(start: nat, bytes: seq<byte>, ghost before: seq<Entry>, ghost es: seq<Entry>)
      requires FilesOk(kindOf, minBlock, blocks, latest, data) && blocks != [] && blocks[|blocks| - 1] == before + es
      requires AllFit(before) && AllFit(es) && bytes == EncodeBlock(latest, es)
      requires start == BlockStart(minBlock, blocks, |blocks| - 1) + |EncodeBlock(latest, before)|
      requires IndexOk(minBlock, blocks, skip, indexed - {latest}) && latest in indexed && KeysIn(before, skip)
      requires track.Some? && Tracked(track.value, skip)
      modifies this`skip, this`track
      ensures IndexOk(minBlock, blocks, skip, indexed)
      ensures track.Some? && Tracked(track.value, skip)
    {
      hide IndexOk, EncodeBlocks, EncodeBlock, Tracked, AddPtrs, KeysOf, BlockStart, Embeds, Distinct;
      IndexAdd(kindOf, minBlock, blocks, skip, indexed - {latest}, latest, before, es);
      TrackedAdd(kindOf, track.value, skip, latest, start, es);
      assert indexed - {latest} + {latest} == indexed;
      var keys;
      skip, keys := IndexBytes(kindOf, skip, latest, start, bytes, es);
      track := Some(TrackMore(track.value, latest, keys));
    }

    /** `fillMissingBlocksUntil`: empty blocks up to, not including, `target`. */
    method FillMissing(target: u64)
      requires Valid() && recent.Some? && track.Some? && target < MAX_BLOCK
      modifies this
      ensures Valid() && recent.Some? && track.Some? && data == old(data)
      ensures blocks == old(blocks) + Gaps(if target as int > old(latest) + 1 then target as int - old(latest) - 1 else 0)
      ensures minBlock == if target as int > old(latest) + 1 then MinWith(old(minBlock), old(latest) + 1) else old(minBlock)
      ensures forall k :: Value(k) == old(Value(k))
      ensures old(OneSession()) ==> OneSession()
    {
      hide SlotsOk, IndexOk, BlocksOk, EncodeBlocks, Windowed, Tracked, Stored;
      assert blocks + Gaps(0) == blocks;
      if target as int <= latest + 1 {
        return;
      }
      ghost var n := 0;
      while latest + 1 < target
        invariant Open() && latest == old(latest) + n < target && data == old(data)
        invariant minBlock == if n == 0 then old(minBlock) else MinWith(old(minBlock), old(latest) + 1)
        invariant blocks == old(blocks) + Gaps(n)
        invariant forall k :: Value(k) == old(Value(k))
        invariant old(OneSession()) ==> OneSession()
        decreases target as int - latest
      {
        AddEmpty(latest + 1);
        n := n + 1;
        assert old(blocks) + Gaps(n - 1) + [[]] == old(blocks) + Gaps(n);
      }
      Flush();
      meta := Some((minBlock, latest));
    }

    method AddEmpty(b: u64)
      requires Open() && b == latest + 1 < MAX_BLOCK
      modifies this`data, this`offset, this`buffer, this`minBlock, this`latest, this`recent, this`indexed, this`skip, this`track, this`blocks
      ensures Open() && blocks == old(blocks) + [[]] && minBlock == MinWith(old(minBlock), b) && latest == b && data == old(data)
      ensures forall k :: Value(k) == old(Value(k))
      ensures old(OneSession()) ==> OneSession()
    {
      hide SlotsOk, BlocksOk, EncodeBlocks, Windowed, Tracked, Stored, SkipOk, BlocksFit;
      assert BlockOk(kindOf, b, []) && EncodeBlock(b, []) == [];
      forall k ensures Stored(kindOf, MinWith(minBlock, b), blocks + [[]], k) == old(Value(k)) {
        StoredPush(kindOf, minBlock, blocks, b, [], k);
        StoredBound(kindOf, minBlock, blocks, k);
      }
      WriteNewBlock(b, [], []);
      forall x | x in indexed ensures IndexedOk(minBlock, blocks, skip, x) {
        if x != b {
          assert x in indexed - {b as nat};
        }
      }
    }

    /** `flushIndexBuffer`. */
    method Flush()
      requires SlotsOk(minBlock, blocks, slots, buffer)
      modifies this`slots, this`buffer
      ensures SlotsOk(minBlock, blocks, slots, []) && buffer == []
      ensures slots == Flushed(old(slots), minBlock, old(buffer))
    {
      hide SlotsFor;
      slots := FlushBuffer(slots, minBlock, buffer);
      buffer := [];
    }

    /** `MarkBlockCommitted`: an empty block, after filling any gap. */
    method MarkBlockCommitted(b: u64)
      requires Valid() && b < MAX_BLOCK
      modifies this
      ensures Valid() && data == old(data)
      ensures b as int <= old(latest) ==> blocks == old(blocks) && minBlock == old(minBlock)
      ensures b as int > old(latest) ==> latest == b && minBlock == MinWith(old(minBlock), old(latest) + 1)
      ensures forall k :: Value(k) == old(Value(k))
      ensures old(OneSession()) ==> OneSession()
    {
      hide SlotsOk, IndexOk, BlocksOk, EncodeBlocks, Windowed, Tracked, Stored;
      if b == 0 {
        return;
      }
      EnsureTracking();
      if b as int <= latest {
        return;
      }
      if b as int > latest + 1 {
        FillMissing(b);
      }
      AddEmpty(b);
      assert forall k :: Value(k) == old(Value(k));
      Flush();
      meta := Some((minBlock, latest));
    }

    /** `getBlockIndexEntry`: the buffered entries first, then the slot file. */
    method LookupSlot(b: nat) returns (r: Option<Slot>)
      ensures (forall i :: 0 <= i < |buffer| ==> buffer[i].block != b) ==> r == FindSlot(slots, minBlock, b)
      ensures (exists i :: 0 <= i < |buffer| && buffer[i].block == b) ==> r.Some? && r.value in buffer && r.value.block == b
    {
      for i := 0 to |buffer|
        invariant forall j :: 0 <= j < i ==> buffer[j].block != b
      {
        if buffer[i].block == b {
          return Some(buffer[i]);
        }
      }
      r := FindSlot(slots, minBlock, b);
    }

    /** The part of an append that writes a block the index does not have yet. */
    method AppendNew(b: u64, es: seq<Entry>)
      requires Valid() && recent.Some? && track.Some? && Next(minBlock, blocks, b) && BlockOk(kindOf, b, es)
      modifies this
      ensures Valid() && blocks == old(blocks) + [es] && minBlock == MinWith(old(minBlock), b) && latest == b
      ensures old(OneSession()) ==> OneSession()
    {
      hide SlotsOk, IndexOk, BlocksOk, EncodeBlocks, EncodeBlock, Windowed, Tracked, BlockOk, BlockStart;
      BlockFits(kindOf, b, es);
      var bytes := Serialize(b, es);
      var start := offset;
      WriteNewBlock(b, bytes, es);
      meta := Some((minBlock, latest));
      NewStart(kindOf, minBlock, old(blocks), es, latest, data, old(data));
      if latest in indexed {
        assert [] + es == es;
        IndexNewest(start, bytes, [], es);
      }
      Flush();
    }

    /** The part of an append that adds entries to the latest block. */
    method AppendMore(s: Slot, es: seq<Entry>)
      requires Valid() && recent.Some? && track.Some? && blocks != [] && s == slots[|blocks| - 1]
      requires |slots| == |blocks| && BlockOk(kindOf, latest, blocks[|blocks| - 1] + es) && AllFit(es)
      modifies this
      ensures Valid() && blocks == Grown(old(blocks), es) && minBlock == old(minBlock) && latest == old(latest)
      ensures old(OneSession()) ==> OneSession()
    {
      hide SlotsOk, IndexOk, FilesOk, EncodeBlock, Windowed, Tracked, BlockOk, BlockStart, AllFit, AtMost, Grown;
      ghost var last := blocks[|blocks| - 1];
      LatestOf(kindOf, minBlock, blocks, latest, data);
      FilesGrow(kindOf, minBlock, blocks, latest, data, es);
      IndexGrow(minBlock, blocks, skip, indexed, es);
      GrowSeq(blocks, es);
      var bytes := GrowFiles(s, es);
      if latest in indexed {
        IndexNewest(s.end, bytes, last, es);
      } else {
        assert indexed - {latest} == indexed;
      }
      Flush();
    }

    /** More entries at the end of the data file, under the latest block's slot. */
    method GrowFiles(s: Slot, es: seq<Entry>) returns (bytes: seq<byte>)
      requires Valid() && blocks != [] && |slots| == |blocks| && s == slots[|blocks| - 1]
      requires BlockOk(kindOf, latest, blocks[|blocks| - 1] + es) && AllFit(es)
      modifies this`data, this`offset, this`buffer, this`blocks
      ensures blocks == Grown(old(blocks), es) && |blocks| == |old(blocks)| && BlocksFit(minBlock, blocks) && AllFit(old(blocks)[|blocks| - 1])
      ensures FilesOk(kindOf, minBlock, blocks, latest, data) && offset == |data| && SlotsOk(minBlock, blocks, slots, buffer)
      ensures bytes == EncodeBlock(latest, es)
      ensures s.end == BlockStart(minBlock, blocks, |blocks| - 1) + |EncodeBlock(latest, old(blocks)[|blocks| - 1])|
    {
      hide SlotsOk, IndexOk, FilesOk, EncodeBlock, Windowed, Tracked, BlockOk, BlockStart, AllFit, AtMost, Grown;
      SlotsGrow(kindOf, minBlock, blocks, latest, data, slots, es);
      FilesGrow(kindOf, minBlock, blocks, latest, data, es);
      MoreStart(kindOf, minBlock, blocks, es, latest, data);
      GrowSeq(blocks, es);
      bytes := Serialize(latest, es);
      data := data + bytes;
      offset := s.end + |bytes|;
      buffer := buffer + [Slot(latest, s.start, offset)];
      assert buffer == [s.(end := offset)];
      blocks := Grown(blocks, es);
    }

    /** `Append`. */
    method Append(b: u64, kvs: map<Key, seq<byte>>) returns (r: AppendResult)
      requires Valid() && 1 <= b < MAX_BLOCK
      requires forall k :: k in kvs ==> BlockOf(kindOf, k) == Some(b as nat) && Fits(Entry(k, kvs[k]))
      requires b == latest ==> forall k :: k in kvs ==> Value(k) == None
      modifies this
      ensures Valid()
      ensures r == if b as int > old(latest) || old(minBlock) <= b then Ok else NonMonotonic
      ensures latest == if b as int > old(latest) && kvs != map[] then b as int
                        else if b as int > old(latest) && old(latest) != 0 then b as int - 1
                        else old(latest)
      ensures minBlock == if old(minBlock) == 0 && kvs != map[] then b else old(minBlock)
      ensures forall k :: Value(k) == if b as int >= old(latest) && k in kvs then Some(kvs[k]) else old(Value(k))
      ensures old(OneSession()) ==> OneSession()
      ensures old(AllOrdered(kindOf, blocks)) && (b as int == old(latest) ==> old(blocks)[|old(blocks)| - 1] == []) ==>
                AllOrdered(kindOf, blocks)
    {
      hide SlotsOk, IndexOk, BlocksOk, EncodeBlocks, EncodeBlock, Windowed, Tracked, BlockOk, Stored, Fits, BlockOf, Ordered, Grown, FindIn, FindSlot;
      EnsureTracking();
      var first := latest == 0 && offset == 0;
      NoBlocks(minBlock, minBlock);
      FindsSlot(kindOf, minBlock, blocks, latest, data, slots, b);
      if b as int <= latest {
        var s := LookupSlot(b);
        if s.Some? {
          if b as int < latest {
            return Ok;
          }
        } else {
          return NonMonotonic;
        }
      }
      if !first && b as int > latest + 1 {
        FillMissing(b);
        OrderedGaps(kindOf, old(blocks), b as int - old(latest) - 1);
      }
      assert forall k :: Value(k) == old(Value(k));
      r := Ok;
      if kvs != map[] {
        PutKvs(b, kvs);
      }
    }

    /** The part of an append after the checks and the gap filling. */
    method PutKvs(b: u64, kvs: map<Key, seq<byte>>)
      requires Valid() && recent.Some? && track.Some? && kvs != map[]
      requires 1 <= b < MAX_BLOCK && (latest == 0 || latest <= b as int <= latest + 1)
      requires forall k :: k in kvs ==> BlockOf(kindOf, k) == Some(b as nat) && Fits(Entry(k, kvs[k]))
      requires b == latest ==> forall k :: k in kvs ==> Value(k) == None
      modifies this
      ensures Valid() && latest == b && minBlock == MinWith(old(minBlock), b)
      ensures forall k :: Value(k) == if k in kvs then Some(kvs[k]) else old(Value(k))
      ensures old(OneSession()) ==> OneSession()
      ensures old(AllOrdered(kindOf, blocks)) && (b as int == old(latest) ==> old(blocks)[|old(blocks)| - 1] == []) ==>
                AllOrdered(kindOf, blocks)
    {
      hide SlotsOk, IndexOk, BlocksOk, EncodeBlocks, EncodeBlock, Windowed, Tracked, BlockOk, Stored, Fits, BlockOf, Ordered, Grown, FindIn, FindSlot;
      FindsSlot(kindOf, minBlock, blocks, latest, data, slots, b);
      var s := LookupSlot(b);
      var es := ListKvs(kindOf, kvs);
      ListedBlock(kindOf, b, es, kvs);
      if s.Some? {
        MoreStored(kindOf, minBlock, blocks, latest, data, es, kvs);
        OrderedGrown(kindOf, blocks, es);
        AppendMore(s.value, es);
      } else {
        NewStored(kindOf, minBlock, blocks, b, es, kvs);
        AppendNew(b, es);
      }
    }

    /** `AppendToNewBlock`. */
    method AppendToNewBlock(kvs: map<Key, seq<byte>>) returns (id: nat)
      requires Valid() && latest + 1 < MAX_BLOCK
      requires forall k :: k in kvs ==> BlockOf(kindOf, k) == Some(latest + 1) && Fits(Entry(k, kvs[k]))
      modifies this
      ensures Valid()
      ensures id == latest == if kvs == map[] then old(latest) else old(latest) + 1
      ensures minBlock == if old(minBlock) == 0 && kvs != map[] then 1 else old(minBlock)
      ensures forall k :: Value(k) == if k in kvs then Some(kvs[k]) else old(Value(k))
      ensures old(OneSession()) ==> OneSession()
      ensures old(AllOrdered(kindOf, blocks)) ==> AllOrdered(kindOf, blocks)
    {
      hide SlotsOk, IndexOk, BlocksOk, EncodeBlocks, EncodeBlock, Windowed, Tracked, BlockOk, Stored, Fits, BlockOf, Ordered;
      EnsureTracking();
      if kvs == map[] {
        return latest;
      }
      id := if latest == 0 then 1 else latest + 1;
      var es := ListKvs(kindOf, kvs);
      ListedBlock(kindOf, id, es, kvs);
      NewStored(kindOf, minBlock, blocks, id, es, kvs);
      AppendNew(id, es);
    }

    /** Closing and reopening: the block map is reloaded, the last blocks are indexed again, and the
        write tracking is released. */
    method Restart()
      requires Valid()
      modifies this
      ensures Valid() && blocks == old(blocks) && minBlock == old(minBlock) && latest == old(latest)
      ensures data == old(data) && slots == old(slots) && meta == old(meta)
      ensures recent == None && track == None
      ensures forall b :: b in indexed <==> blocks != [] && minBlock <= b <= latest && latest - b < recentN
      ensures Upward(indexed, latest)
    {
      hide IndexOk, FilesOk, SlotsOk, Tracked, Flushed;
      NothingLeft(minBlock, slots);
      Flush();
      offset := |data|;
      var m := if meta.Some? then meta.value.0 else 0;
      assert m == minBlock by { EmptyMin(kindOf, minBlock, blocks, latest, data); }
      minBlock, latest, skip, indexed := Reopen(kindOf, data, slots, m, recentN, minBlock, blocks, latest);
      recent, track := None, None;
    }

    /** `Get`. */
    method Get(key: Key) returns (r: Answer)
      requires Valid()
      ensures var b, v := BlockOf(kindOf, key), Value(key);
              if v.Some? && (key in skip || latest - b.value <= 10000) then
                r == if v.value == [0x5f, 0x44, 0x5f] then Blank else Found(v.value)
              else if b.None? then r == Missing
              else if b.value > latest then r == FutureBlock
              else if latest - b.value > 10000 then r == Blank
              else r == Missing
    {
      hide SlotsFor, EncodeBlocks, EncodeBlock, ReadEntry, BlocksFit, SkipOk, AllIndexed, Embeds, Distinct, FindIn, BlockOf, Flushed;
      if key in skip {
        SkipRead(kindOf, minBlock, blocks, skip, key);
        PointsHome(kindOf, minBlock, blocks, skip, key);
        var p := skip[key];
        if p.inline.Some? {
          return AnswerOf(p.inline.value);
        }
        var e := ReadEntry(data, p.offset);
        return AnswerOf(e.val);
      }
      StoredBound(kindOf, minBlock, blocks, key);
      var b := BlockOf(kindOf, key);
      if b.None? {
        return Missing;
      }
      if b.value > latest {
        return FutureBlock;
      }
      if latest - b.value > IGNORED_THRESHOLD {
        return Blank;
      }
      if b.value in indexed {
        IndexedMiss(kindOf, minBlock, blocks, skip, indexed, b.value, key);
        return Missing;
      }
      FindsSlot(kindOf, minBlock, blocks, latest, data, slots, b.value);
      var s := LookupSlot(b.value);
      if s.None? {
        return Missing;
      }
      SlotBytes(kindOf, minBlock, blocks, latest, data, slots, b.value);
      var v := FindInBytes(b.value, data[s.value.start..s.value.end], key, blocks[b.value - minBlock]);
      r := if v.Some? then AnswerOf(v.value) else Missing;
    }
  }

  lemma LatestOf(kindOf: Kinds, min: u64, blocks: seq<seq<Entry>>, latest: nat, data: seq<byte>)
    requires FilesOk(kindOf, min, blocks, latest, data)
    ensures |blocks| == 0 || latest == min as int + |blocks| - 1
    ensures |blocks| == 0 ==> latest == 0 && min == 0
  {
  }

  lemma EmptyMin(kindOf: Kinds, min: u64, blocks: seq<seq<Entry>>, latest: nat, data: seq<byte>)
    requires FilesOk(kindOf, min, blocks, latest, data)
    ensures min == 0 <==> blocks == []
  {
  }

  /** The bootstrap of `NewBlockAppendOnlyLog`, from the metadata's minimum block and the files. */
  method Reopen(kindOf: Kinds, data: seq<byte>, slots: seq<Slot>, stored: u64, n: nat, ghost min: u64, ghost blocks: seq<seq<Entry>>, ghost latest: nat)
    returns (newMin: u64, newLatest: nat, skip: Skiplist, indexed: set<nat>)
    requires FilesOk(kindOf, min, blocks, latest, data) && SlotsOk(min, blocks, slots, []) && (stored == min || stored == 0)
    ensures newMin == min && newLatest == latest && IndexOk(min, blocks, skip, indexed)
    ensures forall b :: b in indexed <==> blocks != [] && min <= b <= latest && latest - b < n
  {
    hide IndexOk, EncodeBlocks, EncodeBlock, BlocksFit, Embeds, Distinct, SlotsFor, SlotHolds, Flushed, LastN, Ascending;
    NothingLeft(min, slots);
    var blockIndex, m, l := LoadSlots(slots, stored, min, blocks);
    newMin, newLatest := m, l;
    ReloadHolds(kindOf, min, blocks, latest, data, slots, blockIndex);
    var ids := SortIds(blockIndex.Keys);
    RecentIds(min, blocks, ids, n);
    skip, indexed := RebuildSkiplist(kindOf, data, blockIndex, LastN(ids, n), newMin, blocks);
  }

  lemma SlotBytes(kindOf: Kinds, min: u64, blocks: seq<seq<Entry>>, latest: nat, data: seq<byte>, slots: seq<Slot>, b: nat)
    requires FilesOk(kindOf, min, blocks, latest, data) && SlotsOk(min, blocks, slots, []) && blocks != [] && min <= b <= latest
    ensures |slots| == |blocks|
    ensures var s, es := slots[b - min], blocks[b - min];
            && s.start <= s.end <= |data| && AllFit(es) && Distinct(es) && data[s.start..s.end] == EncodeBlock(b, es)
            && s.start == BlockStart(min, blocks, b - min)
  {
    hide EncodeBlocks, EncodeBlock, Embeds, Distinct, SlotsFor, BlockStart;
    SlotsTile(min, blocks, b - min);
    SlotStart(min, blocks, b - min);
  }

  lemma ReloadHolds(kindOf: Kinds, min: u64, blocks: seq<seq<Entry>>, latest: nat, data: seq<byte>, slots: seq<Slot>, blockIndex: map<nat, Slot>)
    requires FilesOk(kindOf, min, blocks, latest, data) && SlotsOk(min, blocks, slots, []) && |slots| == |blocks|
    requires forall b :: b in blockIndex ==> min <= b < min as int + |blocks| && blockIndex[b] == slots[b - min]
    ensures forall b :: b in blockIndex ==> SlotHolds(min, blocks, data, b, blockIndex[b])
  {
    hide EncodeBlocks, EncodeBlock, Embeds, Distinct, SlotsFor, BlockStart, AllFit, Flushed;
    forall b | b in blockIndex ensures SlotHolds(min, blocks, data, b, blockIndex[b]) {
      SlotBytes(kindOf, min, blocks, latest, data, slots, b);
    }
  }

  lemma NothingLeft(min: u64, slots: seq<Slot>)
    ensures Flushed(slots, min, []) == slots
  {
  }

  /** The reloaded ids are all of them, so the last `n` are the newest `n` blocks. */
  lemma RecentIds(min: u64, blocks: seq<seq<Entry>>, ids: seq<nat>, n: nat)
    requires Ascending(ids) && (forall x :: x in ids <==> min <= x < min as int + |blocks|)
    requires min == 0 <==> blocks == []
    ensures forall x :: x in LastN(ids, n) <==> min <= x < min as int + |blocks| && min as int + |blocks| - 1 - x < n
  {
    var end := min as int + |blocks|;
    if blocks != [] {
      RangeUnique(ids, min, end - 1);
      var r := LastN(ids, n);
      assert forall i :: 0 <= i < |r| ==> r[i] == end - |r| + i;
      forall x | min <= x < end && end - 1 - x < n ensures x in r {
        assert r[x - (end - |r|)] == x;
      }
    } else {
      assert forall i :: 0 <= i < |ids| ==> ids[i] in ids;
    }
  }

  /** `rebuildSkiplist`: each recent block's bytes are read through its slot and indexed. */
  method RebuildSkiplist(kindOf: Kinds, data: seq<byte>, blockIndex: map<nat, Slot>, ids: seq<nat>, min: u64, ghost blocks: seq<seq<Entry>>) returns (skip: Skiplist, indexed: set<nat>)
    requires BlocksFit(min, blocks)
    requires forall x :: x in ids ==> x in blockIndex
    requires forall b :: b in blockIndex ==> SlotHolds(min, blocks, data, b, blockIndex[b])
    ensures IndexOk(min, blocks, skip, indexed)
    ensures forall x :: x in indexed <==> x in ids
  {
    hide EncodeBlock, BlockStart, AddPtrs, KeysOf, BlocksFit, SkipOk, AllIndexed, Fits;
    skip, indexed := map[], {};
    assert IndexOk(min, blocks, skip, indexed) by { NothingIndexed(min, blocks); }
    for i := 0 to |ids|
      invariant IndexOk(min, blocks, skip, indexed)
      invariant forall x :: x in indexed <==> x in ids[..i]
    {
      var b := ids[i];
      var s := blockIndex[b];
      ghost var es := blocks[b - min];
      assert SlotHolds(min, blocks, data, b, s);
      assert [] + es == es;
      IndexStart(kindOf, skip, b, 0);
      IndexAdd(kindOf, min, blocks, skip, indexed, b, [], es);
      var keys;
      skip, keys := IndexBytes(kindOf, skip, b, s.start, data[s.start..s.end], es);
      indexed := indexed + {b};
      assert ids[..i + 1] == ids[..i] + [b];
    }
    assert ids[..|ids|] == ids;
  }

  ghost predicate SlotHolds(min: u64, blocks: seq<seq<Entry>>, data: seq<byte>, b: nat, s: Slot)
    requires BlocksFit(min, blocks)
  {
    && min <= b < min as int + |blocks| && b < 0x1_0000_0000_0000_0000
    && s.start <= s.end <= |data| && AllFit(blocks[b - min]) && data[s.start..s.end] == EncodeBlock(b, blocks[b - min])
    && s.start == BlockStart(min, blocks, b - min)
  }

  lemma NothingIndexed(min: u64, blocks: seq<seq<Entry>>)
    requires BlocksFit(min, blocks)
    ensures IndexOk(min, blocks, map[], {})
  {
  }

  lemma OrderedGaps(kindOf: Kinds, blocks: seq<seq<Entry>>, n: nat)
    ensures AllOrdered(kindOf, blocks) ==> AllOrdered(kindOf, blocks + Gaps(n))
  {
    assert Ordered(kindOf, []);
    hide Ordered;
  }

  lemma OrderedGrown(kindOf: Kinds, blocks: seq<seq<Entry>>, es: seq<Entry>)
    requires blocks != [] && Ordered(kindOf, es)
    ensures AllOrdered(kindOf, blocks) && blocks[|blocks| - 1] == [] ==> AllOrdered(kindOf, Grown(blocks, es))
  {
    hide Ordered;
    assert [] + es == es;
  }

  lemma NewStored(kindOf: Kinds, min: u64, blocks: seq<seq<Entry>>, b: u64, es: seq<Entry>, kvs: map<Key, seq<byte>>)
    requires Next(min, blocks, b) && (min == 0 <==> blocks == []) && BlockOk(kindOf, b, es)
    requires forall k :: k in kvs ==> BlockOf(kindOf, k) == Some(b as nat)
    requires forall k :: FindIn(es, k) == if k in kvs then Some(kvs[k]) else None
    ensures forall k :: Stored(kindOf, MinWith(min, b), blocks + [es], k) ==
                        if k in kvs then Some(kvs[k]) else Stored(kindOf, min, blocks, k)
  {
    hide FindIn, Fits, BlockOf;
    forall k ensures Stored(kindOf, MinWith(min, b), blocks + [es], k) ==
                     if k in kvs then Some(kvs[k]) else Stored(kindOf, min, blocks, k)
    {
      StoredPush(kindOf, min, blocks, b, es, k);
      StoredBound(kindOf, min, blocks, k);
    }
  }

  lemma MoreStored(kindOf: Kinds, min: u64, blocks: seq<seq<Entry>>, latest: nat, data: seq<byte>, es: seq<Entry>, kvs: map<Key, seq<byte>>)
    requires FilesOk(kindOf, min, blocks, latest, data) && blocks != [] && BlockOk(kindOf, latest, es)
    requires forall k :: k in kvs ==> BlockOf(kindOf, k) == Some(latest) && Stored(kindOf, min, blocks, k) == None
    requires forall k :: FindIn(es, k) == if k in kvs then Some(kvs[k]) else None
    ensures BlockOk(kindOf, latest, blocks[|blocks| - 1] + es) && AllFit(es)
    ensures forall k :: Stored(kindOf, min, Grown(blocks, es), k) ==
                        if k in kvs then Some(kvs[k]) else Stored(kindOf, min, blocks, k)
  {
    hide FindIn, BlockOf, Grown, Stored, FilesOk, BlockOk;
    var n := |blocks| - 1;
    LastBlock(kindOf, min, blocks, latest, data);
    forall k | k in kvs ensures FindIn(blocks[n], k) == None {
      StoredInLast(kindOf, min, blocks, latest, k);
    }
    GrownBlockOk(kindOf, latest, blocks[n], es, kvs);
    BlockFits(kindOf, latest, es);
    forall k ensures Stored(kindOf, min, Grown(blocks, es), k) ==
                     if k in kvs then Some(kvs[k]) else Stored(kindOf, min, blocks, k)
    {
      StoredGrow(kindOf, min, blocks, es, k);
      StoredInLast(kindOf, min, blocks, latest, k);
    }
  }

  lemma LastBlock(kindOf: Kinds, min: u64, blocks: seq<seq<Entry>>, latest: nat, data: seq<byte>)
    requires FilesOk(kindOf, min, blocks, latest, data) && blocks != []
    ensures latest == min as int + |blocks| - 1 < MAX_BLOCK && BlockOk(kindOf, latest, blocks[|blocks| - 1])
  {
    hide EncodeBlocks, Fits, BlockOf, Embeds, Distinct;
  }

  lemma StoredInLast(kindOf: Kinds, min: u64, blocks: seq<seq<Entry>>, latest: nat, k: Key)
    requires blocks != [] && latest == min as int + |blocks| - 1
    ensures BlockOf(kindOf, k) == Some(latest) ==> Stored(kindOf, min, blocks, k) == FindIn(blocks[|blocks| - 1], k)
  {
    hide FindIn, BlockOf;
  }

  lemma FindsSlot(kindOf: Kinds, min: u64, blocks: seq<seq<Entry>>, latest: nat, data: seq<byte>, slots: seq<Slot>, b: nat)
    requires FilesOk(kindOf, min, blocks, latest, data) && SlotsOk(min, blocks, slots, [])
    ensures |slots| == |blocks|
    ensures FindSlot(slots, min, b) == if blocks != [] && min <= b <= latest then Some(slots[b - min]) else None
  {
    hide EncodeBlocks, Embeds, Distinct, SlotsFor;
    if min > 0 {
      FindSlotFinds(min, blocks, b);
    }
  }

  lemma NewStart(kindOf: Kinds, min: u64, blocks: seq<seq<Entry>>, es: seq<Entry>, latest: nat, data: seq<byte>, before: seq<byte>)
    requires FilesOk(kindOf, min, blocks + [es], latest, data) && AllFit(es) && data == before + EncodeBlock(latest, es)
    ensures |before| == BlockStart(min, blocks + [es], |blocks|) + |EncodeBlock(latest, [])|
  {
    hide EncodeBlock, Embeds, Distinct, AllFit;
    var all := blocks + [es];
    assert all[..|blocks|] == blocks;
    IndexStart(kindOf, map[], latest, 0);
  }

  lemma MoreStart(kindOf: Kinds, min: u64, blocks: seq<seq<Entry>>, es: seq<Entry>, latest: nat, data: seq<byte>)
    requires FilesOk(kindOf, min, blocks, latest, data) && blocks != [] && BlocksFit(min, Grown(blocks, es))
    ensures |data| == BlockStart(min, Grown(blocks, es), |blocks| - 1) + |EncodeBlock(latest, blocks[|blocks| - 1])|
  {
    hide EncodeBlock, Embeds, Distinct, AllFit;
    assert Grown(blocks, es)[..|blocks| - 1] == blocks[..|blocks| - 1];
  }

  lemma IndexGrow(min: u64, blocks: seq<seq<Entry>>, skip: Skiplist, indexed: set<nat>, es: seq<Entry>)
    requires blocks != [] && IndexOk(min, blocks, skip, indexed) && BlocksFit(min, Grown(blocks, es))
    ensures var b := min as int + |blocks| - 1;
            IndexOk(min, Grown(blocks, es), skip, indexed - {b}) && (b in indexed ==> KeysIn(blocks[|blocks| - 1], skip))
  {
    hide BlocksFit, PtrAt, SkipOk, KeysIn;
    SkipAfterGrow(min, blocks, es, skip);
    forall x | x in indexed ensures IndexedOk(min, blocks, skip, x) {
    }
  }

  lemma StoredBound(kindOf: Kinds, min: u64, blocks: seq<seq<Entry>>, key: Key)
    ensures var b := BlockOf(kindOf, key);
            b.None? || !(min <= b.value < min as int + |blocks|) ==> Stored(kindOf, min, blocks, key) == None
  {
  }

  lemma BlockFits(kindOf: Kinds, b: u64, es: seq<Entry>)
    requires BlockOk(kindOf, b, es)
    ensures AllFit(es)
  {
  }

  /** The index after a block is added and the window has, or has not, dropped its oldest block. */
  lemma IndexNext(kindOf: Kinds, min: u64, blocks: seq<seq<Entry>>, latest: nat, data: seq<byte>, skip: Skiplist, indexed: set<nat>, b: u64, es: seq<Entry>)
    requires FilesOk(kindOf, min, blocks, latest, data) && IndexOk(min, blocks, skip, indexed)
    requires Next(min, blocks, b) && BlockOk(kindOf, b, es)
    ensures IndexOk(MinWith(min, b), blocks + [es], skip, indexed)
    ensures forall o :: IndexOk(MinWith(min, b), blocks + [es], Without(skip, o), indexed - {o})
  {
    hide IndexOk, EncodeBlocks, EncodeBlock, Without, Embeds, Distinct;
    FilesPush(kindOf, min, blocks, latest, data, b, es);
    var m := MinWith(min, b);
    IndexSame(min, m, blocks, skip, indexed);
    IndexPush(m, blocks, skip, indexed, es);
    forall o ensures IndexOk(m, blocks + [es], Without(skip, o), indexed - {o}) {
      EvictOk(kindOf, min, blocks, skip, indexed, o);
      IndexSame(min, m, blocks, Without(skip, o), indexed - {o});
      IndexPush(m, blocks, Without(skip, o), indexed - {o}, es);
    }
  }

  lemma FewerIndexed(min: u64, blocks: seq<seq<Entry>>, skip: Skiplist, indexed: set<nat>, fewer: set<nat>)
    requires IndexOk(min, blocks, skip, indexed) && fewer <= indexed
    ensures IndexOk(min, blocks, skip, fewer)
  {
    hide IndexedOk, SkipOk, BlocksFit;
  }

  /** Keys listed per block, in skiplist order. */
  method CollectKeys(skip: Skiplist) returns (t: Tracking)
    ensures Tracked(t, skip)
  {
    t := map[];
    var rest := skip.Keys;
    while rest != {}
      invariant rest <= skip.Keys
      invariant forall k :: k in skip && k !in rest ==> skip[k].block in t && k in t[skip[k].block]
      decreases rest
    {
      var k := FirstKey(_ => Other, rest);
      rest := rest - {k};
      t := TrackMore(t, skip[k].block, [k]);
    }
  }
}
