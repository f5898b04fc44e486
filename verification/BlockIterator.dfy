/** Streaming iteration over a header, body or receipts prefix (`baolStreamIterator`): evicted blocks
    are read from disk in write order, and from the first indexed block on the skiplist takes over. */
module BlockIterator {
  import opened Bytes
  import opened BlockFile
  import opened BlockIndex
  import opened BlockState
  import opened BL = BlockLog

  // ----- key order

  predicate HasPrefix(key: Key, prefix: Key) {
    |prefix| <= |key| && key[..|prefix|] == prefix
  }

  /** Equal-length heads decide the order. */
  lemma {:induction false} LessByHead(a: Key, b: Key, x: Key, y: Key)
    requires |a| == |b| && Less(a, b)
    ensures Less(a + x, b + y)
    decreases |a|
  {
    if a[0] == b[0] {
      LessByHead(a[1..], b[1..], x, y);
      assert (a + x)[1..] == a[1..] + x && (b + y)[1..] == b[1..] + y;
    }
  }

  lemma {:induction false} LessByTail(a: Key, x: Key, y: Key)
    requires Less(x, y)
    ensures Less(a + x, a + y)
    decreases |a|
  {
    hide Less;
    if a == [] {
      assert a + x == x && a + y == y;
    } else {
      LessByTail(a[1..], x, y);
      LessCons(a[0], a[1..] + x, a[1..] + y);
      assert a + x == [a[0]] + (a[1..] + x) && a + y == [a[0]] + (a[1..] + y);
    }
  }

  lemma LessCons(c: byte, x: Key, y: Key)
    requires Less(x, y)
    ensures Less([c] + x, [c] + y)
  {
    assert ([c] + x)[1..] == x && ([c] + y)[1..] == y;
  }

  lemma Less16(a: Key, b: Key)
    requires |a| == |b| == 2 && Get16(a) < Get16(b)
    ensures Less(a, b)
  {
    assert Less(a[1..], b[1..]) <==> a[1] < b[1];
  }

  lemma Less32(a: Key, b: Key)
    requires |a| == |b| == 4 && Get32(a) < Get32(b)
    ensures Less(a, b)
  {
    hide Get16, Less;
    assert a == a[..2] + a[2..] && b == b[..2] + b[2..];
    if Get16(a[..2]) < Get16(b[..2]) {
      Less16(a[..2], b[..2]);
      LessByHead(a[..2], b[..2], a[2..], b[2..]);
    } else {
      Get16Injective(a[..2], b[..2]);
      Less16(a[2..], b[2..]);
      LessByTail(a[..2], a[2..], b[2..]);
    }
  }

  lemma Get16Injective(a: Key, b: Key)
    requires |a| == |b| == 2 && Get16(a) == Get16(b)
    ensures a == b
  {
  }

  /** Big-endian numbers sort like their bytes. */
  lemma Less64(a: Key, b: Key)
    requires |a| == |b| == 8 && Get64(a) < Get64(b)
    ensures Less(a, b)
  {
    hide Get32, Less;
    assert a == a[..4] + a[4..] && b == b[..4] + b[4..];
    if Get32(a[..4]) < Get32(b[..4]) {
      Less32(a[..4], b[..4]);
      LessByHead(a[..4], b[..4], a[4..], b[4..]);
    } else {
      Get32Injective(a[..4], b[..4]);
      Less32(a[4..], b[4..]);
      LessByTail(a[..4], a[4..], b[4..]);
    }
  }

  /** Among keys with one first byte, key order follows the embedded block number. */
  lemma BlockOrder(a: Key, b: Key)
    requires |a| >= 9 && |b| >= 9 && a[0] == b[0]
    ensures Get64(a[1..9]) < Get64(b[1..9]) ==> Less(a, b)
    ensures Leq(a, b) ==> Get64(a[1..9]) <= Get64(b[1..9])
  {
    hide Get64;
    if Get64(a[1..9]) < Get64(b[1..9]) {
      BlockOrderOne(a, b);
    } else if Get64(b[1..9]) < Get64(a[1..9]) {
      BlockOrderOne(b, a);
      LessTrichotomy(a, b);
    }
  }

  lemma BlockOrderOne(a: Key, b: Key)
    requires |a| >= 9 && |b| >= 9 && a[0] == b[0] && Get64(a[1..9]) < Get64(b[1..9])
    ensures Less(a, b)
  {
    hide Get64, Less;
    Less64(a[1..9], b[1..9]);
    LessByTail([a[0]], a[1..9], b[1..9]);
    LessByHead([a[0]] + a[1..9], [a[0]] + b[1..9], a[9..], b[9..]);
    assert a == [a[0]] + a[1..9] + a[9..] && b == [a[0]] + b[1..9] + b[9..];
  }

  /** Past the keys with a prefix there are no more of them. */
  lemma {:induction false} PrefixRange(prefix: Key, k: Key, l: Key)
    requires !HasPrefix(k, prefix) && !Less(k, prefix) && Less(k, l)
    ensures !HasPrefix(l, prefix)
    decreases |prefix|
  {
    if prefix != [] && k != [] && k[0] == prefix[0] && l[0] == prefix[0] {
      PrefixRange(prefix[1..], k[1..], l[1..]);
      HasPrefixTail(k, prefix);
      HasPrefixTail(l, prefix);
    }
  }

  lemma HasPrefixTail(k: Key, prefix: Key)
    requires k != [] && prefix != [] && k[0] == prefix[0]
    ensures HasPrefix(k, prefix) <==> HasPrefix(k[1..], prefix[1..])
  {
    if |prefix| <= |k| {
      assert k[1..][..|prefix| - 1] == k[..|prefix|][1..];
      assert prefix == [prefix[0]] + prefix[1..] && k[..|prefix|] == [k[0]] + k[..|prefix|][1..];
    }
  }

  // ----- what is left to visit

  /** `!keyBeforeSeek`. */
  predicate After(seek: Key, exact: bool, key: Key) {
    if exact then Less(seek, key) else Leq(seek, key)
  }

  ghost predicate Candidate(kindOf: Kinds, min: u64, blocks: seq<seq<Entry>>, prefix: Key, seek: Key, exact: bool, key: Key) {
    Stored(kindOf, min, blocks, key).Some? && HasPrefix(key, prefix) && After(seek, exact, key)
  }

  /** No key is left to visit. */
  ghost predicate Finished(kindOf: Kinds, min: u64, blocks: seq<seq<Entry>>, prefix: Key, seek: Key, exact: bool) {
    forall k :: !Candidate(kindOf, min, blocks, prefix, seek, exact, k)
  }

  /** All block keys with the prefix are of one kind. */
  ghost predicate OneKind(kindOf: Kinds, prefix: Key) {
    prefix != [] && forall k, l :: HasPrefix(k, prefix) && HasPrefix(l, prefix) && kindOf(k) != Other && kindOf(l) != Other ==> kindOf(k) == kindOf(l)
  }

  /** A log written in one session can be iterated. */
  lemma SessionUpward(log: BL.BlockLog)
    requires log.Valid() && log.OneSession()
    ensures Upward(log.indexed, log.latest)
  {
    hide SlotsOk, IndexOk, Tracked;
    LatestOf(log.kindOf, log.minBlock, log.blocks, log.latest, log.data);
  }

  /** A stored key is an entry of the block it names. */
  lemma StoredEntry(kindOf: Kinds, min: u64, blocks: seq<seq<Entry>>, key: Key)
    requires Stored(kindOf, min, blocks, key).Some?
    ensures BlockOf(kindOf, key).Some? && |key| >= 9 && kindOf(key) != Other
    ensures var b := BlockOf(kindOf, key).value;
            && b == Get64(key[1..9]) && min <= b < min as int + |blocks|
            && Stored(kindOf, min, blocks, key) == FindIn(blocks[b - min], key)
            && HasKey(blocks[b - min], key)
  {
    hide Get64, FindIn, HasKey;
    FoundKey(blocks[BlockOf(kindOf, key).value - min], key);
  }

  lemma FoundKey(es: seq<Entry>, key: Key)
    requires FindIn(es, key).Some?
    ensures HasKey(es, key)
  {
    hide FindIn;
    var v := FindIn(es, key).value;
    var i :| 0 <= i < |es| && es[i] == Entry(key, v);
    assert es[i].key == key;
  }

  ghost predicate HasKey(es: seq<Entry>, key: Key) {
    exists i :: 0 <= i < |es| && es[i].key == key
  }

  lemma EntryStored(kindOf: Kinds, min: u64, blocks: seq<seq<Entry>>, b: nat, i: nat)
    requires BlocksOk(kindOf, min, blocks) && min <= b < min as int + |blocks| && i < |blocks[b - min]|
    ensures var e := blocks[b - min][i];
            BlockOf(kindOf, e.key) == Some(b) && Stored(kindOf, min, blocks, e.key) == Some(e.val)
  {
    hide FindIn, BlockOf, BlocksFit;
    var es := blocks[b - min];
    assert Embeds(kindOf, min as int + (b - min), es);
    FindInUnique(es, es[i].key, i);
  }

  /** The keys with one prefix come in key order within a block, and block order across blocks. */
  lemma EntryOrder(kindOf: Kinds, min: u64, blocks: seq<seq<Entry>>, prefix: Key, b: nat, i: nat, j: nat)
    requires BlocksOk(kindOf, min, blocks) && AllOrdered(kindOf, blocks) && OneKind(kindOf, prefix)
    requires min <= b < min as int + |blocks| && i <= j < |blocks[b - min]|
    requires HasPrefix(blocks[b - min][i].key, prefix) && HasPrefix(blocks[b - min][j].key, prefix)
    ensures Leq(blocks[b - min][i].key, blocks[b - min][j].key)
  {
    hide Less, FindIn, BlocksFit, HasPrefix;
    var es := blocks[b - min];
    EntryStored(kindOf, min, blocks, b, i);
    EntryStored(kindOf, min, blocks, b, j);
    if i < j {
      assert Ordered(kindOf, es);
      assert Before(kindOf, es[i].key, es[j].key);
    }
  }

  lemma SameFirst(a: Key, b: Key, prefix: Key)
    requires prefix != [] && HasPrefix(a, prefix) && HasPrefix(b, prefix)
    ensures a != [] && b != [] && a[0] == b[0]
  {
    assert a[..|prefix|][0] == b[..|prefix|][0];
  }

  /** The position of an iterator: block `cur`, of which the first `done` entries are behind. */
  ghost predicate Behind(kindOf: Kinds, min: u64, blocks: seq<seq<Entry>>, prefix: Key, seek: Key, exact: bool, cur: nat, done: nat) {
    && (forall k :: Candidate(kindOf, min, blocks, prefix, seek, exact, k) ==> BlockOf(kindOf, k).Some? && BlockOf(kindOf, k).value >= cur)
    && (min <= cur < min as int + |blocks| ==>
          done <= |blocks[cur - min]|
          && NoneOf(kindOf, min, blocks, prefix, seek, exact, blocks[cur - min][..done]))
  }

  ghost predicate NoneOf(kindOf: Kinds, min: u64, blocks: seq<seq<Entry>>, prefix: Key, seek: Key, exact: bool, es: seq<Entry>) {
    forall i :: 0 <= i < |es| ==> !Candidate(kindOf, min, blocks, prefix, seek, exact, es[i].key)
  }

  /** Past the last entry of a block the next block is current. */
  lemma NextBlock(kindOf: Kinds, min: u64, blocks: seq<seq<Entry>>, prefix: Key, seek: Key, exact: bool, cur: nat, done: nat)
    requires Behind(kindOf, min, blocks, prefix, seek, exact, cur, done)
    requires min <= cur < min as int + |blocks| ==> done == |blocks[cur - min]|
    ensures Behind(kindOf, min, blocks, prefix, seek, exact, cur + 1, 0)
  {
    hide After, HasPrefix, Stored;
    if min <= cur < min as int + |blocks| {
      assert blocks[cur - min][..done] == blocks[cur - min];
    }
    forall k | Candidate(kindOf, min, blocks, prefix, seek, exact, k) ensures BlockOf(kindOf, k).Some? && BlockOf(kindOf, k).value >= cur + 1 {
      StoredEntry(kindOf, min, blocks, k);
    }
  }

  lemma NextEntry(kindOf: Kinds, min: u64, blocks: seq<seq<Entry>>, prefix: Key, seek: Key, exact: bool, cur: nat, done: nat)
    requires Behind(kindOf, min, blocks, prefix, seek, exact, cur, done)
    requires min <= cur < min as int + |blocks| && done < |blocks[cur - min]|
    requires !Candidate(kindOf, min, blocks, prefix, seek, exact, blocks[cur - min][done].key)
    ensures Behind(kindOf, min, blocks, prefix, seek, exact, cur, done + 1)
  {
    hide Candidate;
    var es := blocks[cur - min];
    assert es[..done + 1] == es[..done] + [es[done]];
  }

  /** `key` is the first of the candidates. */
  ghost predicate Least(kindOf: Kinds, min: u64, blocks: seq<seq<Entry>>, prefix: Key, seek: Key, exact: bool, key: Key) {
    && Candidate(kindOf, min, blocks, prefix, seek, exact, key)
    && forall k :: Candidate(kindOf, min, blocks, prefix, seek, exact, k) ==> Leq(key, k)
  }

  /** The first candidate met on disk is the least one. */
  lemma FirstOnDisk(kindOf: Kinds, min: u64, blocks: seq<seq<Entry>>, prefix: Key, seek: Key, exact: bool, cur: nat, done: nat)
    requires BlocksOk(kindOf, min, blocks) && AllOrdered(kindOf, blocks) && OneKind(kindOf, prefix)
    requires Behind(kindOf, min, blocks, prefix, seek, exact, cur, done)
    requires min <= cur < min as int + |blocks| && done < |blocks[cur - min]|
    requires Candidate(kindOf, min, blocks, prefix, seek, exact, blocks[cur - min][done].key)
    ensures Least(kindOf, min, blocks, prefix, seek, exact, blocks[cur - min][done].key)
  {
    hide After, HasPrefix, Stored, BlocksOk, Less, Leq, AllOrdered, OneKind, BlockOf, Get64;
    var es := blocks[cur - min];
    var key := es[done].key;
    assert forall i :: 0 <= i < done ==> es[..done][i] == es[i];
    assert BlockOf(kindOf, key) == Some(cur) by { EntryStored(kindOf, min, blocks, cur, done); }
    forall k | Candidate(kindOf, min, blocks, prefix, seek, exact, k) ensures Leq(key, k) {
      StoredEntry(kindOf, min, blocks, k);
      StoredEntry(kindOf, min, blocks, key);
      if BlockOf(kindOf, k).value == cur {
        var i :| 0 <= i < |es| && es[i].key == k;
        EntryOrder(kindOf, min, blocks, prefix, cur, done, i);
      } else {
        assert prefix != [] by { PrefixGiven(kindOf, prefix); }
        SameFirst(key, k, prefix);
        BlockOrder(key, k);
        assert Leq(key, k) by { LessLeq(key, k); }
      }
    }
  }

  lemma PrefixGiven(kindOf: Kinds, prefix: Key)
    requires OneKind(kindOf, prefix)
    ensures prefix != []
  {
  }

  lemma LessLeq(a: Key, b: Key)
    requires Less(a, b)
    ensures Leq(a, b)
  {
  }

  /** Once the least candidate is published, the rest are the keys after it. */
  lemma Published(kindOf: Kinds, min: u64, blocks: seq<seq<Entry>>, prefix: Key, seek: Key, exact: bool, key: Key)
    requires Least(kindOf, min, blocks, prefix, seek, exact, key)
    ensures forall k :: Candidate(kindOf, min, blocks, prefix, key, true, k) <==> Candidate(kindOf, min, blocks, prefix, seek, exact, k) && k != key
  {
    hide Less, HasPrefix, Stored;
    forall k ensures Candidate(kindOf, min, blocks, prefix, key, true, k) <==> Candidate(kindOf, min, blocks, prefix, seek, exact, k) && k != key {
      LessTrichotomy(key, k);
      if Less(key, k) {
        LeqTransitive(seek, key, k);
      }
    }
  }

  lemma BehindAfter(kindOf: Kinds, min: u64, blocks: seq<seq<Entry>>, prefix: Key, seek: Key, exact: bool, key: Key, cur: nat, done: nat)
    requires Least(kindOf, min, blocks, prefix, seek, exact, key) && Behind(kindOf, min, blocks, prefix, seek, exact, cur, done)
    ensures Behind(kindOf, min, blocks, prefix, key, true, cur, done)
  {
    hide Candidate;
    Published(kindOf, min, blocks, prefix, seek, exact, key);
  }

  /** After a skiplist hit the iterator stands at the hit's block: the later keys are not before it. */
  lemma AtHit(kindOf: Kinds, min: u64, blocks: seq<seq<Entry>>, prefix: Key, seek: Key, exact: bool, key: Key)
    requires Least(kindOf, min, blocks, prefix, seek, exact, key) && prefix != []
    ensures BlockOf(kindOf, key).Some? && Behind(kindOf, min, blocks, prefix, seek, exact, BlockOf(kindOf, key).value, 0)
  {
    hide After, HasPrefix, Stored, Less, Leq, Get64;
    StoredEntry(kindOf, min, blocks, key);
    forall k | Candidate(kindOf, min, blocks, prefix, seek, exact, k)
      ensures BlockOf(kindOf, k).Some? && BlockOf(kindOf, k).value >= BlockOf(kindOf, key).value
    {
      StoredEntry(kindOf, min, blocks, k);
      SameFirst(key, k, prefix);
      BlockOrder(key, k);
    }
  }

  // ----- the two sources

  /** Where the reader stands in a block: `done` entries before byte `offset`. */
  ghost predicate Positioned(min: u64, blocks: seq<seq<Entry>>, slots: seq<Slot>, cur: nat, slot: Slot, offset: nat, done: nat) {
    && BlocksFit(min, blocks) && |slots| == |blocks| && min <= cur < min as int + |blocks|
    && slot == slots[cur - min] && done <= |blocks[cur - min]|
    && AllFit(blocks[cur - min][..done]) && offset == slot.start + |EncodeBlock(cur, blocks[cur - min][..done])|
  }

  lemma Opened(kindOf: Kinds, min: u64, blocks: seq<seq<Entry>>, latest: nat, data: seq<byte>, slots: seq<Slot>, cur: nat)
    requires FilesOk(kindOf, min, blocks, latest, data) && SlotsOk(min, blocks, slots, []) && blocks != [] && min <= cur <= latest
    ensures |slots| == |blocks| && Positioned(min, blocks, slots, cur, slots[cur - min], slots[cur - min].start, 0)
    ensures slots[cur - min].start <= slots[cur - min].end
    ensures slots[cur - min].end <= slots[cur - min].start ==> blocks[cur - min] == []
  {
    hide EncodeBlocks, EncodeEntry, Embeds, Distinct, SlotsFor, BlockStart, Flushed;
    SlotBytes(kindOf, min, blocks, latest, data, slots, cur);
    var es := blocks[cur - min];
    assert EncodeBlock(cur, es[..0]) == [];
  }

  /** Reading at the position gives the next entry, and the position after it. */
  lemma ReadNext(kindOf: Kinds, min: u64, blocks: seq<seq<Entry>>, latest: nat, data: seq<byte>, slots: seq<Slot>, cur: nat, slot: Slot, offset: nat, done: nat)
    requires FilesOk(kindOf, min, blocks, latest, data) && SlotsOk(min, blocks, slots, [])
    requires Positioned(min, blocks, slots, cur, slot, offset, done)
    ensures offset >= slot.end <==> done == |blocks[cur - min]|
    ensures done < |blocks[cur - min]| ==>
              var e, r := blocks[cur - min][done], ReadEntry(data, offset);
              && r.Good? && r.key == e.key && r.val == e.val && offset < r.next <= slot.end <= |data|
              && Positioned(min, blocks, slots, cur, slot, r.next, done + 1)
  {
    hide FilesOk, SlotsOk, EncodeBlock, EncodeBlocks, EncodeEntry, SlotsFor, BlockStart, ReadEntry, AllFit;
    SlotBytesIn(kindOf, min, blocks, latest, data, slots, cur);
    var es := blocks[cur - min];
    var before, after := es[..done], es[done..];
    assert es == before + after;
    assert AllFit(before) && AllFit(after) && AllFit(es) by { SplitFits(es, done); }
    IndexEnd(cur, before, after);
    if done < |es| {
      assert after[0] == es[done] && before + [es[done]] == es[..done + 1];
      IndexStep(kindOf, map[], cur, 0, before, after);
      ReadInside(data, slot.start, slot.end, offset - slot.start);
    }
  }

  lemma SlotBytesIn(kindOf: Kinds, min: u64, blocks: seq<seq<Entry>>, latest: nat, data: seq<byte>, slots: seq<Slot>, cur: nat)
    requires FilesOk(kindOf, min, blocks, latest, data) && SlotsOk(min, blocks, slots, []) && min <= cur < min as int + |blocks|
    ensures |slots| == |blocks|
    ensures var s, es := slots[cur - min], blocks[cur - min];
            s.start <= s.end <= |data| && AllFit(es) && data[s.start..s.end] == EncodeBlock(cur, es)
  {
    hide EncodeBlock, EncodeBlocks, SlotsFor, BlockStart, Embeds, Distinct;
    SlotBytes(kindOf, min, blocks, latest, data, slots, cur);
  }

  lemma SplitFits(es: seq<Entry>, n: nat)
    requires AllFit(es) && n <= |es|
    ensures AllFit(es[..n]) && AllFit(es[n..])
  {
  }

  /** An entry read within a slice is the entry read from the file. */
  lemma ReadInside(data: seq<byte>, start: nat, end: nat, off: nat)
    requires start <= end <= |data| && ReadEntry(data[start..end], off).Good?
    ensures var r := ReadEntry(data[start..end], off);
            ReadEntry(data, start + off) == r.(next := start + r.next)
  {
    hide Get32, Get64;
    var d := data[start..end];
    var klen, vlen := Get32(d[off + 8..off + 12]) as int, Get32(d[off + 12..off + 16]) as int;
    SubSlice(data, start, end, off, off + 8);
    SubSlice(data, start, end, off + 8, off + 12);
    SubSlice(data, start, end, off + 12, off + 16);
    SubSlice(data, start, end, off + 16, off + 16 + klen);
    SubSlice(data, start, end, off + 16 + klen, off + 16 + klen + vlen);
  }

  /** The skiplist element at or after a key (`Find`, `Next`). */
  method LeastFrom(keys: set<Key>, seek: Key, strict: bool) returns (r: Option<Key>)
    ensures r.Some? ==> r.value in keys && After(seek, strict, r.value) && forall k :: k in keys && After(seek, strict, k) ==> Leq(r.value, k)
    ensures r.None? ==> forall k :: k in keys ==> !After(seek, strict, k)
  {
    hide Less;
    r := None;
    var rest := keys;
    while rest != {}
      invariant rest <= keys
      invariant r.Some? ==> r.value in keys && After(seek, strict, r.value) && forall k :: k in keys - rest && After(seek, strict, k) ==> Leq(r.value, k)
      invariant r.None? ==> forall k :: k in keys - rest ==> !After(seek, strict, k)
      decreases rest
    {
      var k :| k in rest;
      rest := rest - {k};
      if After(seek, strict, k) && (r.None? || Less(k, r.value)) {
        if r.Some? {
          forall x | x in keys - rest && After(seek, strict, x) ensures Leq(k, x) {
            if x != k {
              LeqTransitive(k, r.value, x);
            }
          }
        }
        r := Some(k);
      } else if r.Some? {
        LessTrichotomy(k, r.value);
      }
    }
  }

  /** The skiplist walk of `prefetchFromMemoryIndex`: the first key at or after the seek position
      with the prefix, in a block not before `cur`. */
  method FirstInMemory(skip: Skiplist, prefix: Key, seek: Key, exact: bool, cur: nat, max: nat) returns (r: Option<Key>)
    requires forall k :: k in skip ==> skip[k].block <= max
    ensures r.Some? ==> r.value in skip && HasPrefix(r.value, prefix) && After(seek, exact, r.value) && skip[r.value].block >= cur
    ensures forall k :: k in skip && HasPrefix(k, prefix) && After(seek, exact, k) && skip[k].block >= cur ==> r.Some? && Leq(r.value, k)
  {
    hide Less, HasPrefix;
    var elem := LeastFrom(skip.Keys, seek, false);
    LessTrichotomy(seek, seek);
    if exact && elem == Some(seek) {
      elem := LeastFrom(skip.Keys, seek, true);
    } else if exact {
      Exactly(skip.Keys, seek, elem);
    }
    ghost var left := set k | k in skip && After(seek, exact, k);
    while elem.Some?
      invariant elem.Some? ==> elem.value in left
      invariant left <= skip.Keys && forall k :: k in left ==> After(seek, exact, k)
      invariant forall k :: k in left ==> elem.Some? && Leq(elem.value, k)
      invariant forall k :: k in skip && k !in left && After(seek, exact, k) && elem.Some? ==> Less(k, elem.value)
      invariant forall k :: k in skip && k !in left && HasPrefix(k, prefix) && After(seek, exact, k) ==> skip[k].block < cur
      decreases left
    {
      var k := elem.value;
      if !HasPrefix(k, prefix) && !Less(k, prefix) {
        forall l | l in left && HasPrefix(l, prefix) ensures false {
          PastPrefix(prefix, k, l);
        }
        return None;
      }
      if HasPrefix(k, prefix) && skip[k].block >= cur {
        if skip[k].block > max {
          return None;
        }
        return Some(k);
      }
      elem := LeastFrom(skip.Keys, k, true);
      Rest(skip.Keys, left, k, seek, exact, elem);
      left := left - {k};
    }
    r := None;
  }

  lemma PastPrefix(prefix: Key, k: Key, l: Key)
    requires !HasPrefix(k, prefix) && !Less(k, prefix) && Leq(k, l)
    ensures !HasPrefix(l, prefix)
  {
    if k != l {
      PrefixRange(prefix, k, l);
    }
  }

  lemma Exactly(keys: set<Key>, seek: Key, elem: Option<Key>)
    requires elem != Some(seek)
    requires elem.Some? ==> elem.value in keys && Leq(seek, elem.value) && forall k :: k in keys && Leq(seek, k) ==> Leq(elem.value, k)
    requires elem.None? ==> forall k :: k in keys ==> !Leq(seek, k)
    ensures elem.Some? ==> Less(seek, elem.value) && forall k :: k in keys && Less(seek, k) ==> Leq(elem.value, k)
    ensures elem.None? ==> forall k :: k in keys ==> !Less(seek, k)
  {
    hide Less;
  }

  /** What remains of the walk after element `k`. */
  lemma Rest(keys: set<Key>, left: set<Key>, k: Key, seek: Key, exact: bool, elem: Option<Key>)
    requires left <= keys && k in left && (forall l :: l in left ==> Leq(k, l)) && forall l :: l in left ==> After(seek, exact, l)
    requires elem.Some? ==> elem.value in keys && Less(k, elem.value) && forall l :: l in keys && Less(k, l) ==> Leq(elem.value, l)
    requires elem.None? ==> forall l :: l in keys ==> !Less(k, l)
    requires forall l :: l in keys && l !in left && After(seek, exact, l) ==> Less(l, k)
    ensures elem.Some? ==> elem.value in left - {k}
    ensures forall l :: l in left - {k} ==> elem.Some? && Leq(elem.value, l)
    ensures forall l :: l in keys && l !in left - {k} && After(seek, exact, l) && elem.Some? ==> Less(l, elem.value)
  {
    hide Less;
    if elem.Some? {
      LessTrichotomy(k, elem.value);
      LeqTransitive(seek, k, elem.value);
      forall l | l in keys && l !in left - {k} && After(seek, exact, l) ensures Less(l, elem.value) {
        LeqTransitive(l, k, elem.value);
      }
    }
  }

  // ----- the iterator

  /** `NewIterator`'s lower bound: `start` itself when it carries the prefix, else `prefix + start`. */
  function LowerBound(prefix: Key, start: Key): Key {
    if start == [] then prefix else if prefix != [] && !HasPrefix(start, prefix) then prefix + start else start
  }

  lemma LowerBoundPrefix(prefix: Key, start: Key)
    requires prefix != []
    ensures HasPrefix(LowerBound(prefix, start), prefix)
  {
  }

  lemma {:induction false} SamePrefixOrder(p: Key, x: Key, y: Key)
    ensures Less(p + x, p + y) <==> Less(x, y)
  {
    if p == [] {
      assert p + x == x && p + y == y;
    } else {
      assert (p + x)[1..] == p[1..] + x && (p + y)[1..] == p[1..] + y;
      SamePrefixOrder(p[1..], x, y);
    }
  }

  /** Being at or above the bound, said of the key and the caller's `start`. */
  lemma AboveBound(prefix: Key, start: Key, key: Key)
    requires prefix != [] && prefix <= key
    ensures Leq(LowerBound(prefix, start), key) <==>
              start == [] || if prefix <= start then Leq(start, key) else Leq(start, key[|prefix|..])
  {
    hide Less;
    var tail := key[|prefix|..];
    assert key == prefix + tail;
    if start == [] {
      SamePrefixOrder(prefix, [], tail);
      assert prefix + [] == prefix;
      LeqNothing(tail);
    } else {
      SamePrefixOrder(prefix, start, tail);
      assert HasPrefix(start, prefix) <==> prefix <= start;
      assert prefix + start == prefix + tail <==> start == tail by {
        if prefix + start == prefix + tail {
          assert (prefix + start)[|prefix|..] == start && (prefix + tail)[|prefix|..] == tail;
        }
      }
    }
  }

  lemma LeqNothing(k: Key)
    ensures Leq([], k)
  {
  }

  /** No candidate is in a block before the one the lower bound names. */
  lemma StartsAt(kindOf: Kinds, min: u64, blocks: seq<seq<Entry>>, prefix: Key, start: Key, b: nat)
    requires OneKind(kindOf, prefix)
    requires BlockOf(kindOf, LowerBound(prefix, start)) == Some(b)
    ensures Behind(kindOf, min, blocks, prefix, LowerBound(prefix, start), false, b, 0)
  {
    hide HasPrefix, Stored, Less, Get64, LowerBound;
    var low := LowerBound(prefix, start);
    LowerBoundPrefix(prefix, start);
    forall k | Candidate(kindOf, min, blocks, prefix, low, false, k) ensures BlockOf(kindOf, k).Some? && BlockOf(kindOf, k).value >= b {
      StoredEntry(kindOf, min, blocks, k);
      SameFirst(low, k, prefix);
      BlockOrder(low, k);
    }
  }

  lemma BehindLess(kindOf: Kinds, min: u64, blocks: seq<seq<Entry>>, prefix: Key, seek: Key, exact: bool, cur: nat, less: nat)
    requires Behind(kindOf, min, blocks, prefix, seek, exact, cur, 0) && (less <= cur || less <= min || blocks == [])
    ensures Behind(kindOf, min, blocks, prefix, seek, exact, less, 0)
  {
    hide After, HasPrefix, Stored;
    forall k | Candidate(kindOf, min, blocks, prefix, seek, exact, k) ensures BlockOf(kindOf, k).Some? && BlockOf(kindOf, k).value >= less {
      StoredEntry(kindOf, min, blocks, k);
    }
  }

  /** Beyond the last block there is no candidate. */
  lemma Exhausted(kindOf: Kinds, min: u64, blocks: seq<seq<Entry>>, prefix: Key, seek: Key, exact: bool, cur: nat)
    requires Behind(kindOf, min, blocks, prefix, seek, exact, cur, 0) && cur >= min as int + |blocks|
    ensures forall k :: !Candidate(kindOf, min, blocks, prefix, seek, exact, k)
  {
    hide After, HasPrefix, Stored;
    forall k ensures !Candidate(kindOf, min, blocks, prefix, seek, exact, k) {
      if Candidate(kindOf, min, blocks, prefix, seek, exact, k) {
        StoredEntry(kindOf, min, blocks, k);
        assert false;
      }
    }
  }

  /** When every block from `cur` on is indexed, the least skiplist key in range is the least
      candidate. */
  lemma LeastInMemory(kindOf: Kinds, min: u64, blocks: seq<seq<Entry>>, skip: Skiplist, indexed: set<nat>, latest: nat, prefix: Key, seek: Key, exact: bool, cur: nat, done: nat, r: Option<Key>)
    requires BlocksOk(kindOf, min, blocks) && IndexOk(min, blocks, skip, indexed) && Upward(indexed, latest) && cur in indexed
    requires blocks != [] && latest == min as int + |blocks| - 1
    requires Behind(kindOf, min, blocks, prefix, seek, exact, cur, done)
    requires r.Some? ==> r.value in skip && HasPrefix(r.value, prefix) && After(seek, exact, r.value) && skip[r.value].block >= cur
    requires forall k :: k in skip && HasPrefix(k, prefix) && After(seek, exact, k) && skip[k].block >= cur ==> r.Some? && Leq(r.value, k)
    ensures r.Some? ==> Least(kindOf, min, blocks, prefix, seek, exact, r.value)
    ensures r.None? ==> forall k :: !Candidate(kindOf, min, blocks, prefix, seek, exact, k)
  {
    hide HasPrefix, After, Less, Leq, Stored, ReadEntry, EncodeBlocks, SkipOk, BlocksOk, BlocksFit, BlockOf, Get64;
    if r.Some? {
      SkipRead(kindOf, min, blocks, skip, r.value);
    }
    forall k | Candidate(kindOf, min, blocks, prefix, seek, exact, k) ensures r.Some? && Leq(r.value, k) {
      StoredEntry(kindOf, min, blocks, k);
      var b := BlockOf(kindOf, k).value;
      assert b in indexed;
      assert IndexedOk(min, blocks, skip, b);
      PointsHome(kindOf, min, blocks, skip, k);
    }
  }

  class StreamIterator {
    const log: BL.BlockLog
    const prefix: Key
    const maxBlock: nat

    var seekKey: Key
    var seekExact: bool
    var curBlock: nat
    var curSlot: Option<Slot>
    var nextOffset: nat
    var hasNext: bool
    var nextKey: Key
    var nextVal: seq<byte>
    var key: Key
    var val: seq<byte>
    var corrupted: bool

    ghost var done: nat

    ghost predicate OverLog()
      reads log
    {
      && log.Valid() && Upward(log.indexed, log.latest) && AllOrdered(log.kindOf, log.blocks)
      && OneKind(log.kindOf, prefix) && maxBlock == log.latest
    }

    ghost predicate ReadyAt(seek: Key, exact: bool)
      reads this, log
    {
      && OverLog() && !corrupted
      && (curBlock == 0 ==> Finished(log.kindOf, log.minBlock, log.blocks, prefix, seek, exact))
      && (curBlock > 0 ==> curBlock >= log.minBlock && Behind(log.kindOf, log.minBlock, log.blocks, prefix, seek, exact, curBlock, done))
      && (curSlot.Some? ==> Positioned(log.minBlock, log.blocks, log.slots, curBlock, curSlot.value, nextOffset, done))
      && (curSlot.None? ==> done == 0)
    }

    ghost predicate Ready()
      reads this, log
    {
      ReadyAt(seekKey, seekExact) && !hasNext
    }

    /** `NewIterator`. */
    constructor (log: BL.BlockLog, prefix: Key, start: Key)
      requires log.Valid() && Upward(log.indexed, log.latest) && AllOrdered(log.kindOf, log.blocks) && OneKind(log.kindOf, prefix)
      ensures Ready() && this.log == log && this.prefix == prefix
      ensures seekKey == LowerBound(prefix, start) && !seekExact
      ensures forall k :: Candidate(log.kindOf, log.minBlock, log.blocks, prefix, seekKey, seekExact, k) <==>
                          Wanted(log.kindOf, log.minBlock, log.blocks, prefix, start, k)
    {
      hide FilesOk, SlotsOk, IndexOk, Stored, HasPrefix, Behind, Candidate, Windowed, LowerBound, AllOrdered, OneKind, BlockOf, Tracked;
      this.log, this.prefix, maxBlock := log, prefix, log.latest;
      var low := LowerBound(prefix, start);
      seekKey, seekExact := low, false;
      hasNext, nextKey, nextVal, key, val, corrupted := false, [], [], [], [], false;
      curSlot, nextOffset, done := None, 0, 0;
      var b := BlockOf(log.kindOf, low);
      var from := if b.Some? then b.value else log.minBlock;
      var skipped := from == 0 && log.latest == 0;
      from := if from == 0 then 1 else from;
      from := if from < log.minBlock then log.minBlock else from;
      curBlock := if skipped || from > log.latest then 0 else from;
      new;
      FirstBlock(log.kindOf, log.minBlock, log.blocks, log.latest, log.data, prefix, start, from);
      WantedIs(log.kindOf, log.minBlock, log.blocks, prefix, start) by { SomePrefix(log.kindOf, prefix); }
    }

    /** `prefetchFromMemoryIndex`, in the case that the current block is indexed. */
    method PrefetchFromMemory()
      requires Ready() && curBlock > 0 && curBlock in log.indexed
      modifies this`hasNext, this`nextKey, this`nextVal, this`curBlock, this`curSlot, this`done
      ensures hasNext ==> ReadyAt(nextKey, true)
      ensures hasNext ==> Least(log.kindOf, log.minBlock, log.blocks, prefix, seekKey, seekExact, nextKey) && log.Value(nextKey) == Some(nextVal)
      ensures !hasNext ==> Ready() && Finished(log.kindOf, log.minBlock, log.blocks, prefix, seekKey, seekExact)
    {
      hide SlotsOk, Stored, HasPrefix, Behind, Candidate, After, AllOrdered, BlockOf, Tracked, EncodeBlocks, ReadEntry, SkipOk, AllIndexed, BlocksOk, BlocksFit, Positioned, Less, Least, Upward;
      assert log.blocks != [] by { NotIndexed(log.minBlock, log.blocks, log.skip, log.indexed, curBlock); }
      forall k | k in log.skip ensures log.skip[k].block <= maxBlock {
        PointsHome(log.kindOf, log.minBlock, log.blocks, log.skip, k);
      }
      var r := FirstInMemory(log.skip, prefix, seekKey, seekExact, curBlock, maxBlock);
      LeastInMemory(log.kindOf, log.minBlock, log.blocks, log.skip, log.indexed, log.latest, prefix, seekKey, seekExact, curBlock, done, r);
      if r.None? {
        return;
      }
      var p := log.skip[r.value];
      SkipRead(log.kindOf, log.minBlock, log.blocks, log.skip, r.value);
      PointsHome(log.kindOf, log.minBlock, log.blocks, log.skip, r.value);
      AtHit(log.kindOf, log.minBlock, log.blocks, prefix, seekKey, seekExact, r.value);
      BehindAfter(log.kindOf, log.minBlock, log.blocks, prefix, seekKey, seekExact, r.value, p.block, 0);
      var v := if p.inline.Some? then p.inline.value else ReadEntry(log.data, p.offset).val;
      nextKey, nextVal, hasNext := r.value, v, true;
      curBlock, curSlot, done := p.block, None, 0;
    }

    /** The next entry of the current block, read from disk. */
    method ReadStep() returns (hit: bool)
      requires Ready() && curBlock > 0 && curSlot.Some? && nextOffset < curSlot.value.end
      modifies this`hasNext, this`nextKey, this`nextVal, this`nextOffset, this`done, this`corrupted
      ensures hit == hasNext
      ensures hit ==> ReadyAt(nextKey, true)
      ensures hit ==> Least(log.kindOf, log.minBlock, log.blocks, prefix, seekKey, seekExact, nextKey) && log.Value(nextKey) == Some(nextVal)
      ensures !hit ==> Ready() && old(nextOffset) < nextOffset <= curSlot.value.end
    {
      hide SlotsOk, FilesOk, IndexOk, Stored, HasPrefix, Behind, After, AllOrdered, OneKind, Tracked, EncodeBlocks, EncodeBlock, ReadEntry, BlocksOk, BlocksFit, AllFit, Less, Least, Upward, Leq;
      ReadNext(log.kindOf, log.minBlock, log.blocks, log.latest, log.data, log.slots, curBlock, curSlot.value, nextOffset, done);
      ghost var e := log.blocks[curBlock - log.minBlock][done];
      var r := ReadEntry(log.data, nextOffset);
      hit := false;
      corrupted := r.Bad? || r.next > curSlot.value.end;
      if corrupted {
        return;
      }
      HitOrMiss(log.kindOf, log.minBlock, log.blocks, log.latest, log.data, prefix, seekKey, seekExact, curBlock, done);
      nextOffset := r.next;
      done := done + 1;
      if !After(seekKey, seekExact, r.key) || !HasPrefix(r.key, prefix) {
        return;
      }
      nextKey, nextVal, hasNext := r.key, r.val, true;
      hit := true;
    }

    /** `prefetchNext`. */
    method PrefetchNext()
      requires Ready()
      modifies this
      ensures seekKey == old(seekKey) && seekExact == old(seekExact)
      ensures hasNext ==> ReadyAt(nextKey, true)
      ensures hasNext ==> Least(log.kindOf, log.minBlock, log.blocks, prefix, seekKey, seekExact, nextKey) && log.Value(nextKey) == Some(nextVal)
      ensures !hasNext ==> Ready() && Finished(log.kindOf, log.minBlock, log.blocks, prefix, seekKey, seekExact)
    {
      hide SlotsOk, FilesOk, IndexOk, Stored, HasPrefix, Behind, After, AllOrdered, OneKind, Tracked, Least, Upward, Candidate, Positioned, FindSlot, BlockOf;
      if curBlock == 0 {
        return;
      }
      while curBlock <= maxBlock
        invariant Ready() && curBlock > 0 && seekKey == old(seekKey) && seekExact == old(seekExact)
        decreases maxBlock + 1 - curBlock, if curSlot.Some? then 0 else 1, if curSlot.Some? then curSlot.value.end - nextOffset else 0
      {
        if curBlock in log.indexed {
          PrefetchFromMemory();
          return;
        }
        LatestOf(log.kindOf, log.minBlock, log.blocks, log.latest, log.data);
        if curSlot.None? {
          OpenBlock();
        } else if nextOffset >= curSlot.value.end {
          LeaveBlock();
        } else {
          var hit := ReadStep();
          if hit {
            return;
          }
        }
      }
      LatestOf(log.kindOf, log.minBlock, log.blocks, log.latest, log.data);
      NoSlotBeyond();
      Exhausted(log.kindOf, log.minBlock, log.blocks, prefix, seekKey, seekExact, curBlock);
    }

    /** Load the current block's slot; a block without entries is passed over. */
    method OpenBlock()
      requires Ready() && 0 < curBlock <= maxBlock && curSlot.None?
      modifies this`curBlock, this`curSlot, this`nextOffset, this`done
      ensures Ready() && curBlock > 0
      ensures if curSlot.Some? then curBlock == old(curBlock) && nextOffset <= curSlot.value.end else curBlock == old(curBlock) + 1
    {
      hide SlotsOk, FilesOk, IndexOk, Stored, HasPrefix, Behind, After, AllOrdered, OneKind, Tracked, Upward, Candidate, Positioned, FindSlot, BlockOf;
      LatestOf(log.kindOf, log.minBlock, log.blocks, log.latest, log.data);
      FindsSlot(log.kindOf, log.minBlock, log.blocks, log.latest, log.data, log.slots, curBlock);
      Opened(log.kindOf, log.minBlock, log.blocks, log.latest, log.data, log.slots, curBlock);
      var s := log.LookupSlot(curBlock);
      if s.None? || s.value.end <= s.value.start {
        NextBlock(log.kindOf, log.minBlock, log.blocks, prefix, seekKey, seekExact, curBlock, done);
        curBlock := curBlock + 1;
      } else {
        curSlot, nextOffset := s, s.value.start;
      }
    }

    method LeaveBlock()
      requires Ready() && 0 < curBlock && curSlot.Some? && nextOffset >= curSlot.value.end
      modifies this`curBlock, this`curSlot, this`done
      ensures Ready() && curBlock == old(curBlock) + 1 && curSlot.None?
    {
      hide SlotsOk, FilesOk, IndexOk, Stored, HasPrefix, Behind, After, AllOrdered, OneKind, Tracked, Upward, Candidate, ReadEntry, BlockOf, EncodeBlock, AllFit, BlocksFit;
      ReadNext(log.kindOf, log.minBlock, log.blocks, log.latest, log.data, log.slots, curBlock, curSlot.value, nextOffset, done);
      NextBlock(log.kindOf, log.minBlock, log.blocks, prefix, seekKey, seekExact, curBlock, done);
      curBlock, curSlot, done := curBlock + 1, None, 0;
    }

    lemma NoSlotBeyond()
      requires Ready() && curBlock > maxBlock
      ensures done == 0
    {
      hide SlotsOk, IndexOk, Behind, AllOrdered, OneKind, Tracked, Upward, Candidate, EncodeBlock, EncodeBlocks, AllFit, BlocksOk;
    }

    /** `Next`: the least remaining key is published with its value, or nothing remains. */
    method Next() returns (ok: bool)
      requires Ready()
      modifies this
      ensures Ready()
      ensures ok ==> Least(log.kindOf, log.minBlock, log.blocks, prefix, old(seekKey), old(seekExact), key)
      ensures ok ==> log.Value(key) == Some(val) && seekKey == key && seekExact
      ensures !ok ==> Finished(log.kindOf, log.minBlock, log.blocks, prefix, old(seekKey), old(seekExact))
    {
      hide SlotsOk, FilesOk, IndexOk, Tracked, AtMost, Least, Candidate, Behind, Positioned, Upward, AllOrdered, OneKind, Stored, Finished, BlockOf, Less;
      PrefetchNext();
      if !hasNext {
        return false;
      }
      Publish();
      ok := true;
    }

    /** The prefetched pair becomes the current one, and the seek position follows it. */
    method Publish()
      requires hasNext && ReadyAt(nextKey, true)
      modifies this`key, this`val, this`seekKey, this`seekExact, this`hasNext, this`nextKey, this`nextVal
      ensures Ready() && key == old(nextKey) && val == old(nextVal) && seekKey == key && seekExact
    {
      hide SlotsOk, FilesOk, IndexOk, Tracked, AtMost, Behind, Positioned, Upward, AllOrdered, OneKind, Stored, Finished, BlockOf, Less;
      key, val := nextKey, nextVal;
      seekKey, seekExact, hasNext := key, true, false;
      nextKey, nextVal := [], [];
    }
  }

  lemma NotIndexed(min: u64, blocks: seq<seq<Entry>>, skip: Skiplist, indexed: set<nat>, b: nat)
    requires AllIndexed(min, blocks, skip, indexed) && b in indexed
    ensures min <= b < min as int + |blocks|
  {
    assert IndexedOk(min, blocks, skip, b);
  }

  /** Either the entry at the position is the least candidate, or it is none. */
  lemma HitOrMiss(kindOf: Kinds, min: u64, blocks: seq<seq<Entry>>, latest: nat, data: seq<byte>, prefix: Key, seek: Key, exact: bool, cur: nat, done: nat)
    requires FilesOk(kindOf, min, blocks, latest, data) && AllOrdered(kindOf, blocks) && OneKind(kindOf, prefix)
    requires Behind(kindOf, min, blocks, prefix, seek, exact, cur, done)
    requires min <= cur < min as int + |blocks| && done < |blocks[cur - min]|
    ensures var e := blocks[cur - min][done];
            && Stored(kindOf, min, blocks, e.key) == Some(e.val)
            && if After(seek, exact, e.key) && HasPrefix(e.key, prefix)
               then Least(kindOf, min, blocks, prefix, seek, exact, e.key) && Behind(kindOf, min, blocks, prefix, e.key, true, cur, done + 1)
               else Behind(kindOf, min, blocks, prefix, seek, exact, cur, done + 1)
  {
    hide EncodeBlocks, BlocksOk, AllOrdered, OneKind, Behind, Stored, HasPrefix, Less, Least;
    var e := blocks[cur - min][done];
    EntryStored(kindOf, min, blocks, cur, done);
    if After(seek, exact, e.key) && HasPrefix(e.key, prefix) {
      FirstOnDisk(kindOf, min, blocks, prefix, seek, exact, cur, done);
      BehindAfter(kindOf, min, blocks, prefix, seek, exact, e.key, cur, done);
      LessTrichotomy(e.key, e.key);
      NextEntry(kindOf, min, blocks, prefix, e.key, true, cur, done);
    } else {
      NextEntry(kindOf, min, blocks, prefix, seek, exact, cur, done);
    }
  }

  /** The constructor's choice of the first block. */
  lemma FirstBlock(kindOf: Kinds, min: u64, blocks: seq<seq<Entry>>, latest: nat, data: seq<byte>, prefix: Key, start: Key, from: nat)
    requires FilesOk(kindOf, min, blocks, latest, data) && OneKind(kindOf, prefix)
    requires var b := BlockOf(kindOf, LowerBound(prefix, start));
             var f := if b.Some? then b.value else min;
             var g := if f == 0 then 1 else f;
             from == if g < min then min as int else g
    ensures Behind(kindOf, min, blocks, prefix, LowerBound(prefix, start), false, from, 0)
    ensures from > latest || latest == 0 ==> forall k :: !Candidate(kindOf, min, blocks, prefix, LowerBound(prefix, start), false, k)
  {
    hide BlocksOk, EncodeBlocks, Behind, LowerBound, OneKind, BlockOf, Stored, HasPrefix, After;
    var low := LowerBound(prefix, start);
    var b := BlockOf(kindOf, low);
    if b.Some? {
      StartsAt(kindOf, min, blocks, prefix, start, b.value);
    } else {
      EverywhereBehind(kindOf, min, blocks, prefix, low);
    }
    var f := if b.Some? then b.value else min as int;
    if f < from {
      BehindLess(kindOf, min, blocks, prefix, low, false, f, from);
    }
    if from > latest || latest == 0 {
      Exhausted(kindOf, min, blocks, prefix, low, false, from);
    }
  }

  lemma EverywhereBehind(kindOf: Kinds, min: u64, blocks: seq<seq<Entry>>, prefix: Key, seek: Key)
    ensures Behind(kindOf, min, blocks, prefix, seek, false, min, 0)
  {
    hide After, HasPrefix, Stored;
    forall k | Candidate(kindOf, min, blocks, prefix, seek, false, k) ensures BlockOf(kindOf, k).Some? && BlockOf(kindOf, k).value >= min {
      StoredEntry(kindOf, min, blocks, k);
    }
  }

  // ----- a whole iteration

  ghost predicate KeysAscend(es: seq<Entry>) {
    forall i, j :: 0 <= i < j < |es| ==> Less(es[i].key, es[j].key)
  }

  /** Every key stored in any block. */
  ghost function AllKeys(blocks: seq<seq<Entry>>): set<Key> {
    if blocks == [] then {}
    else AllKeys(blocks[..|blocks| - 1]) + SetOf(KeysOf(blocks[|blocks| - 1]))
  }

  ghost function SetOf(keys: seq<Key>): set<Key> {
    set k | k in keys
  }

  lemma {:induction false} InAllKeys(blocks: seq<seq<Entry>>, j: nat, key: Key)
    requires j < |blocks| && HasKey(blocks[j], key)
    ensures key in AllKeys(blocks)
    decreases |blocks|
  {
    var n := |blocks| - 1;
    if j < n {
      InAllKeys(blocks[..n], j, key);
    } else {
      var i :| 0 <= i < |blocks[n]| && blocks[n][i].key == key;
      assert KeysOf(blocks[n])[i] == key;
    }
  }

  lemma CandidateListed(kindOf: Kinds, min: u64, blocks: seq<seq<Entry>>, key: Key)
    requires Stored(kindOf, min, blocks, key).Some?
    ensures key in AllKeys(blocks)
  {
    hide Stored, Get64;
    StoredEntry(kindOf, min, blocks, key);
    InAllKeys(blocks, BlockOf(kindOf, key).value - min, key);
  }

  /** One step of a whole iteration: the keys still to come, one fewer. */
  lemma Fewer(kindOf: Kinds, min: u64, blocks: seq<seq<Entry>>, prefix: Key, seek: Key, exact: bool, key: Key, left: set<Key>)
    requires Least(kindOf, min, blocks, prefix, seek, exact, key)
    requires forall k :: k in left <==> Candidate(kindOf, min, blocks, prefix, seek, exact, k)
    ensures key in left && forall k :: k in left - {key} <==> Candidate(kindOf, min, blocks, prefix, key, true, k)
  {
    hide Candidate, Less;
    Published(kindOf, min, blocks, prefix, seek, exact, key);
    assert Candidate(kindOf, min, blocks, prefix, seek, exact, key);
  }

  ghost predicate Wanted(kindOf: Kinds, min: u64, blocks: seq<seq<Entry>>, prefix: Key, start: Key, key: Key) {
    Stored(kindOf, min, blocks, key).Some? && prefix <= key &&
    (start == [] || if prefix <= start then Leq(start, key) else Leq(start, key[|prefix|..]))
  }

  lemma SomePrefix(kindOf: Kinds, prefix: Key)
    requires OneKind(kindOf, prefix)
    ensures prefix != []
  {
  }

  lemma WantedIs(kindOf: Kinds, min: u64, blocks: seq<seq<Entry>>, prefix: Key, start: Key)
    requires prefix != []
    ensures forall k :: Candidate(kindOf, min, blocks, prefix, LowerBound(prefix, start), false, k) <==> Wanted(kindOf, min, blocks, prefix, start, k)
  {
    hide Stored, LowerBound, Less, Leq;
    forall k ensures Candidate(kindOf, min, blocks, prefix, LowerBound(prefix, start), false, k) <==> Wanted(kindOf, min, blocks, prefix, start, k) {
      assert HasPrefix(k, prefix) <==> prefix <= k;
      if prefix <= k {
        AboveBound(prefix, start, k);
      }
    }
  }

  ghost predicate Holds(kindOf: Kinds, min: u64, blocks: seq<seq<Entry>>, es: seq<Entry>) {
    forall i :: 0 <= i < |es| ==> Stored(kindOf, min, blocks, es[i].key) == Some(es[i].val)
  }

  lemma MoreVisited(kindOf: Kinds, min: u64, blocks: seq<seq<Entry>>, es: seq<Entry>, e: Entry)
    requires KeysAscend(es) && Holds(kindOf, min, blocks, es) && Stored(kindOf, min, blocks, e.key) == Some(e.val)
    requires es != [] ==> Less(es[|es| - 1].key, e.key)
    ensures KeysAscend(es + [e]) && Holds(kindOf, min, blocks, es + [e])
    ensures forall k :: HasKey(es + [e], k) <==> HasKey(es, k) || k == e.key
  {
    hide Less, Stored;
    var all := es + [e];
    forall i, j | 0 <= i < j < |all| ensures Less(all[i].key, all[j].key) {
      if j == |es| && i < |es| - 1 {
        LessTransitive(es[i].key, es[|es| - 1].key, e.key);
      }
    }
    forall k ensures HasKey(all, k) <==> HasKey(es, k) || k == e.key {
      assert all[|es|] == e;
      if HasKey(es, k) {
        var i :| 0 <= i < |es| && es[i].key == k;
        assert all[i].key == k;
      }
    }
  }

  /** Iterating to the end visits every stored key with the prefix at or above the bound exactly
      once, in ascending order, with its value. */
  method IterateAll(log: BL.BlockLog, prefix: Key, start: Key) returns (es: seq<Entry>)
    requires log.Valid() && Upward(log.indexed, log.latest) && AllOrdered(log.kindOf, log.blocks) && OneKind(log.kindOf, prefix)
    ensures forall i, j :: 0 <= i < j < |es| ==> Less(es[i].key, es[j].key)
    ensures forall i :: 0 <= i < |es| ==> log.Value(es[i].key) == Some(es[i].val)
    ensures forall k :: (exists i :: 0 <= i < |es| && es[i].key == k) <==> Wanted(log.kindOf, log.minBlock, log.blocks, prefix, start, k)
  {
    hide SlotsOk, FilesOk, IndexOk, Tracked, AtMost, Least, Behind, Positioned, Upward, AllOrdered, OneKind, Stored, HasKey, Windowed, LowerBound, HasPrefix, Less, KeysAscend, Holds, AllKeys;
    var it := new StreamIterator(log, prefix, start);
    es := [];
    ghost var left := set k | k in AllKeys(log.blocks) && Candidate(log.kindOf, log.minBlock, log.blocks, prefix, it.seekKey, false, k);
    NothingVisited(log.kindOf, log.minBlock, log.blocks);
    forall k | Candidate(log.kindOf, log.minBlock, log.blocks, prefix, it.seekKey, false, k) ensures k in AllKeys(log.blocks) {
      CandidateListed(log.kindOf, log.minBlock, log.blocks, k);
    }
    var more := it.Next();
    ghost var seek, exact := LowerBound(prefix, start), false;
    while more
      invariant it.Ready() && it.log == log && it.prefix == prefix
      invariant more ==> Least(log.kindOf, log.minBlock, log.blocks, prefix, seek, exact, it.key) && log.Value(it.key) == Some(it.val)
      invariant more ==> it.seekKey == it.key && it.seekExact
      invariant !more ==> Finished(log.kindOf, log.minBlock, log.blocks, prefix, seek, exact)
      invariant forall k :: k in left <==> Candidate(log.kindOf, log.minBlock, log.blocks, prefix, seek, exact, k)
      invariant forall k :: HasKey(es, k) || k in left <==> Wanted(log.kindOf, log.minBlock, log.blocks, prefix, start, k)
      invariant KeysAscend(es) && Holds(log.kindOf, log.minBlock, log.blocks, es)
      invariant es != [] ==> exact && seek == es[|es| - 1].key
      decreases left
    {
      assert Candidate(log.kindOf, log.minBlock, log.blocks, prefix, seek, exact, it.key) by { LeastLeft(log.kindOf, log.minBlock, log.blocks, prefix, seek, exact, it.key); }
      MoreVisited(log.kindOf, log.minBlock, log.blocks, es, Entry(it.key, it.val));
      Fewer(log.kindOf, log.minBlock, log.blocks, prefix, seek, exact, it.key, left);
      es := es + [Entry(it.key, it.val)];
      left := left - {it.key};
      seek, exact := it.key, true;
      more := it.Next();
    }
    Visited(log.kindOf, log.minBlock, log.blocks, es);
  }

  lemma Visited(kindOf: Kinds, min: u64, blocks: seq<seq<Entry>>, es: seq<Entry>)
    requires KeysAscend(es) && Holds(kindOf, min, blocks, es)
    ensures forall i, j :: 0 <= i < j < |es| ==> Less(es[i].key, es[j].key)
    ensures forall i :: 0 <= i < |es| ==> Stored(kindOf, min, blocks, es[i].key) == Some(es[i].val)
    ensures forall k :: HasKey(es, k) <==> exists i :: 0 <= i < |es| && es[i].key == k
  {
    hide Less, Stored;
  }

  lemma LeastLeft(kindOf: Kinds, min: u64, blocks: seq<seq<Entry>>, prefix: Key, seek: Key, exact: bool, key: Key)
    requires Least(kindOf, min, blocks, prefix, seek, exact, key)
    ensures Candidate(kindOf, min, blocks, prefix, seek, exact, key)
  {
  }

  lemma NothingVisited(kindOf: Kinds, min: u64, blocks: seq<seq<Entry>>)
    ensures KeysAscend([]) && Holds(kindOf, min, blocks, []) && forall k :: !HasKey([], k)
  {
  }
}
