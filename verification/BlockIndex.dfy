/** What the block log stores, and what its in-memory skiplist may say about it. */
module BlockIndex {
  import opened Bytes
  import opened BlockFile

  datatype Kind = Header | Body | Receipts | Other

  type Kinds = Key -> Kind

  /** `ParseBlockNumberFromKey`: header, body and receipts keys embed their block number. */
  function BlockOf(kindOf: Kinds, key: Key): Option<nat> {
    if kindOf(key) != Other && |key| >= 9 then Some(Get64(key[1..9])) else None
  }

  /** Nine bytes of a block key are enough: its first byte and the big-endian block number. */
  lemma BlockOfIs(kindOf: Kinds, key: Key)
    ensures kindOf(key) == Other || |key| < 9 ==> BlockOf(kindOf, key) == None
    ensures forall n: u64 :: kindOf(key) != Other && |key| >= 9 && key[1..9] == Put64(n) ==> BlockOf(kindOf, key) == Some(n as nat)
  {
    hide Put64, Get64;
  }

  predicate Embeds(kindOf: Kinds, b: nat, es: seq<Entry>) {
    forall i :: 0 <= i < |es| ==> BlockOf(kindOf, es[i].key) == Some(b)
  }

  predicate Distinct(es: seq<Entry>) {
    forall i, j :: 0 <= i < j < |es| ==> es[i].key != es[j].key
  }

  ghost predicate BlocksOk(kindOf: Kinds, min: u64, blocks: seq<seq<Entry>>) {
    && BlocksFit(min, blocks)
    && forall j :: 0 <= j < |blocks| ==> Embeds(kindOf, min as int + j, blocks[j]) && Distinct(blocks[j])
  }

  function FindIn(es: seq<Entry>, key: Key): (r: Option<seq<byte>>)
    ensures r.None? ==> forall i :: 0 <= i < |es| ==> es[i].key != key
    ensures r.Some? ==> exists i :: 0 <= i < |es| && es[i] == Entry(key, r.value)
  {
    if es == [] then None
    else
      var last := es[|es| - 1];
      if last.key == key then
        assert es[|es| - 1] == Entry(key, last.val);
        Some(last.val)
      else
        var r := FindIn(es[..|es| - 1], key);
        assert r.Some? ==> exists i :: 0 <= i < |es| && es[i] == Entry(key, r.value) by {
          if r.Some? {
            var i :| 0 <= i < |es| - 1 && es[..|es| - 1][i] == Entry(key, r.value);
            assert es[i] == Entry(key, r.value);
          }
        }
        r
  }

  lemma FindInUnique(es: seq<Entry>, key: Key, i: nat)
    requires Distinct(es) && i < |es| && es[i].key == key
    ensures FindIn(es, key) == Some(es[i].val)
  {
    hide FindIn;
    var r := FindIn(es, key);
    var j :| 0 <= j < |es| && es[j] == Entry(key, r.value);
    assert i == j;
  }

  /** The abstract contents: the value stored for a key, in the block the key names. */
  function Stored(kindOf: Kinds, min: u64, blocks: seq<seq<Entry>>, key: Key): Option<seq<byte>> {
    match BlockOf(kindOf, key)
    case Some(b) => if min <= b < min as int + |blocks| then FindIn(blocks[b - min], key) else None
    case None => None
  }

  // ----- skiplist pointers

  datatype Ptr = Ptr(offset: nat, valueLen: nat, block: nat, inline: Option<seq<byte>>)

  type Skiplist = map<Key, Ptr>

  function BlockStart(min: u64, blocks: seq<seq<Entry>>, j: nat): nat
    requires BlocksFit(min, blocks) && j <= |blocks|
  {
    |EncodeBlocks(min, blocks[..j])|
  }

  /** `p` refers to entry `i` of block `p.block`. */
  ghost predicate PtrAt(min: u64, blocks: seq<seq<Entry>>, key: Key, p: Ptr, i: nat)
    requires BlocksFit(min, blocks)
  {
    && min <= p.block < min as int + |blocks|
    && var es := blocks[p.block - min];
    && i < |es| && es[i].key == key
    && p.offset == BlockStart(min, blocks, p.block - min) + |EncodeBlock(p.block, es[..i])|
    && p.valueLen == |es[i].val|
    && (p.inline.Some? ==> p.inline.value == es[i].val)
  }

  ghost predicate SkipOk(min: u64, blocks: seq<seq<Entry>>, skip: Skiplist)
    requires BlocksFit(min, blocks)
  {
    forall k :: k in skip ==> exists i :: PtrAt(min, blocks, k, skip[k], i)
  }

  ghost predicate KeysIn(es: seq<Entry>, skip: Skiplist) {
    forall i :: 0 <= i < |es| ==> es[i].key in skip
  }

  /** Every key of an indexed block is in the skiplist. */
  ghost predicate IndexedOk(min: u64, blocks: seq<seq<Entry>>, skip: Skiplist, b: nat) {
    min <= b < min as int + |blocks| && KeysIn(blocks[b - min], skip)
  }

  /** Reading at the offset of `p` finds the entry it refers to. */
  lemma ReadThrough(min: u64, blocks: seq<seq<Entry>>, key: Key, p: Ptr, i: nat)
    requires min <= p.block < min as int + |blocks| && i < |blocks[p.block - min]|
    requires BlocksFit(min, blocks) && PtrAt(min, blocks, key, p, i)
    ensures var r := ReadEntry(EncodeBlocks(min, blocks), p.offset);
            r.Good? && r.val == blocks[p.block - min][i].val
  {
    hide EncodeBlock, EncodeBlocks, EncodeEntry, ReadEntry, SlotsFor;
    var j := p.block - min;
    var es, data := blocks[j], EncodeBlocks(min, blocks);
    SlotsTile(min, blocks, j);
    SlotStart(min, blocks, j);
    var s := SlotsFor(min, blocks)[j];
    EntryInBlock(p.block, es, i);
    var pre, post := data[..s.start], data[s.end..];
    var x, e, y := EncodeBlock(p.block, es[..i]), EncodeEntry(p.block, es[i]), EncodeBlock(p.block, es[i + 1..]);
    assert data == pre + data[s.start..s.end] + post;
    assert data == (pre + x) + e + (y + post);
    ReadBack(pre + x, p.block, es[i], y + post);
  }

  lemma {:induction false} SlotStart(min: u64, blocks: seq<seq<Entry>>, j: nat)
    requires BlocksFit(min, blocks) && j < |blocks|
    ensures SlotsFor(min, blocks)[j].start == BlockStart(min, blocks, j)
    decreases |blocks|
  {
    hide EncodeBlocks;
    var n := |blocks| - 1;
    if j < n {
      SlotStart(min, blocks[..n], j);
      assert blocks[..n][..j] == blocks[..j];
    }
  }

  /** Pointers stay valid when a block is added or the last block grows. */
  lemma PtrAfterPush(min: u64, blocks: seq<seq<Entry>>, es: seq<Entry>, key: Key, p: Ptr, i: nat)
    requires BlocksFit(min, blocks) && BlocksFit(min, blocks + [es]) && PtrAt(min, blocks, key, p, i)
    ensures PtrAt(min, blocks + [es], key, p, i)
  {
    hide EncodeBlock, EncodeBlocks;
    var j := p.block - min;
    assert (blocks + [es])[..j] == blocks[..j] && (blocks + [es])[j] == blocks[j];
  }

  lemma PtrAfterGrow(min: u64, blocks: seq<seq<Entry>>, es: seq<Entry>, key: Key, p: Ptr, i: nat)
    requires blocks != [] && BlocksFit(min, blocks) && BlocksFit(min, blocks[|blocks| - 1 := blocks[|blocks| - 1] + es])
    requires PtrAt(min, blocks, key, p, i)
    ensures PtrAt(min, blocks[|blocks| - 1 := blocks[|blocks| - 1] + es], key, p, i)
  {
    hide EncodeBlock, EncodeBlocks;
    var n := |blocks| - 1;
    var grown := blocks[n := blocks[n] + es];
    var j := p.block - min;
    assert grown[..j] == blocks[..j];
    if j == n {
      assert grown[j][..i] == blocks[j][..i] && grown[j][i] == blocks[j][i];
    }
  }

  lemma SkipAfterPush(min: u64, blocks: seq<seq<Entry>>, es: seq<Entry>, skip: Skiplist)
    requires BlocksFit(min, blocks) && BlocksFit(min, blocks + [es]) && SkipOk(min, blocks, skip)
    ensures SkipOk(min, blocks + [es], skip)
  {
    hide PtrAt;
    forall k | k in skip ensures exists i :: PtrAt(min, blocks + [es], k, skip[k], i) {
      var i :| PtrAt(min, blocks, k, skip[k], i);
      PtrAfterPush(min, blocks, es, k, skip[k], i);
    }
  }

  lemma SkipAfterGrow(min: u64, blocks: seq<seq<Entry>>, es: seq<Entry>, skip: Skiplist)
    requires blocks != [] && BlocksFit(min, blocks) && BlocksFit(min, blocks[|blocks| - 1 := blocks[|blocks| - 1] + es])
    requires SkipOk(min, blocks, skip)
    ensures SkipOk(min, blocks[|blocks| - 1 := blocks[|blocks| - 1] + es], skip)
  {
    hide PtrAt;
    var grown := blocks[|blocks| - 1 := blocks[|blocks| - 1] + es];
    forall k | k in skip ensures exists i :: PtrAt(min, grown, k, skip[k], i) {
      var i :| PtrAt(min, blocks, k, skip[k], i);
      PtrAfterGrow(min, blocks, es, k, skip[k], i);
    }
  }

  // ----- indexing a block's bytes

  /** `buildKVPointerForSkiplist`: header values are kept inline. */
  function PtrFor(kindOf: Kinds, b: nat, offset: nat, e: Entry): Ptr {
    Ptr(offset, |e.val|, b, if kindOf(e.key) == Header then Some(e.val) else None)
  }

  /** The skiplist after indexing `es`, whose bytes start at `base`. */
  function AddPtrs(kindOf: Kinds, skip: Skiplist, b: u64, base: nat, es: seq<Entry>): Skiplist
    requires AllFit(es)
  {
    if es == [] then skip
    else
      var init, last := es[..|es| - 1], es[|es| - 1];
      AddPtrs(kindOf, skip, b, base, init)[last.key := PtrFor(kindOf, b, base + |EncodeBlock(b, init)|, last)]
  }

  lemma {:induction false} AddPtrsKeys(kindOf: Kinds, skip: Skiplist, b: u64, base: nat, es: seq<Entry>)
    requires AllFit(es)
    ensures var r := AddPtrs(kindOf, skip, b, base, es);
            && (forall k :: k in skip ==> k in r)
            && (forall i :: 0 <= i < |es| ==> es[i].key in r)
  {
    hide EncodeBlock;
    if es != [] {
      var init := es[..|es| - 1];
      AddPtrsKeys(kindOf, skip, b, base, init);
      assert forall i :: 0 <= i < |init| ==> es[i] == init[i];
    }
  }

  /** Indexing the entries `es` that were appended after `before` to block `b` gives valid pointers. */
  lemma {:induction false} AddPtrsOk(kindOf: Kinds, min: u64, blocks: seq<seq<Entry>>, skip: Skiplist, b: u64, before: seq<Entry>, es: seq<Entry>, after: seq<Entry>)
    requires BlocksFit(min, blocks) && min <= b < min as int + |blocks|
    requires AllFit(es) && blocks[b - min] == before + es + after && SkipOk(min, blocks, skip)
    ensures AllFit(before) && SkipOk(min, blocks, AddPtrs(kindOf, skip, b, BlockStart(min, blocks, b - min) + |EncodeBlock(b, before)|, es))
    decreases |es|
  {
    hide EncodeBlock, EncodeBlocks, BlockStart;
    var all := blocks[b - min];
    assert forall i :: 0 <= i < |before| ==> before[i] == all[i];
    if es != [] {
      var init, last := es[..|es| - 1], es[|es| - 1];
      assert before + es + after == before + init + ([last] + after);
      AddPtrsOk(kindOf, min, blocks, skip, b, before, init, [last] + after);
      var base := BlockStart(min, blocks, b - min) + |EncodeBlock(b, before)|;
      var skip0 := AddPtrs(kindOf, skip, b, base, init);
      var p := PtrFor(kindOf, b, base + |EncodeBlock(b, init)|, last);
      var i := |before| + |init|;
      assert all[i] == last && all[..i] == before + init;
      EncodeBlockConcat(b, before, init);
      assert PtrAt(min, blocks, last.key, p, i);
      SetPtr(min, blocks, skip0, last.key, p, i);
    }
  }

  lemma SetPtr(min: u64, blocks: seq<seq<Entry>>, skip: Skiplist, key: Key, p: Ptr, i: nat)
    requires BlocksFit(min, blocks) && SkipOk(min, blocks, skip) && PtrAt(min, blocks, key, p, i)
    ensures SkipOk(min, blocks, skip[key := p])
  {
    hide PtrAt;
  }

  function KeysOf(es: seq<Entry>): seq<Key> {
    seq(|es|, i requires 0 <= i < |es| => es[i].key)
  }

  /** The loop that decodes a block's bytes, sets a skiplist entry per record and lists the keys. */
  method IndexBytes(kindOf: Kinds, skip: Skiplist, b: u64, base: nat, bytes: seq<byte>, ghost es: seq<Entry>) returns (r: Skiplist, keys: seq<Key>)
    requires AllFit(es) && bytes == EncodeBlock(b, es)
    ensures r == AddPtrs(kindOf, skip, b, base, es)
    ensures keys == KeysOf(es)
  {
    hide EncodeBlock, EncodeEntry, ReadEntry, AddPtrs, PtrFor, Fits;
    r, keys := skip, [];
    var pos := 0;
    ghost var done: seq<Entry>, rest := [], es;
    IndexStart(kindOf, skip, b, base);
    assert done + rest == es;
    while pos < |bytes|
      invariant done + rest == es && AllFit(done) && AllFit(rest)
      invariant pos == |EncodeBlock(b, done)| <= |bytes|
      invariant r == AddPtrs(kindOf, skip, b, base, done) && keys == KeysOf(done)
      decreases |bytes| - pos
    {
      IndexStep(kindOf, skip, b, base, done, rest);
      var e := ReadEntry(bytes, pos);
      if e.Bad? {
        break;
      }
      r := r[e.key := PtrFor(kindOf, e.block, base + pos, Entry(e.key, e.val))];
      keys := keys + [e.key];
      pos := e.next;
      done, rest := done + [rest[0]], rest[1..];
    }
    IndexEnd(b, done, rest);
    assert done == es;
  }

  lemma IndexStart(kindOf: Kinds, skip: Skiplist, b: u64, base: nat)
    ensures EncodeBlock(b, []) == [] && AddPtrs(kindOf, skip, b, base, []) == skip
  {
  }

  lemma IndexEnd(b: u64, done: seq<Entry>, rest: seq<Entry>)
    requires AllFit(done) && AllFit(rest)
    ensures AllFit(done + rest) && |EncodeBlock(b, done)| <= |EncodeBlock(b, done + rest)|
    ensures |EncodeBlock(b, done)| == |EncodeBlock(b, done + rest)| <==> rest == []
  {
    hide EncodeEntry;
    EncodeBlockConcat(b, done, rest);
  }

  lemma IndexStep(kindOf: Kinds, skip: Skiplist, b: u64, base: nat, done: seq<Entry>, rest: seq<Entry>)
    requires AllFit(done) && AllFit(rest) && |EncodeBlock(b, done)| < |EncodeBlock(b, done + rest)|
    ensures rest != []
    ensures var e, pos := rest[0], |EncodeBlock(b, done)|;
            && AllFit(done + [e]) && AllFit(rest[1..]) && (done + [e]) + rest[1..] == done + rest
            && ReadEntry(EncodeBlock(b, done + rest), pos) == Good(b, e.key, e.val, |EncodeBlock(b, done + [e])|)
            && |EncodeBlock(b, done + [e])| <= |EncodeBlock(b, done + rest)|
            && AddPtrs(kindOf, skip, b, base, done + [e]) == AddPtrs(kindOf, skip, b, base, done)[e.key := PtrFor(kindOf, b, base + pos, e)]
  {
    hide EncodeEntry, EncodeBlock, ReadEntry;
    IndexEnd(b, done, rest);
    var e, tail := rest[0], rest[1..];
    assert done + rest == (done + [e]) + tail;
    AroundEntry(b, done, e, tail);
    ReadBack(EncodeBlock(b, done), b, e, EncodeBlock(b, tail));
    AroundEntry(b, done, e, []);
    assert (done + [e]) + [] == done + [e];
    assert EncodeBlock(b, []) == [] by { IndexStart(kindOf, skip, b, base); }
    IndexEnd(b, done + [e], tail);
    assert (done + [e])[..|done|] == done;
  }

  /** `findKeyInOneBlock`. */
  method FindInBytes(b: u64, bytes: seq<byte>, key: Key, ghost es: seq<Entry>) returns (r: Option<seq<byte>>)
    requires AllFit(es) && Distinct(es) && bytes == EncodeBlock(b, es)
    ensures r == FindIn(es, key)
  {
    hide EncodeBlock, EncodeEntry, ReadEntry, FindIn, AddPtrs, Fits;
    var pos := 0;
    ghost var done: seq<Entry>, rest := [], es;
    IndexStart(_ => Other, map[], b, 0);
    assert done + rest == es;
    while pos < |bytes|
      invariant done + rest == es && AllFit(done) && AllFit(rest)
      invariant pos == |EncodeBlock(b, done)| <= |bytes|
      invariant forall i :: 0 <= i < |done| ==> done[i].key != key
      decreases |bytes| - pos
    {
      IndexStep(_ => Other, map[], b, 0, done, rest);
      var e := ReadEntry(bytes, pos);
      if e.Bad? {
        break;
      }
      if e.key == key {
        assert es[|done|] == rest[0];
        FindInUnique(es, key, |done|);
        return Some(e.val);
      }
      pos := e.next;
      done, rest := done + [rest[0]], rest[1..];
    }
    IndexEnd(b, done, rest);
    assert done == es;
    r := None;
  }
}
