/** Chunk files: records framed by a trailing footer, with commit tags between batches, and read from
    the tail so that the newest record of a key is met first. */
module ChunkFile {
  import opened Bytes
  import opened KvSort

  const FOOTER := 4
  const TAG_SIZE := 12

  datatype Item = Rec(pair: Pair) | Tag(block: u64)

  predicate PairOk(p: Pair) {
    0 < |p.key| < 0x1_0000 && |p.val| < 0x1_0000
  }

  predicate AllOk(ps: seq<Pair>) {
    forall i :: 0 <= i < |ps| ==> PairOk(ps[i])
  }

  predicate ItemOk(it: Item) {
    it.Rec? ==> PairOk(it.pair)
  }

  ghost predicate ItemsOk(its: seq<Item>) {
    forall i :: 0 <= i < |its| ==> ItemOk(its[i])
  }

  /** Key, value, then the footer with both lengths; a tag is a block id before an all-zero footer. */
  function EncodeItem(it: Item): (s: seq<byte>)
    requires ItemOk(it)
    ensures |s| == if it.Rec? then FOOTER + |it.pair.key| + |it.pair.val| else TAG_SIZE
  {
    match it
    case Rec(p) => p.key + p.val + Put16(|p.key|) + Put16(|p.val|)
    case Tag(b) => Put64(b) + [0, 0, 0, 0]
  }

  /** The bytes of a record and of a tag. */
  lemma FormatExample()
    ensures EncodeItem(Rec(Pair([7], [8, 9]))) == [7, 8, 9, 0, 1, 0, 2]
    ensures EncodeItem(Tag(0x0102)) == [0, 0, 0, 0, 0, 0, 1, 2, 0, 0, 0, 0]
  {
    Small64(0x0102, 1, 2);
  }

  ghost function EncodeItems(its: seq<Item>): seq<byte>
    requires ItemsOk(its)
  {
    if its == [] then [] else EncodeItems(its[..|its| - 1]) + EncodeItem(its[|its| - 1])
  }

  /** The records, in write order. */
  ghost function PairsOf(its: seq<Item>): seq<Pair> {
    if its == [] then []
    else PairsOf(its[..|its| - 1]) + (if its[|its| - 1].Rec? then [its[|its| - 1].pair] else [])
  }

  /** The newest commit tag. */
  ghost function LastTag(its: seq<Item>): u64 {
    if its == [] then 0
    else if its[|its| - 1].Tag? then its[|its| - 1].block
    else LastTag(its[..|its| - 1])
  }

  lemma {:induction false} EncodeConcat(a: seq<Item>, b: seq<Item>)
    requires ItemsOk(a) && ItemsOk(b)
    ensures ItemsOk(a + b) && EncodeItems(a + b) == EncodeItems(a) + EncodeItems(b)
    decreases |b|
  {
    hide EncodeItem, ItemOk;
    if b == [] {
      assert a + b == a;
    } else {
      var n := |b| - 1;
      EncodeConcat(a, b[..n]);
      assert (a + b)[..|a + b| - 1] == a + b[..n];
    }
  }

  lemma {:induction false} PairsConcat(a: seq<Item>, b: seq<Item>)
    ensures PairsOf(a + b) == PairsOf(a) + PairsOf(b)
    decreases |b|
  {
    if b == [] {
      assert a + b == a;
    } else {
      var n := |b| - 1;
      PairsConcat(a, b[..n]);
      assert (a + b)[..|a + b| - 1] == a + b[..n];
    }
  }

  // ----- reading one item back from its end

  datatype Tail = Bad | RecAt(pair: Pair, start: nat) | TagAt(block: u64, start: nat)

  function ReadTail(buf: seq<byte>, cursor: nat): (t: Tail)
    requires cursor <= |buf|
    ensures !t.Bad? ==> t.start < cursor
  {
    if cursor < FOOTER then Bad
    else
      var klen, vlen := Get16(buf[cursor - 4..cursor - 2]) as int, Get16(buf[cursor - 2..cursor]) as int;
      if klen == 0 && vlen == 0 then
        if cursor < TAG_SIZE then Bad else TagAt(Get64(buf[cursor - 12..cursor - 4]), cursor - TAG_SIZE)
      else
        var start := cursor - FOOTER - klen - vlen;
        if start < 0 then Bad
        else RecAt(Pair(buf[start..start + klen], buf[start + klen..start + klen + vlen]), start)
  }

  function Read(it: Item, start: nat): Tail {
    match it case Rec(p) => RecAt(p, start) case Tag(b) => TagAt(b, start)
  }

  lemma ReadTailBack(a: seq<byte>, it: Item, c: seq<byte>)
    requires ItemOk(it)
    ensures ReadTail(a + EncodeItem(it) + c, |a| + |EncodeItem(it)|) == Read(it, |a|)
  {
    hide EncodeItem, ReadTail;
    match it {
      case Rec(p) => ReadRecordBack(a, p, c);
      case Tag(b) => ReadTagBack(a, b, c);
    }
  }

  /** The last bytes of a slice, seen in the whole file. */
  lemma Inside(a: seq<byte>, s: seq<byte>, c: seq<byte>, i: nat, j: nat)
    requires i <= j <= |s|
    ensures (a + s + c)[|a| + i..|a| + j] == s[i..j]
  {
  }

  lemma ReadRecordBack(a: seq<byte>, p: Pair, c: seq<byte>)
    requires PairOk(p)
    ensures var s := EncodeItem(Rec(p)); ReadTail(a + s + c, |a| + |s|) == RecAt(p, |a|)
  {
    hide Put16, Get16, Get64, EncodeItem;
    var s, k, v := EncodeItem(Rec(p)), |p.key|, |p.val|;
    Inside(a, s, c, k + v, k + v + 2);
    Inside(a, s, c, k + v + 2, k + v + 4);
    Inside(a, s, c, 0, k);
    Inside(a, s, c, k, k + v);
    RecordParts(p);
  }

  /** Where a record's key, value and lengths are. */
  lemma RecordParts(p: Pair)
    requires PairOk(p)
    ensures var s, k, v := EncodeItem(Rec(p)), |p.key|, |p.val|;
            && s[0..k] == p.key && s[k..k + v] == p.val
            && s[k + v..k + v + 2] == Put16(k) && s[k + v + 2..k + v + 4] == Put16(v)
  {
    hide Put16;
  }

  lemma ReadTagBack(a: seq<byte>, b: u64, c: seq<byte>)
    ensures var s := EncodeItem(Tag(b)); ReadTail(a + s + c, |a| + |s|) == TagAt(b, |a|)
  {
    hide Put64, Get64, Get16;
    var s := EncodeItem(Tag(b));
    Inside(a, s, c, 8, 10);
    Inside(a, s, c, 10, 12);
    Inside(a, s, c, 0, 8);
    assert s[8..10] == [0, 0] && s[10..12] == [0, 0] && s[0..8] == Put64(b);
    ZeroFooter();
  }

  lemma ZeroFooter()
    ensures Get16([0, 0]) == 0
  {
  }

  /** Reading from the end of the first items of a file. */
  lemma ReadLast(left: seq<Item>, right: seq<Item>)
    requires ItemsOk(left) && ItemsOk(right) && left != []
    ensures var n := |left| - 1;
            && ItemsOk(left[..n]) && ItemsOk(left + right) && |EncodeItems(left)| <= |EncodeItems(left + right)|
            && ReadTail(EncodeItems(left + right), |EncodeItems(left)|) == Read(left[n], |EncodeItems(left[..n])|)
  {
    hide EncodeItem, ReadTail, ItemOk;
    var n := |left| - 1;
    EncodeConcat(left, right);
    ReadTailBack(EncodeItems(left[..n]), left[n], EncodeItems(right));
  }

  lemma EncodedNone(its: seq<Item>)
    requires ItemsOk(its)
    ensures |EncodeItems(its)| == 0 <==> its == []
  {
    hide EncodeItems;
    if its != [] {
      EncodedSome(its);
    } else {
      assert EncodeItems([]) == [] by { EncodedEmpty(); }
    }
  }

  lemma EncodedEmpty()
    ensures EncodeItems([]) == []
  {
  }

  lemma EncodedSome(its: seq<Item>)
    requires ItemsOk(its) && its != []
    ensures |EncodeItems(its)| > 0
  {
  }

  // ----- whole-file operations

  /** `countChunkEntriesFromTail`. */
  method CountFromTail(buf: seq<byte>, ghost its: seq<Item>) returns (n: Option<nat>)
    requires ItemsOk(its) && buf == EncodeItems(its)
    ensures n == Some(|PairsOf(its)|)
  {
    hide EncodeItems, ReadTail, ItemOk, PairsOf;
    var cursor, count := |buf|, 0;
    ghost var left, right: seq<Item> := its, [];
    assert its + [] == its;
    PairsEmpty();
    while cursor > 0
      invariant left + right == its && ItemsOk(left) && ItemsOk(right)
      invariant cursor == |EncodeItems(left)| <= |buf| && count == |PairsOf(right)|
      decreases cursor
    {
      EncodedNone(left);
      ReadLast(left, right);
      MoveOne(left, right);
      var t := ReadTail(buf, cursor);
      if t.Bad? {
        return None;
      }
      if t.RecAt? {
        count := count + 1;
      }
      cursor := t.start;
      left, right := left[..|left| - 1], [left[|left| - 1]] + right;
    }
    EncodedNone(left);
    assert right == its;
    n := Some(count);
  }

  lemma PairsEmpty()
    ensures PairsOf([]) == []
  {
  }

  /** One item moves from the unread to the read part. */
  lemma MoveOne(left: seq<Item>, right: seq<Item>)
    requires ItemsOk(left) && ItemsOk(right) && left != []
    ensures var n := |left| - 1;
            && left[..n] + ([left[n]] + right) == left + right && ItemsOk(left[..n]) && ItemsOk([left[n]] + right)
            && PairsOf([left[n]] + right) == (if left[n].Rec? then [left[n].pair] + PairsOf(right) else PairsOf(right))
            && |EncodeItems(left[..n])| <= |EncodeItems(left)|
  {
    hide EncodeItems, ItemsOk, PairsOf;
    var n := |left| - 1;
    Shorter(left);
    assert left == left[..n] + [left[n]];
    AssocItems(left[..n], [left[n]], right);
    PrependOk(left, right);
    PairsCons(left[n], right);
  }

  lemma AssocItems(a: seq<Item>, b: seq<Item>, c: seq<Item>)
    ensures (a + b) + c == a + (b + c)
  {
  }

  lemma PrependOk(left: seq<Item>, right: seq<Item>)
    requires ItemsOk(left) && ItemsOk(right) && left != []
    ensures ItemsOk([left[|left| - 1]] + right)
  {
    hide ItemOk;
  }

  lemma PairsCons(it: Item, right: seq<Item>)
    ensures PairsOf([it] + right) == if it.Rec? then [it.pair] + PairsOf(right) else PairsOf(right)
  {
    hide PairsOf;
    PairsConcat([it], right);
    PairsOne(it);
  }

  lemma PairsOne(it: Item)
    ensures PairsOf([it]) == if it.Rec? then [it.pair] else []
  {
    assert [it][..0] == [];
  }

  lemma Shorter(its: seq<Item>)
    requires ItemsOk(its) && its != []
    ensures ItemsOk(its[..|its| - 1]) && |EncodeItems(its[..|its| - 1])| <= |EncodeItems(its)|
  {
    hide EncodeItem, ItemOk;
  }

  /** `buildPairsFromChunkBuffer`: the records are collected newest first, then reversed. */
  method DecodeChunk(buf: seq<byte>, ghost its: seq<Item>) returns (r: Option<seq<Pair>>)
    requires ItemsOk(its) && buf == EncodeItems(its)
    ensures r == Some(PairsOf(its))
  {
    hide EncodeItems, ReadTail, ItemOk, PairsOf, Backward;
    var n := CountFromTail(buf, its);
    if n.None? {
      return None;
    }
    if n.value == 0 {
      return Some([]);
    }
    var cursor, entries := |buf|, [];
    ghost var left, right: seq<Item> := its, [];
    assert its + [] == its;
    PairsEmpty();
    BackwardEmpty();
    while cursor > 0
      invariant left + right == its && ItemsOk(left) && ItemsOk(right)
      invariant cursor == |EncodeItems(left)| <= |buf| && entries == Backward(PairsOf(right))
      decreases cursor
    {
      EncodedNone(left);
      ReadLast(left, right);
      MoveOne(left, right);
      var t := ReadTail(buf, cursor);
      if t.Bad? {
        return None;
      }
      if t.RecAt? {
        BackwardCons(t.pair, PairsOf(right));
        entries := entries + [t.pair];
      }
      cursor := t.start;
      left, right := left[..|left| - 1], [left[|left| - 1]] + right;
    }
    EncodedNone(left);
    assert right == its;
    BackwardTwice(PairsOf(its));
    entries := Reverse(entries);
    r := Some(entries);
  }

  ghost function Backward(s: seq<Pair>): (r: seq<Pair>) {
    seq(|s|, i requires 0 <= i < |s| => s[|s| - 1 - i])
  }

  lemma BackwardEmpty()
    ensures Backward([]) == []
  {
  }

  lemma BackwardCons(p: Pair, s: seq<Pair>)
    ensures Backward([p] + s) == Backward(s) + [p]
  {
  }

  lemma BackwardTwice(s: seq<Pair>)
    ensures Backward(Backward(s)) == s
  {
  }

  /** The swap loop at the end of the decoder. */
  method Reverse(s: seq<Pair>) returns (r: seq<Pair>)
    ensures r == Backward(s)
  {
    r := s;
    var i, j := 0, |s| - 1;
    while i < j
      invariant 0 <= i <= |s| && j == |s| - 1 - i && |r| == |s|
      invariant forall k :: 0 <= k < i ==> r[k] == s[|s| - 1 - k]
      invariant forall k :: i <= k <= j ==> r[k] == s[k]
      invariant forall k :: j < k < |s| ==> r[k] == s[|s| - 1 - k]
    {
      r := r[i := r[j]][j := r[i]];
      i, j := i + 1, j - 1;
    }
  }

  datatype Answer = Found(val: seq<byte>) | Tombstone | Absent | Corrupt

  /** `readSegmentedChunkBufferToCache`: the first match from the tail. It is the last write. */
  method TailLookup(buf: seq<byte>, key: Key, ghost its: seq<Item>) returns (r: Answer)
    requires ItemsOk(its) && buf == EncodeItems(its)
    ensures var v := Last(PairsOf(its), key);
            r == if v.None? then Absent else if v.value == [] then Tombstone else Found(v.value)
  {
    hide EncodeItems, ReadTail, ItemOk, PairsOf, Last;
    var cursor := |buf|;
    ghost var left, right: seq<Item> := its, [];
    assert its + [] == its;
    PairsEmpty();
    NoLast(key);
    while cursor > 0
      invariant left + right == its && ItemsOk(left) && ItemsOk(right)
      invariant cursor == |EncodeItems(left)| <= |buf| && Last(PairsOf(right), key) == None
      decreases cursor
    {
      EncodedNone(left);
      ReadLast(left, right);
      MoveOne(left, right);
      ghost var it := left[|left| - 1];
      LookupStep(left, right, key);
      var t := ReadTail(buf, cursor);
      if t.Bad? {
        return Corrupt;
      }
      if t.RecAt? && t.pair.key == key {
        return if t.pair.val == [] then Tombstone else Found(t.pair.val);
      }
      cursor := t.start;
      left, right := left[..|left| - 1], [it] + right;
    }
    EncodedNone(left);
    assert right == its;
    r := Absent;
  }

  lemma NoLast(key: Key)
    ensures Last([], key) == None
  {
  }

  lemma LookupStep(left: seq<Item>, right: seq<Item>, key: Key)
    requires ItemsOk(left) && ItemsOk(right) && left != [] && Last(PairsOf(right), key) == None
    ensures var n := |left| - 1;
            if left[n].Rec? && left[n].pair.key == key
            then Last(PairsOf(left + right), key) == Some(left[n].pair.val)
            else Last(PairsOf([left[n]] + right), key) == None
  {
    hide EncodeItems, ItemOk;
    var n := |left| - 1;
    MoveOne(left, right);
    var one := if left[n].Rec? then [left[n].pair] else [];
    PairsConcat(left[..n], [left[n]] + right);
    LastConcat(PairsOf(left[..n]), PairsOf([left[n]] + right), key);
    LastConcat(one, PairsOf(right), key);
    if left[n].Rec? {
      assert one[..0] == [];
    }
  }

  /** `lastChunkCommitTagBlockID`; 0 when there is none. */
  method FindLastTag(buf: seq<byte>, ghost its: seq<Item>) returns (b: u64)
    requires ItemsOk(its) && buf == EncodeItems(its)
    ensures b == LastTag(its)
  {
    hide EncodeItems, ReadTail, ItemOk;
    var cursor := |buf|;
    b := 0;
    ghost var left, right: seq<Item> := its, [];
    assert its + [] == its;
    while cursor > 0
      invariant b == 0 && left + right == its && ItemsOk(left) && ItemsOk(right)
      invariant cursor == |EncodeItems(left)| <= |buf| && LastTag(left) == LastTag(its)
      decreases cursor
    {
      EncodedNone(left);
      ReadLast(left, right);
      MoveOne(left, right);
      var t := ReadTail(buf, cursor);
      if t.Bad? {
        return;
      }
      if t.TagAt? {
        return t.block;
      }
      cursor := t.start;
      left, right := left[..|left| - 1], [left[|left| - 1]] + right;
    }
    EncodedNone(left);
  }

  // ----- writing

  /** A batch of records and, for a non-zero block, its commit tag. */
  ghost function Batch(ps: seq<Pair>, block: u64): seq<Item> {
    seq(|ps|, i requires 0 <= i < |ps| => Rec(ps[i])) + (if block == 0 then [] else [Tag(block)])
  }

  lemma BatchOk(ps: seq<Pair>, block: u64)
    requires AllOk(ps)
    ensures ItemsOk(Batch(ps, block)) && PairsOf(Batch(ps, block)) == ps
  {
    hide PairsOf;
    var recs := seq(|ps|, i requires 0 <= i < |ps| => Rec(ps[i]));
    BatchPairs(ps);
    if block != 0 {
      PairsConcat(recs, [Tag(block)]);
      assert PairsOf([Tag(block)]) == [] by { TagHasNoPair(block); }
    } else {
      assert recs + [] == recs;
    }
  }

  lemma TagHasNoPair(block: u64)
    ensures PairsOf([Tag(block)]) == []
  {
    assert [Tag(block)][..0] == [];
  }

  lemma {:induction false} BatchPairs(ps: seq<Pair>)
    ensures PairsOf(seq(|ps|, i requires 0 <= i < |ps| => Rec(ps[i]))) == ps
  {
    var recs := seq(|ps|, i requires 0 <= i < |ps| => Rec(ps[i]));
    if ps != [] {
      var n := |ps| - 1;
      BatchPairs(ps[..n]);
      assert recs[..n] == seq(n, i requires 0 <= i < n => Rec(ps[..n][i]));
      assert ps == ps[..n] + [ps[n]];
    }
  }

  /** `serializeChunkPayload` and `appendChunkCommitTag`: refused when a key or value is too long. */
  method Serialize(ps: seq<Pair>, block: u64) returns (r: Option<seq<byte>>)
    requires forall i :: 0 <= i < |ps| ==> ps[i].key != []
    ensures r.Some? <==> AllOk(ps)
    ensures r.Some? ==> ItemsOk(Batch(ps, block)) && r.value == EncodeItems(Batch(ps, block))
  {
    hide EncodeItem;
    for i := 0 to |ps|
      invariant AllOk(ps[..i])
    {
      if |ps[i].key| > 0xffff || |ps[i].val| > 0xffff {
        return None;
      }
    }
    assert ps[..|ps|] == ps;
    BatchOk(ps, block);
    ghost var its := Batch(ps, block);
    var buf: seq<byte> := [];
    for i := 0 to |ps|
      invariant ItemsOk(its[..i]) && buf == EncodeItems(its[..i])
    {
      assert its[..i + 1][..i] == its[..i];
      buf := buf + EncodeItem(Rec(ps[i]));
    }
    if block != 0 {
      assert its[..|ps| + 1][..|ps|] == its[..|ps|] && its[..|ps| + 1] == its;
      buf := buf + EncodeItem(Tag(block));
    } else {
      assert its[..|ps|] == its;
    }
    r := Some(buf);
  }
}
