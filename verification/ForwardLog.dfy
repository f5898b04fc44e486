/** Forward-framed logs: records `[keyLen u16][valLen u16][key][val]` and commit
    tags, which are a zero/zero header followed by a 64-bit block id.  Used by the
    account log, the inline storage files and the per-account buffer logs. */
module ForwardLog {
  import opened Bytes

  const HEADER_SIZE := 4
  const COMMIT_TAG_SIZE := 12

  datatype Kv = Kv(key: seq<byte>, val: seq<byte>)

  datatype Item = Rec(kv: Kv) | Tag(blockId: u64)

  /** What `serializeStorageSegment` accepts, minus the record that would read back as a tag. */
  predicate Framable(kv: Kv) {
    |kv.key| <= 0xFFFF && |kv.val| <= 0xFFFF && (kv.key != [] || kv.val != [])
  }

  predicate AllFramable(kvs: seq<Kv>) {
    forall i :: 0 <= i < |kvs| ==> Framable(kvs[i])
  }

  predicate ItemOk(it: Item) {
    it.Rec? ==> Framable(it.kv)
  }

  predicate ItemsOk(items: seq<Item>) {
    forall i :: 0 <= i < |items| ==> ItemOk(items[i])
  }

  function EncodeItem(it: Item): (s: seq<byte>)
    requires ItemOk(it)
    ensures |s| == ItemSize(it)
  {
    match it
    case Rec(kv) => Put16(|kv.key|) + Put16(|kv.val|) + kv.key + kv.val
    case Tag(id) => Put16(0) + Put16(0) + Put64(id)
  }

  function ItemSize(it: Item): (n: nat)
    ensures n >= HEADER_SIZE
  {
    match it
    case Rec(kv) => HEADER_SIZE + |kv.key| + |kv.val|
    case Tag(_) => COMMIT_TAG_SIZE
  }

  function Encode(items: seq<Item>): (s: seq<byte>)
    requires ItemsOk(items)
  {
    if items == [] then [] else EncodeItem(items[0]) + Encode(items[1..])
  }

  /** The bytes of a record and of a tag. */
  lemma FormatExample()
    ensures EncodeItem(Rec(Kv([7], [8, 9]))) == [0, 1, 0, 2, 7, 8, 9]
    ensures EncodeItem(Tag(0x0102)) == [0, 0, 0, 0, 0, 0, 0, 0, 0, 0, 1, 2]
  {
    Small64(0x0102, 1, 2);
  }

  lemma {:induction false} EncodeConcat(a: seq<Item>, b: seq<Item>)
    requires ItemsOk(a) && ItemsOk(b)
    ensures ItemsOk(a + b) && Encode(a + b) == Encode(a) + Encode(b)
  {
    hide EncodeItem;
    if a == [] {
      assert a + b == b;
    } else {
      EncodeConcat(a[1..], b);
      assert (a + b)[1..] == a[1..] + b;
    }
  }

  lemma EncodeOne(it: Item)
    requires ItemOk(it)
    ensures Encode([it]) == EncodeItem(it)
  {
    hide EncodeItem;
    assert Encode([it]) == EncodeItem(it) + Encode([]);
  }

  /** What one cursor step of every forward scan sees. `Stop` is a frame that does not fit. */
  datatype Parsed =
    | Stop
    | AtTag(next: nat)
    | AtRec(key: seq<byte>, valOff: nat, valLen: nat, next: nat)

  function ReadItem(p: seq<byte>, c: nat): (r: Parsed)
    ensures !r.Stop? ==> c + HEADER_SIZE <= r.next <= |p|
    ensures r.AtRec? ==> r.valOff == c + HEADER_SIZE + |r.key| && r.valOff + r.valLen == r.next
  {
    if c + HEADER_SIZE > |p| then Stop
    else
      var klen := Get16(p[c..c + 2]);
      var vlen := Get16(p[c + 2..c + 4]);
      if klen == 0 && vlen == 0 then
        if c + COMMIT_TAG_SIZE > |p| then Stop else AtTag(c + COMMIT_TAG_SIZE)
      else if c + HEADER_SIZE + klen + vlen > |p| then Stop
      else AtRec(p[c + 4..c + 4 + klen], c + HEADER_SIZE + klen, vlen, c + HEADER_SIZE + klen + vlen)
  }

  /** A complete item is read back whatever bytes surround it. */
  lemma ReadWholeItem(a: seq<byte>, it: Item, b: seq<byte>)
    requires ItemOk(it)
    ensures var p := a + EncodeItem(it) + b;
            var n := |a| + ItemSize(it);
            ReadItem(p, |a|) ==
              match it
              case Rec(kv) => AtRec(kv.key, |a| + HEADER_SIZE + |kv.key|, |kv.val|, n)
              case Tag(_) => AtTag(n)
  {
    hide EncodeItem, Get16;
    var e := EncodeItem(it);
    HeaderOf(it);
    Within(a, e, b, 0, 2);
    Within(a, e, b, 2, 4);
    if it.Rec? {
      KeyOf(it.kv);
      Within(a, e, b, 4, 4 + |it.kv.key|);
    }
  }

  /** A slice of the middle part, seen in the whole. */
  lemma Within(a: seq<byte>, e: seq<byte>, b: seq<byte>, i: nat, j: nat)
    requires i <= j <= |e|
    ensures (a + e + b)[|a| + i..|a| + j] == e[i..j]
  {
  }

  lemma KeyOf(kv: Kv)
    requires Framable(kv)
    ensures EncodeItem(Rec(kv))[4..4 + |kv.key|] == kv.key
  {
    hide Put16;
  }

  /** A pair that is empty on both sides is framed by a zero header, which reads as a tag and takes the
      next eight bytes with it. */
  lemma BlankPairReadsAsTag(a: seq<byte>, b: seq<byte>)
    requires |b| >= 8
    ensures ReadItem(a + (Put16(0) + Put16(0)) + b, |a|) == AtTag(|a| + COMMIT_TAG_SIZE)
  {
    var p, c := a + (Put16(0) + Put16(0)) + b, |a|;
    assert p[c..c + 2] == Put16(0) && p[c + 2..c + 4] == Put16(0);
  }

  /** The header of an item gives the lengths of its key and value, or zeros for a tag. */
  lemma HeaderOf(it: Item)
    requires ItemOk(it)
    ensures var e := EncodeItem(it);
            && |e| >= HEADER_SIZE
            && Get16(e[..2]) == (if it.Rec? then |it.kv.key| else 0)
            && Get16(e[2..4]) == (if it.Rec? then |it.kv.val| else 0)
  {
    hide Get16, Put16;
    var e := EncodeItem(it);
    match it
    case Rec(kv) => assert e[..2] == Put16(|kv.key|) && e[2..4] == Put16(|kv.val|);
    case Tag(id) => assert e[..2] == Put16(0) && e[2..4] == Put16(0);
  }

  /** The header bytes of a prefix of `e`, seen in the whole file. */
  lemma HeaderSlices(a: seq<byte>, torn: seq<byte>, e: seq<byte>)
    requires torn <= e && |torn| >= HEADER_SIZE
    ensures (a + torn)[|a|..|a| + 2] == e[..2] && (a + torn)[|a| + 2..|a| + 4] == e[2..4]
  {
    assert torn[..2] == e[..2] && torn[2..4] == e[2..4];
  }

  /** A torn item is never mistaken for a complete one. */
  lemma ReadTornItem(a: seq<byte>, it: Item, torn: seq<byte>)
    requires ItemOk(it)
    requires torn < EncodeItem(it)
    ensures ReadItem(a + torn, |a|) == Stop
  {
    hide EncodeItem, Get16;
    if |torn| >= HEADER_SIZE {
      HeaderOf(it);
      HeaderSlices(a, torn, EncodeItem(it));
    }
  }

  /** A frame that fits in a prefix reads the same there. */
  lemma ReadItemInPrefix(p: seq<byte>, c: nat, end: nat)
    requires !ReadItem(p, c).Stop? && ReadItem(p, c).next <= end <= |p|
    ensures ReadItem(p[..end], c) == ReadItem(p, c)
  {
    hide Get16;
    var q := p[..end];
    assert q[c..c + 2] == p[c..c + 2] && q[c + 2..c + 4] == p[c + 2..c + 4];
    if ReadItem(p, c).AtRec? {
      var klen := |ReadItem(p, c).key|;
      assert q[c + 4..c + 4 + klen] == p[c + 4..c + 4 + klen];
    }
  }

  // ----- trimming after the last commit tag

  /** The scan of `findLastForwardCommitTagEndFrom` from cursor `c`, `found` being the tag end so far. */
  function LastTagEnd(p: seq<byte>, c: nat, found: Option<nat>): (r: Option<nat>)
    requires c <= |p|
    requires found.Some? ==> found.value <= c
    ensures r.Some? ==> r.value <= |p|
    ensures r == found || (r.Some? && r.value > c)
    decreases |p| - c
  {
    match ReadItem(p, c)
    case Stop => found
    case AtTag(n) => LastTagEnd(p, n, Some(n))
    case AtRec(_, _, _, n) => LastTagEnd(p, n, found)
  }

  /** `findLastForwardCommitTagEndFrom`. */
  method FindLastTagEndFrom(p: seq<byte>, start: nat) returns (end: nat, found: bool)
    requires start <= |p|
    ensures LastTagEnd(p, start, None) == if found then Some(end) else None
  {
    hide Get16;
    var cursor := start;
    end, found := 0, false;
    while cursor < |p|
      invariant start <= cursor <= |p|
      invariant found ==> end <= cursor
      invariant LastTagEnd(p, start, None) == LastTagEnd(p, cursor, if found then Some(end) else None)
    {
      if cursor + HEADER_SIZE > |p| {
        return;
      }
      var klen := Get16(p[cursor..cursor + 2]);
      var vlen := Get16(p[cursor + 2..cursor + 4]);
      if klen == 0 && vlen == 0 {
        if cursor + COMMIT_TAG_SIZE > |p| {
          return;
        }
        cursor := cursor + COMMIT_TAG_SIZE;
        end, found := cursor, true;
      } else {
        if cursor + HEADER_SIZE + klen + vlen > |p| {
          return;
        }
        cursor := cursor + HEADER_SIZE + klen + vlen;
      }
    }
  }

  /** `findLastForwardCommitTagEnd`: a leading zero byte may be padding. */
  function FindLastTagEnd(p: seq<byte>, allowLeadingPadding: bool): (r: Option<nat>)
    ensures r.Some? ==> r.value <= |p|
  {
    if allowLeadingPadding && p != [] && p[0] == 0 && LastTagEnd(p, 1, None).Some? then
      LastTagEnd(p, 1, None)
    else
      LastTagEnd(p, 0, None)
  }

  /** `trimFileAfterLastCommitTag` for forward logs: the file left on disk. */
  function Trim(p: seq<byte>, allowLeadingPadding: bool): (r: seq<byte>)
    ensures r <= p
  {
    match FindLastTagEnd(p, allowLeadingPadding)
    case Some(end) => p[..end]
    case None => p
  }

  /** One commit: records, then the tag of a non-zero block. */
  datatype Batch = Batch(kvs: seq<Kv>, blockId: u64)

  predicate BatchOk(b: Batch) {
    b.blockId != 0 && AllFramable(b.kvs)
  }

  predicate BatchesOk(bs: seq<Batch>) {
    forall i :: 0 <= i < |bs| ==> BatchOk(bs[i])
  }

  function BatchItems(b: Batch): (items: seq<Item>)
    requires BatchOk(b)
    ensures ItemsOk(items) && items != []
  {
    seq(|b.kvs|, i requires 0 <= i < |b.kvs| => Rec(b.kvs[i])) + [Tag(b.blockId)]
  }

  function BatchesBytes(bs: seq<Batch>): seq<byte>
    requires BatchesOk(bs)
  {
    if bs == [] then [] else Encode(BatchItems(bs[0])) + BatchesBytes(bs[1..])
  }

  function TagSeen(items: seq<Item>, c: nat, found: Option<nat>): (r: Option<nat>)
    requires found.Some? ==> found.value <= c
    ensures r.Some? ==> r.value <= c + ItemsSize(items)
    decreases items
  {
    if items == [] then found
    else
      var n := c + ItemSize(items[0]);
      TagSeen(items[1..], n, if items[0].Tag? then Some(n) else found)
  }

  function ItemsSize(items: seq<Item>): nat {
    if items == [] then 0 else ItemSize(items[0]) + ItemsSize(items[1..])
  }

  lemma {:induction false} EncodeSize(items: seq<Item>)
    requires ItemsOk(items)
    ensures |Encode(items)| == ItemsSize(items)
  {
    hide EncodeItem;
    if items != [] {
      EncodeSize(items[1..]);
    }
  }

  lemma Regroup(a: seq<byte>, e: seq<byte>, rest: seq<byte>, b: seq<byte>)
    ensures a + (e + rest) + b == a + e + (rest + b) == (a + e) + rest + b
  {
  }

  /** The scan passes one complete item. */
  lemma ScanOne(a: seq<byte>, it: Item, b: seq<byte>, found: Option<nat>)
    requires ItemOk(it)
    requires found.Some? ==> found.value <= |a|
    ensures var n := |a| + ItemSize(it);
            var p := a + EncodeItem(it) + b;
            LastTagEnd(p, |a|, found) == LastTagEnd(p, n, if it.Tag? then Some(n) else found)
  {
    hide EncodeItem, ReadItem;
    ReadWholeItem(a, it, b);
  }

  /** The scan walks over a run of complete items exactly item by item. */
  lemma {:induction false} ScanItems(a: seq<byte>, items: seq<Item>, b: seq<byte>, found: Option<nat>)
    requires ItemsOk(items)
    requires found.Some? ==> found.value <= |a|
    ensures LastTagEnd(a + Encode(items) + b, |a|, found)
         == (EncodeSize(items); LastTagEnd(a + Encode(items) + b, |a| + ItemsSize(items), TagSeen(items, |a|, found)))
    decreases items
  {
    hide EncodeItem, LastTagEnd, ItemSize;
    EncodeSize(items);
    if items != [] {
      var it := items[0];
      var rest := Encode(items[1..]);
      assert Encode(items) == EncodeItem(it) + rest;
      hide Encode;
      Regroup(a, EncodeItem(it), rest, b);
      ScanOne(a, it, rest + b, found);
      var a' := a + EncodeItem(it);
      ScanItems(a', items[1..], b, if it.Tag? then Some(|a'|) else found);
    }
  }

  /** Scanning a proper prefix of an encoding meets complete items, then stops; no tag completes
      if the only tag is the last item. */
  lemma {:induction false} ScanTorn(a: seq<byte>, kvs: seq<Kv>, blockId: u64, torn: seq<byte>, found: Option<nat>)
    requires BatchOk(Batch(kvs, blockId))
    requires torn < Encode(BatchItems(Batch(kvs, blockId)))
    requires found.Some? ==> found.value <= |a|
    ensures LastTagEnd(a + torn, |a|, found) == found
    decreases kvs
  {
    hide EncodeItem, ReadItem;
    var items := BatchItems(Batch(kvs, blockId));
    var it := items[0];
    var e := EncodeItem(it);
    if |torn| < |e| {
      assert torn == torn[..|torn|] && forall i :: 0 <= i < |torn| ==> torn[i] == Encode(items)[i] == e[i];
      ReadTornItem(a, it, torn);
    } else {
      EncodeOne(it);
      assert kvs == [] ==> items == [it];
      var torn' := torn[|e|..];
      assert torn[..|e|] == e by { assert Encode(items)[..|e|] == e; assert torn == Encode(items)[..|torn|]; }
      assert torn == e + torn';
      var rest := BatchItems(Batch(kvs[1..], blockId));
      assert items[1..] == rest;
      assert torn' < Encode(rest) by {
        assert torn == Encode(items)[..|torn|];
        assert torn' == Encode(items)[|e|..|torn|];
        assert Encode(rest) == Encode(items)[|e|..];
      }
      ReadWholeItem(a, it, torn');
      assert a + torn == a + e + torn' == (a + e) + torn';
      ScanTorn(a + e, kvs[1..], blockId, torn', found);
    }
  }

  lemma {:induction false} TagSeenAppendTag(items: seq<Item>, blockId: u64, c: nat, found: Option<nat>)
    requires found.Some? ==> found.value <= c
    ensures TagSeen(items + [Tag(blockId)], c, found) == Some(c + ItemsSize(items + [Tag(blockId)]))
    decreases items
  {
    var all := items + [Tag(blockId)];
    if items != [] {
      assert all[1..] == items[1..] + [Tag(blockId)];
      var n := c + ItemSize(items[0]);
      TagSeenAppendTag(items[1..], blockId, n, if items[0].Tag? then Some(n) else found);
    } else {
      assert all[1..] == [];
    }
  }

  lemma {:induction false} ScanBatches(a: seq<byte>, bs: seq<Batch>, b: seq<byte>, found: Option<nat>)
    requires BatchesOk(bs)
    requires found.Some? ==> found.value <= |a|
    ensures var p := a + BatchesBytes(bs) + b;
            var n := |a| + |BatchesBytes(bs)|;
            LastTagEnd(p, |a|, found) == LastTagEnd(p, n, if bs == [] then found else Some(n))
    decreases bs
  {
    hide EncodeItem, ReadItem, Encode, LastTagEnd, ItemsSize;
    if bs != [] {
      var items := BatchItems(bs[0]);
      var rest := BatchesBytes(bs[1..]);
      var p := a + BatchesBytes(bs) + b;
      assert p == a + Encode(items) + (rest + b);
      ScanItems(a, items, rest + b, found);
      EncodeSize(items);
      TagSeenAppendTag(items[..|items| - 1], bs[0].blockId, |a|, found);
      assert items == items[..|items| - 1] + [Tag(bs[0].blockId)];
      var a' := a + Encode(items);
      assert p == a' + rest + b;
      ScanBatches(a', bs[1..], b, Some(|a'|));
    }
  }

  /** A log of tagged batches plus any torn prefix of one more batch, possibly behind a
      padding byte: the last tag found is the end of the committed part, or there is none. */
  lemma LastTagOfTornLog(pad: seq<byte>, bs: seq<Batch>, next: Batch, torn: seq<byte>)
    requires BatchesOk(bs) && BatchOk(next)
    requires torn < Encode(BatchItems(next))
    ensures LastTagEnd(pad + BatchesBytes(bs) + torn, |pad|, None)
         == if bs == [] then None else Some(|pad| + |BatchesBytes(bs)|)
  {
    hide EncodeItem, ReadItem, LastTagEnd;
    var c := BatchesBytes(bs);
    ScanBatches(pad, bs, torn, None);
    var found := if bs == [] then None else Some(|pad| + |c|);
    assert pad + c + torn == (pad + c) + torn;
    ScanTorn(pad + c, next.kvs, next.blockId, torn, found);
  }

  /** Recovery keeps exactly the committed bytes; it fails to only when nothing was ever
      committed, because then no tag is found and the torn bytes are left in place. */
  lemma TrimIsExactIff(bs: seq<Batch>, next: Batch, torn: seq<byte>)
    requires BatchesOk(bs) && BatchOk(next)
    requires torn < Encode(BatchItems(next))
    ensures Trim(BatchesBytes(bs) + torn, false) == BatchesBytes(bs) <==> (bs != [] || torn == [])
  {
    hide EncodeItem, ReadItem, LastTagEnd, Encode, BatchItems;
    assert BatchesBytes([]) == [];
    hide BatchesBytes;
    var c := BatchesBytes(bs);
    LastTagOfTornLog([], bs, next, torn);
    assert [] + c + torn == c + torn;
    assert (c + torn)[..|c|] == c;
    assert bs == [] ==> c + torn == torn;
  }

  /** The same for the account log, which starts with one zero padding byte. When nothing was ever
      committed, the scan behind the padding finds no tag and the scan from offset 0 is out of step:
      it keeps all the torn bytes or cuts inside them. */
  lemma TrimPaddedIff(bs: seq<Batch>, next: Batch, torn: seq<byte>)
    requires BatchesOk(bs) && BatchOk(next)
    requires torn < Encode(BatchItems(next))
    ensures Trim([0] + BatchesBytes(bs) + torn, true) == [0] + BatchesBytes(bs) <==> (bs != [] || torn == [])
  {
    hide EncodeItem, ReadItem, LastTagEnd, Encode, BatchItems;
    assert BatchesBytes([]) == [];
    hide BatchesBytes;
    var c := BatchesBytes(bs);
    var p := [0] + c + torn;
    LastTagOfTornLog([0], bs, next, torn);
    if bs == [] {
      NoTagEndsEarly(p, 0);
      assert |p| == 1 + |torn|;
      assert torn == [] ==> p[..1] == p == [0];
    } else {
      assert p[..1 + |c|] == [0] + c;
    }
  }

  /** A tag found from `c` ends a whole tag after it. */
  lemma NoTagEndsEarly(p: seq<byte>, c: nat)
    requires c <= |p|
    ensures var r := LastTagEnd(p, c, None); r.Some? ==> r.value > c + 1
    decreases |p| - c
  {
    hide ReadItem;
    match ReadItem(p, c)
    case Stop =>
    case AtTag(n) =>
    case AtRec(_, _, _, n) => NoTagEndsEarly(p, n);
  }

  /** A first batch torn one byte before the end of a value of 300 zero bytes: read from the padding
      byte on, the zeros look like tags, and recovery cuts the file in the middle of the value. */
  lemma TornFirstBatchIsCutInside()
    ensures var next := Batch([Kv([7], Zeros(300))], 1);
            var torn := Put16(1) + Put16(300) + [7] + Zeros(299);
            && BatchOk(next) && torn < Encode(BatchItems(next))
            && Trim([0] + torn, true) == ([0] + torn)[..297]
  {
    hide EncodeItem, LastTagEnd, ReadItem, Put16, Put64, Zeros;
    var kv := Kv([7], Zeros(300));
    var items := BatchItems(Batch([kv], 1));
    var torn := Put16(1) + Put16(300) + [7] + Zeros(299);
    assert items[0] == Rec(kv);
    TornOfZeros(kv, torn);
    assert torn < Encode(items);
    TornFirstBatchScans([0] + torn);
  }

  lemma TornOfZeros(kv: Kv, torn: seq<byte>)
    requires kv == Kv([7], Zeros(300)) && torn == Put16(1) + Put16(300) + [7] + Zeros(299)
    ensures torn < EncodeItem(Rec(kv))
    ensures torn == [0, 1, 1, 44, 7] + Zeros(299)
  {
    hide Zeros;
    assert Put16(1) == [0, 1] && Put16(300) == [1, 44];
    assert Zeros(300) == Zeros(299) + [0];
    assert EncodeItem(Rec(kv)) == torn + [0];
  }

  /** A zero header reads as a tag if there is room for one. */
  lemma ZerosReadAsTag(p: seq<byte>, c: nat)
    requires c + HEADER_SIZE <= |p| && forall i :: c <= i < c + HEADER_SIZE ==> p[i] == 0
    ensures ReadItem(p, c) == if c + COMMIT_TAG_SIZE <= |p| then AtTag(c + COMMIT_TAG_SIZE) else Stop
  {
    assert p[c..c + 2] == [0, 0] && p[c + 2..c + 4] == [0, 0];
  }

  lemma TornFirstBatchScans(p: seq<byte>)
    requires |p| == 305 && p[..6] == [0, 0, 1, 1, 44, 7] && forall i :: 6 <= i < |p| ==> p[i] == 0
    ensures LastTagEnd(p, 1, None) == None && LastTagEnd(p, 0, None) == Some(297)
  {
    assert ReadItem(p, 1) == Stop && ReadItem(p, 0).AtRec? && ReadItem(p, 0).next == 261 by {
      assert p[1..3] == p[..6][1..3] && p[3..5] == p[..6][3..5] && p[0..2] == p[..6][0..2] && p[2..4] == p[..6][2..4];
    }
    hide ReadItem;
    ZerosReadAsTag(p, 261);
    ZerosReadAsTag(p, 273);
    ZerosReadAsTag(p, 285);
    ZerosReadAsTag(p, 297);
    assert LastTagEnd(p, 297, Some(297)) == Some(297);
    assert LastTagEnd(p, 285, Some(285)) == Some(297);
    assert LastTagEnd(p, 273, Some(273)) == Some(297);
    assert LastTagEnd(p, 261, None) == Some(297);
  }

  /** Cutting the file at the tag just found leaves the scan's verdict unchanged, for any bytes. */
  lemma {:induction false} CutKeepsLastTag(p: seq<byte>, c: nat, found: Option<nat>, end: nat)
    requires c <= end <= |p|
    requires found.Some? ==> found.value <= c
    requires LastTagEnd(p, c, found) == Some(end)
    ensures LastTagEnd(p[..end], c, found) == Some(end)
    decreases |p| - c
  {
    hide ReadItem;
    match ReadItem(p, c)
    case Stop =>
    case AtTag(n) =>
      ReadItemInPrefix(p, c, end);
      CutKeepsLastTag(p, n, Some(n), end);
    case AtRec(_, _, _, n) =>
      if c < end {
        ReadItemInPrefix(p, c, end);
        CutKeepsLastTag(p, n, found, end);
      }
  }

  /** A scan that finds no tag finds none in a prefix. */
  lemma {:induction false} NoTagInPrefix(p: seq<byte>, c: nat, end: nat)
    requires c <= end <= |p| && LastTagEnd(p, c, None) == None
    ensures LastTagEnd(p[..end], c, None) == None
    decreases |p| - c
  {
    hide ReadItem;
    PrefixReads(p, c, end);
    match ReadItem(p[..end], c)
    case Stop =>
    case AtTag(n) => SomeStays(p, n, n);
    case AtRec(_, _, _, n) => NoTagInPrefix(p, n, end);
  }

  lemma {:induction false} SomeStays(p: seq<byte>, c: nat, end: nat)
    requires end <= c <= |p|
    ensures LastTagEnd(p, c, Some(end)).Some?
    decreases |p| - c
  {
    hide ReadItem;
    match ReadItem(p, c)
    case Stop =>
    case AtTag(n) => SomeStays(p, n, n);
    case AtRec(_, _, _, n) => SomeStays(p, n, end);
  }

  /** What is read whole in a prefix is read whole in the file. */
  lemma PrefixReads(p: seq<byte>, c: nat, end: nat)
    requires end <= |p|
    ensures !ReadItem(p[..end], c).Stop? ==> ReadItem(p, c) == ReadItem(p[..end], c)
  {
    hide Get16;
    var q := p[..end];
    if !ReadItem(q, c).Stop? {
      assert q[c..c + 2] == p[c..c + 2] && q[c + 2..c + 4] == p[c + 2..c + 4];
      if ReadItem(q, c).AtRec? {
        var klen := |ReadItem(q, c).key|;
        assert q[c + 4..c + 4 + klen] == p[c + 4..c + 4 + klen];
      }
    }
  }

  /** Trimming twice is trimming once, for arbitrary file contents. */
  lemma TrimIdempotent(p: seq<byte>, allowLeadingPadding: bool)
    ensures Trim(Trim(p, allowLeadingPadding), allowLeadingPadding) == Trim(p, allowLeadingPadding)
  {
    hide ReadItem, LastTagEnd;
    if allowLeadingPadding && p != [] && p[0] == 0 {
      var r := LastTagEnd(p, 1, None);
      if r.Some? {
        CutKeepsLastTag(p, 1, None, r.value);
        return;
      }
      var s := LastTagEnd(p, 0, None);
      if s.Some? {
        NoTagInPrefix(p, 1, s.value);
      }
    }
    var s := LastTagEnd(p, 0, None);
    if s.Some? {
      CutKeepsLastTag(p, 0, None, s.value);
    }
  }
}
