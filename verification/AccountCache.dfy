/** The account hash to key cache: a fixed array of entries threaded into a doubly linked list by
    index fields, which behaves as a least-recently-used list. */
module AccountCache {
  import opened Bytes

  type Hash = seq<byte>
  type AccountKey = seq<byte>

  // ----- the abstract cache: entries, most recently used first

  datatype Item = Item(hash: Hash, key: AccountKey)

  function Find(c: seq<Item>, h: Hash): Option<AccountKey> {
    if c == [] then None else if c[0].hash == h then Some(c[0].key) else Find(c[1..], h)
  }

  function Without(c: seq<Item>, h: Hash): seq<Item> {
    if c == [] then []
    else if c[0].hash == h then c[1..]
    else [c[0]] + Without(c[1..], h)
  }

  function Take(c: seq<Item>, n: nat): seq<Item> {
    if |c| <= n then c else c[..n]
  }

  /** Using an entry moves it to the front. */
  function Touched(c: seq<Item>, h: Hash): seq<Item> {
    match Find(c, h) case None => c case Some(k) => [Item(h, k)] + Without(c, h)
  }

  /** Storing an entry puts it at the front and keeps at most `cap` entries. */
  function Stored(c: seq<Item>, h: Hash, k: AccountKey, cap: nat): seq<Item>
    requires cap >= 1
  {
    [Item(h, k)] + Take(Without(c, h), cap - 1)
  }

  ghost predicate DistinctHashes(c: seq<Item>) {
    forall i, j :: 0 <= i < j < |c| ==> c[i].hash != c[j].hash
  }

  lemma {:induction false} FindAt(c: seq<Item>, i: nat)
    requires DistinctHashes(c) && i < |c|
    ensures Find(c, c[i].hash) == Some(c[i].key) && Without(c, c[i].hash) == c[..i] + c[i + 1..]
  {
    if i > 0 {
      FindAt(c[1..], i - 1);
      assert c[1..][..i - 1] == c[1..i] && c[1..][i..] == c[i + 1..];
      assert [c[0]] + c[1..i] == c[..i];
    }
  }

  lemma {:induction false} FindNone(c: seq<Item>, h: Hash)
    requires forall i :: 0 <= i < |c| ==> c[i].hash != h
    ensures Find(c, h) == None && Without(c, h) == c
  {
    if c != [] {
      FindNone(c[1..], h);
    }
  }

  ghost predicate Caches(c: seq<Item>, h: Hash) {
    exists i :: 0 <= i < |c| && c[i].hash == h
  }

  /** Using an entry puts it first and leaves the others in order. */
  lemma TouchedIs(c: seq<Item>, h: Hash)
    requires DistinctHashes(c)
    ensures !Caches(c, h) ==> Find(c, h) == None && Touched(c, h) == c
    ensures forall p :: 0 <= p < |c| && c[p].hash == h ==> Find(c, h) == Some(c[p].key) && Touched(c, h) == [c[p]] + (c[..p] + c[p + 1..])
  {
    hide Find, Without, DistinctHashes;
    if !Caches(c, h) {
      FindNone(c, h);
    }
    forall p | 0 <= p < |c| && c[p].hash == h ensures Find(c, h) == Some(c[p].key) && Touched(c, h) == [c[p]] + (c[..p] + c[p + 1..]) {
      FindAt(c, p);
    }
  }

  /** Storing puts the entry first; a cached one moves, a new one pushes the last out of a full cache. */
  lemma StoredIs(c: seq<Item>, h: Hash, k: AccountKey, cap: nat)
    requires DistinctHashes(c) && cap >= 1 && |c| <= cap
    ensures !Caches(c, h) ==> Stored(c, h, k, cap) == [Item(h, k)] + (if |c| < cap then c else c[..cap - 1])
    ensures forall p :: 0 <= p < |c| && c[p].hash == h ==> Stored(c, h, k, cap) == [Item(h, k)] + (c[..p] + c[p + 1..])
  {
    hide Find, Without, DistinctHashes;
    if !Caches(c, h) {
      FindNone(c, h);
    }
    forall p | 0 <= p < |c| && c[p].hash == h ensures Stored(c, h, k, cap) == [Item(h, k)] + (c[..p] + c[p + 1..]) {
      FindAt(c, p);
    }
  }

  /** A stored entry is found; an entry that stays keeps its value. */
  lemma StoredFinds(c: seq<Item>, h: Hash, k: AccountKey, cap: nat, i: nat)
    requires cap >= 1 && DistinctHashes(c) && |c| <= cap && i < |c| && c[i].hash != h
    requires |c| < cap || i < cap - 1 || Find(c, h).Some?
    ensures Find(Stored(c, h, k, cap), h) == Some(k)
    ensures Find(Stored(c, h, k, cap), c[i].hash) == Some(c[i].key)
  {
    hide Find, Without, DistinctHashes, Stored;
    if exists p :: 0 <= p < |c| && c[p].hash == h {
      var p :| 0 <= p < |c| && c[p].hash == h;
      RestoredFinds(c, h, k, cap, p, i);
    } else {
      AddedFinds(c, h, k, cap, i);
    }
  }

  lemma RestoredFinds(c: seq<Item>, h: Hash, k: AccountKey, cap: nat, p: nat, i: nat)
    requires cap >= 1 && DistinctHashes(c) && |c| <= cap && p < |c| && c[p].hash == h && i < |c| && i != p
    ensures Find(Stored(c, h, k, cap), h) == Some(k) && Find(Stored(c, h, k, cap), c[i].hash) == Some(c[i].key)
  {
    hide Find, Without, DistinctHashes;
    var r := Stored(c, h, k, cap);
    FindAt(c, p);
    RemovedDistinct(c, p, h, k);
    FindAt(r, if i < p then i + 1 else i);
    FindAt(r, 0);
  }

  lemma AddedFinds(c: seq<Item>, h: Hash, k: AccountKey, cap: nat, i: nat)
    requires cap >= 1 && DistinctHashes(c) && |c| <= cap && i < |c| && (forall j :: 0 <= j < |c| ==> c[j].hash != h)
    requires |c| < cap || i < cap - 1 || Find(c, h).Some?
    ensures Find(Stored(c, h, k, cap), h) == Some(k) && Find(Stored(c, h, k, cap), c[i].hash) == Some(c[i].key)
  {
    hide Find, Without, DistinctHashes;
    var r := Stored(c, h, k, cap);
    FindNone(c, h);
    AddedDistinct(c, h, k, cap);
    FindAt(r, i + 1);
    FindAt(r, 0);
  }

  /** A full cache that takes a new entry loses exactly its least recently used one. */
  lemma StoredEvicts(c: seq<Item>, h: Hash, k: AccountKey)
    requires DistinctHashes(c) && c != [] && forall i :: 0 <= i < |c| ==> c[i].hash != h
    ensures Stored(c, h, k, |c|) == [Item(h, k)] + c[..|c| - 1]
    ensures Find(Stored(c, h, k, |c|), c[|c| - 1].hash) == None
  {
    FindNone(c, h);
    FindNone([Item(h, k)] + c[..|c| - 1], c[|c| - 1].hash);
  }

  lemma AddedDistinct(c: seq<Item>, h: Hash, k: AccountKey, cap: nat)
    requires DistinctHashes(c) && cap >= 1 && forall i :: 0 <= i < |c| ==> c[i].hash != h
    ensures DistinctHashes([Item(h, k)] + Take(c, cap - 1))
  {
  }

  lemma RemovedDistinct(c: seq<Item>, p: nat, h: Hash, k: AccountKey)
    requires DistinctHashes(c) && p < |c| && c[p].hash == h
    ensures DistinctHashes([Item(h, k)] + (c[..p] + c[p + 1..]))
  {
  }

  // ----- the threaded array

  datatype Slot = Slot(hash: Hash, key: AccountKey, prev: int, next: int, inUse: bool)

  datatype Links = Links(es: seq<Slot>, head: int, tail: int)

  /** The list from head to tail visits exactly the slots of `lru`, in order. */
  ghost predicate Linked(s: Links, lru: seq<int>) {
    && (forall p :: 0 <= p < |lru| ==> 0 <= lru[p] < |s.es|)
    && (forall p, q :: 0 <= p < q < |lru| ==> lru[p] != lru[q])
    && s.head == (if lru == [] then -1 else lru[0])
    && s.tail == (if lru == [] then -1 else lru[|lru| - 1])
    && (forall p :: 0 <= p < |lru| ==> s.es[lru[p]].prev == if p == 0 then -1 else lru[p - 1])
    && (forall p :: 0 <= p < |lru| ==> s.es[lru[p]].next == if p == |lru| - 1 then -1 else lru[p + 1])
  }

  function SetNext(es: seq<Slot>, i: int, n: int): seq<Slot>
    requires 0 <= i < |es|
  {
    es[i := es[i].(next := n)]
  }

  function SetPrev(es: seq<Slot>, i: int, p: int): seq<Slot>
    requires 0 <= i < |es|
  {
    es[i := es[i].(prev := p)]
  }

  /** `detach`. */
  function Detached(s: Links, i: int): Links
    requires 0 <= i < |s.es| && s.es[i].prev < |s.es| && s.es[i].next < |s.es|
  {
    var p, n := s.es[i].prev, s.es[i].next;
    var es1 := if p >= 0 then SetNext(s.es, p, n) else s.es;
    var es2 := if n >= 0 then SetPrev(es1, n, p) else es1;
    Links(es2[i := es2[i].(prev := -1, next := -1)], if p >= 0 then s.head else n, if n >= 0 then s.tail else p)
  }

  /** `attachFront`. */
  function Attached(s: Links, i: int): Links
    requires 0 <= i < |s.es| && s.head < |s.es|
  {
    var es1 := s.es[i := s.es[i].(prev := -1, next := s.head)];
    var es2 := if s.head >= 0 then SetPrev(es1, s.head, i) else es1;
    Links(es2, i, if s.head >= 0 then s.tail else i)
  }

  /** Only the links differ. */
  ghost predicate SamePayload(a: seq<Slot>, b: seq<Slot>) {
    |a| == |b| && forall i :: 0 <= i < |a| ==> a[i].hash == b[i].hash && a[i].key == b[i].key && a[i].inUse == b[i].inUse
  }

  /** What the links say at one position. */
  lemma LinkAt(s: Links, lru: seq<int>, p: nat)
    requires Linked(s, lru) && p < |lru|
    ensures 0 <= lru[p] < |s.es|
    ensures s.es[lru[p]].prev == if p == 0 then -1 else lru[p - 1]
    ensures s.es[lru[p]].next == if p == |lru| - 1 then -1 else lru[p + 1]
    ensures p > 0 ==> 0 <= lru[p - 1] < |s.es| && lru[p - 1] != lru[p]
    ensures p < |lru| - 1 ==> 0 <= lru[p + 1] < |s.es| && lru[p + 1] != lru[p]
    ensures 0 < p < |lru| - 1 ==> lru[p - 1] != lru[p + 1]
    ensures s.head == lru[0] && 0 <= lru[0] < |s.es| && s.tail == lru[|lru| - 1]
  {
  }

  function Drop(lru: seq<int>, p: nat): (r: seq<int>)
    requires p < |lru|
    ensures |r| == |lru| - 1 && forall q :: 0 <= q < |r| ==> r[q] == lru[if q < p then q else q + 1]
  {
    lru[..p] + lru[p + 1..]
  }

  lemma DetachLinked(s: Links, lru: seq<int>, p: nat)
    requires Linked(s, lru) && p < |lru|
    ensures 0 <= lru[p] < |s.es| && s.es[lru[p]].prev < |s.es| && s.es[lru[p]].next < |s.es|
    ensures var d := Detached(s, lru[p]);
            Linked(d, Drop(lru, p)) && SamePayload(d.es, s.es)
  {
    hide Drop, Linked;
    LinkAt(s, lru, p);
    assert SamePayload(Detached(s, lru[p]).es, s.es);
    DetachedEnds(s, lru, p);
    hide Detached, SamePayload;
    var d, rest := Detached(s, lru[p]), Drop(lru, p);
    forall q | 0 <= q < |rest|
      ensures 0 <= rest[q] < |d.es| && d.es[rest[q]].prev == (if q == 0 then -1 else rest[q - 1])
      ensures d.es[rest[q]].next == if q == |rest| - 1 then -1 else rest[q + 1]
    {
      DetachedAt(s, lru, p, q);
    }
    DropDistinct(s, lru, p);
    LinkedIf(d, rest);
  }

  lemma LinkedIf(d: Links, rest: seq<int>)
    requires forall q :: 0 <= q < |rest| ==> 0 <= rest[q] < |d.es| && d.es[rest[q]].prev == if q == 0 then -1 else rest[q - 1]
    requires forall q :: 0 <= q < |rest| ==> 0 <= rest[q] < |d.es| && d.es[rest[q]].next == if q == |rest| - 1 then -1 else rest[q + 1]
    requires forall a, b :: 0 <= a < b < |rest| ==> rest[a] != rest[b]
    requires d.head == (if rest == [] then -1 else rest[0]) && d.tail == if rest == [] then -1 else rest[|rest| - 1]
    ensures Linked(d, rest)
  {
  }

  lemma DropDistinct(s: Links, lru: seq<int>, p: nat)
    requires Linked(s, lru) && p < |lru|
    ensures forall a, b :: 0 <= a < b < |lru| - 1 ==> Drop(lru, p)[a] != Drop(lru, p)[b]
  {
    hide Drop;
  }

  lemma DetachedEnds(s: Links, lru: seq<int>, p: nat)
    requires Linked(s, lru) && p < |lru|
    requires 0 <= lru[p] < |s.es| && s.es[lru[p]].prev < |s.es| && s.es[lru[p]].next < |s.es|
    ensures var d, rest := Detached(s, lru[p]), Drop(lru, p);
            d.head == (if rest == [] then -1 else rest[0]) && d.tail == if rest == [] then -1 else rest[|rest| - 1]
  {
    hide Drop, Linked;
    LinkAt(s, lru, p);
  }

  lemma DetachedAt(s: Links, lru: seq<int>, p: nat, q: nat)
    requires Linked(s, lru) && p < |lru| && q < |lru| - 1
    requires 0 <= lru[p] < |s.es| && s.es[lru[p]].prev < |s.es| && s.es[lru[p]].next < |s.es|
    ensures var d, rest := Detached(s, lru[p]), Drop(lru, p);
            && 0 <= rest[q] < |d.es|
            && d.es[rest[q]].prev == (if q == 0 then -1 else rest[q - 1])
            && d.es[rest[q]].next == if q == |rest| - 1 then -1 else rest[q + 1]
  {
    hide Drop, Linked;
    var o := if q < p then q else q + 1;
    LinkAt(s, lru, p);
    LinkAt(s, lru, o);
    Apart(s, lru, o, p);
    if p > 0 && o != p - 1 {
      Apart(s, lru, o, p - 1);
    }
    if p + 1 < |lru| && o != p + 1 {
      Apart(s, lru, o, p + 1);
    }
  }

  lemma Apart(s: Links, lru: seq<int>, a: nat, b: nat)
    requires Linked(s, lru) && a < |lru| && b < |lru| && a != b
    ensures lru[a] != lru[b]
  {
  }

  lemma AttachLinked(s: Links, lru: seq<int>, i: int)
    requires Linked(s, lru) && 0 <= i < |s.es| && i !in lru
    ensures s.head < |s.es|
    ensures Linked(Attached(s, i), [i] + lru) && SamePayload(Attached(s, i).es, s.es)
  {
    assert lru != [] ==> lru[0] in lru;
    assert SamePayload(Attached(s, i).es, s.es);
    hide Linked, SamePayload, Attached;
    var a, all := Attached(s, i), [i] + lru;
    forall q | 0 <= q < |all|
      ensures 0 <= all[q] < |a.es| && a.es[all[q]].prev == (if q == 0 then -1 else all[q - 1])
      ensures a.es[all[q]].next == if q == |all| - 1 then -1 else all[q + 1]
    {
      AttachedAt(s, lru, i, q);
    }
    AddDistinct(s, lru, i);
    AttachedAt(s, lru, i, 0);
    LinkedIf(a, all);
  }

  lemma AddDistinct(s: Links, lru: seq<int>, i: int)
    requires Linked(s, lru) && i !in lru
    ensures forall x, y :: 0 <= x < y <= |lru| ==> ([i] + lru)[x] != ([i] + lru)[y]
  {
  }

  lemma AttachedAt(s: Links, lru: seq<int>, i: int, q: nat)
    requires Linked(s, lru) && 0 <= i < |s.es| && i !in lru && s.head < |s.es| && q <= |lru|
    ensures var a, all := Attached(s, i), [i] + lru;
            && 0 <= all[q] < |a.es| && a.es[all[q]].prev == (if q == 0 then -1 else all[q - 1])
            && a.es[all[q]].next == (if q == |all| - 1 then -1 else all[q + 1])
            && a.head == all[0] && a.tail == all[|all| - 1]
  {
    hide Linked;
    var all := [i] + lru;
    if q > 0 {
      assert all[q] == lru[q - 1] && lru[q - 1] in lru;
      LinkAt(s, lru, q - 1);
      if q > 1 {
        Apart(s, lru, q - 1, 0);
      }
    }
    if lru != [] {
      LinkAt(s, lru, 0);
      assert lru[0] in lru;
    } else {
      EmptyLinks(s, lru);
    }
  }

  lemma EmptyLinks(s: Links, lru: seq<int>)
    requires Linked(s, lru) && lru == []
    ensures s.head == -1 && s.tail == -1
  {
  }

  // ----- the cache

  ghost function Contents(es: seq<Slot>, lru: seq<int>): (c: seq<Item>)
    requires forall p :: 0 <= p < |lru| ==> 0 <= lru[p] < |es|
    ensures |c| == |lru|
  {
    seq(|lru|, p requires 0 <= p < |lru| => Item(es[lru[p]].hash, es[lru[p]].key))
  }

  /** The index maps each cached hash to its slot, and each used slot is indexed. */
  ghost predicate Indexed(es: seq<Slot>, lru: seq<int>, index: map<Hash, int>) {
    && (forall p :: 0 <= p < |lru| ==> 0 <= lru[p] < |es| && es[lru[p]].inUse)
    && (forall p :: 0 <= p < |lru| ==> 0 <= lru[p] < |es| && es[lru[p]].hash in index && index[es[lru[p]].hash] == lru[p])
    && (forall h :: h in index ==> index[h] in lru && 0 <= index[h] < |es| && es[index[h]].hash == h)
  }

  ghost predicate CacheOk(s: Links, lru: seq<int>, index: map<Hash, int>, size: int, cap: int) {
    && Linked(s, lru) && Indexed(s.es, lru, index)
    && |s.es| == cap >= 1 && 0 <= size <= cap && |lru| == size
    && (forall p :: 0 <= p < |lru| ==> lru[p] < size)
    && (forall i :: size <= i < cap ==> !s.es[i].inUse)
  }

  lemma ContentsDistinct(s: Links, lru: seq<int>, index: map<Hash, int>)
    requires Linked(s, lru) && Indexed(s.es, lru, index)
    ensures DistinctHashes(Contents(s.es, lru))
  {
  }

  lemma SameContents(a: seq<Slot>, b: seq<Slot>, lru: seq<int>)
    requires SamePayload(a, b) && forall p :: 0 <= p < |lru| ==> 0 <= lru[p] < |a|
    ensures Contents(a, lru) == Contents(b, lru)
  {
  }

  lemma SameIndexed(a: seq<Slot>, b: seq<Slot>, lru: seq<int>, index: map<Hash, int>)
    requires SamePayload(a, b) && Indexed(a, lru, index)
    ensures Indexed(b, lru, index)
  {
  }

  /** An indexed hash sits at some position of the list; one that is not indexed at none. */
  lemma Position(s: Links, lru: seq<int>, index: map<Hash, int>, h: Hash) returns (p: nat)
    requires Linked(s, lru) && Indexed(s.es, lru, index) && h in index
    ensures p < |lru| && lru[p] == index[h]
    ensures var c := Contents(s.es, lru);
            c[p].hash == h && Find(c, h) == Some(c[p].key) && Without(c, h) == c[..p] + c[p + 1..]
  {
    p :| 0 <= p < |lru| && lru[p] == index[h];
    ContentsDistinct(s, lru, index);
    FindAt(Contents(s.es, lru), p);
  }

  lemma NotCached(s: Links, lru: seq<int>, index: map<Hash, int>, h: Hash)
    requires Linked(s, lru) && Indexed(s.es, lru, index) && h !in index
    ensures var c := Contents(s.es, lru);
            Find(c, h) == None && Without(c, h) == c
  {
    FindNone(Contents(s.es, lru), h);
  }

  /** A slot moved to the front of the list. */
  ghost function Moved(lru: seq<int>, p: nat): seq<int>
    requires p < |lru|
  {
    [lru[p]] + Drop(lru, p)
  }

  lemma MovedIndexed(es: seq<Slot>, lru: seq<int>, index: map<Hash, int>, p: nat)
    requires Indexed(es, lru, index) && p < |lru|
    ensures Indexed(es, Moved(lru, p), index)
    ensures forall q :: 0 <= q < |lru| ==> Moved(lru, p)[q] in lru
  {
    var m := Moved(lru, p);
    forall x | x in lru ensures x in m {
      var q :| 0 <= q < |lru| && lru[q] == x;
      assert q == p || m[if q < p then q + 1 else q] == x;
      assert m[0] == lru[p];
    }
  }

  lemma MovedContents(es: seq<Slot>, lru: seq<int>, p: nat)
    requires (forall q :: 0 <= q < |lru| ==> 0 <= lru[q] < |es|) && p < |lru|
    ensures forall q :: 0 <= q < |lru| ==> 0 <= Moved(lru, p)[q] < |es|
    ensures var c := Contents(es, lru);
            Contents(es, Moved(lru, p)) == [c[p]] + (c[..p] + c[p + 1..])
  {
  }

  class Cache {
    const cap: int
    var size: int
    var head: int
    var tail: int
    var index: map<Hash, int>
    const entries: array<Slot>

    ghost var lru: seq<int>

    ghost function State(): Links
      reads this, entries
    {
      Links(entries[..], head, tail)
    }

    ghost predicate Valid()
      reads this, entries
    {
      CacheOk(State(), lru, index, size, cap)
    }

    /** The cached entries, most recently used first. */
    ghost function Items(): seq<Item>
      requires Valid()
      reads this, entries
    {
      Contents(entries[..], lru)
    }

    constructor (capacity: int)
      ensures Valid() && Items() == [] && fresh(entries)
      ensures cap == if capacity <= 0 then 10000 else capacity
    {
      var n := if capacity <= 0 then 10000 else capacity;
      cap, size, head, tail, index := n, 0, -1, -1, map[];
      entries := new Slot[n](_ => Slot([], [], -1, -1, false));
      lru := [];
    }

    method Detach(i: int)
      requires 0 <= i < entries.Length && entries[i].prev < entries.Length && entries[i].next < entries.Length
      requires entries[i].prev != i && entries[i].next != i
      modifies this`head, this`tail, entries
      ensures State() == Detached(old(State()), i)
    {
      var p, n := entries[i].prev, entries[i].next;
      if p >= 0 {
        entries[p] := entries[p].(next := n);
      } else {
        head := n;
      }
      if n >= 0 {
        entries[n] := entries[n].(prev := p);
      } else {
        tail := p;
      }
      entries[i] := entries[i].(prev := -1, next := -1);
    }

    method AttachFront(i: int)
      requires 0 <= i < entries.Length && head < entries.Length && head != i
      modifies this`head, this`tail, entries
      ensures State() == Attached(old(State()), i)
    {
      entries[i] := entries[i].(prev := -1, next := head);
      if head >= 0 {
        entries[head] := entries[head].(prev := i);
      } else {
        tail := i;
      }
      head := i;
    }

    method MoveToFront(i: int, ghost p: nat)
      requires Valid() && p < |lru| && i == lru[p]
      modifies this`head, this`tail, this`lru, entries
      ensures Valid() && SamePayload(entries[..], old(entries[..])) && lru == Moved(old(lru), p)
    {
      hide Linked, Indexed, Detached, Attached, SamePayload, Drop, Moved;
      LinkAt(State(), lru, p);
      MovedSlots(lru, p);
      MovedIndexed(entries[..], lru, index, p);
      if i == head {
        assert p == 0 by { FirstOnly(State(), lru, p); }
        PayloadSelf(entries[..]);
        return;
      }
      ghost var es := entries[..];
      MoveLinks(State(), lru, p);
      Detach(i);
      AttachFront(i);
      lru := Moved(lru, p);
      SameIndexed(es, entries[..], lru, index) by { PayloadSym(entries[..], es); }
      UnusedSame(es, entries[..], size, cap);
    }

    /** `Get`: the cached key, which becomes the most recently used. */
    method Get(hash: Hash) returns (r: Option<AccountKey>)
      requires Valid()
      modifies this, entries
      ensures Valid()
      ensures |hash| != 32 ==> r == None && Items() == old(Items())
      ensures |hash| == 32 ==> r == Find(old(Items()), hash) && Items() == Touched(old(Items()), hash)
      ensures |hash| == 32 && !Caches(old(Items()), hash) ==> r == None && Items() == old(Items())
      ensures forall p :: |hash| == 32 && 0 <= p < |old(Items())| && old(Items())[p].hash == hash ==>
                          r == Some(old(Items())[p].key) && Items() == [old(Items())[p]] + (old(Items())[..p] + old(Items())[p + 1..])
    {
      hide Linked, Indexed, SamePayload, Find, Without, Drop, Moved;
      TouchedIs(Items(), hash) by { ContentsDistinct(State(), lru, index); }
      if |hash| != 32 {
        return None;
      }
      if hash !in index {
        NotCached(State(), lru, index, hash);
        return None;
      }
      var i := index[hash];
      ghost var p := Position(State(), lru, index, hash);
      UsedSlot(entries[..], lru, index, p);
      var e := entries[i];
      if !e.inUse {
        return None;
      }
      ghost var es, was := entries[..], lru;
      AllInside(State(), lru);
      MovedContents(es, lru, p);
      MoveToFront(i, p);
      AllInside(State(), lru);
      SameContents(entries[..], es, lru);
      r := Some(e.key);
    }

    /** `Put`: the entry becomes the most recently used; a full cache drops its least recently used. */
    method Put(hash: Hash, key: AccountKey)
      requires Valid()
      modifies this, entries
      ensures Valid()
      ensures |hash| != 32 || key == [] || |key| > 64 ==> Items() == old(Items())
      ensures |hash| == 32 && 1 <= |key| <= 64 ==> Items() == Stored(old(Items()), hash, key, cap)
      ensures |hash| == 32 && 1 <= |key| <= 64 && !Caches(old(Items()), hash) ==>
                Items() == [Item(hash, key)] + (if |old(Items())| < cap then old(Items()) else old(Items())[..cap - 1])
      ensures forall p :: |hash| == 32 && 1 <= |key| <= 64 && 0 <= p < |old(Items())| && old(Items())[p].hash == hash ==>
                          Items() == [Item(hash, key)] + (old(Items())[..p] + old(Items())[p + 1..])
    {
      hide Linked, Indexed, SamePayload, Find, Without, Drop, Moved;
      StoredIs(Items(), hash, key, cap) by { ContentsDistinct(State(), lru, index); }
      if |hash| != 32 || |key| == 0 || |key| > 64 {
        return;
      }
      if hash in index {
        Overwrite(hash, key);
      } else if size < cap {
        var i := size;
        NotCached(State(), lru, index, hash);
        AllInside(State(), lru);
        FreeSlot(State(), lru, index, size, cap);
        size := size + 1;
        Fill(i, hash, key, lru);
      } else {
        Evict(hash, key);
      }
    }

    method Overwrite(hash: Hash, key: AccountKey)
      requires Valid() && hash in index
      modifies this, entries
      ensures Valid() && Items() == Stored(old(Items()), hash, key, cap)
    {
      hide Linked, Indexed, SamePayload, Find, Drop, Moved;
      var i := index[hash];
      ghost var p := Position(State(), lru, index, hash);
      ghost var es := entries[..];
      AllInside(State(), lru);
      UsedSlot(es, lru, index, p);
      entries[i] := entries[i].(hash := hash, key := key, inUse := true);
      assert entries[..] == es[i := es[i].(hash := hash, key := key, inUse := true)];
      KeyChanged(Links(es, head, tail), lru, index, p, hash, key);
      ghost var mid := entries[..];
      MovedContents(mid, lru, p);
      MoveToFront(i, p);
      AllInside(State(), lru);
      SameContents(entries[..], mid, lru);
    }

    /** A slot outside the list gets the entry and goes to the front. */
    method Fill(i: int, hash: Hash, key: AccountKey, ghost rest: seq<int>)
      requires Linked(State(), rest) && Indexed(entries[..], rest, index) && hash !in index
      requires 0 <= i < size <= cap == entries.Length && i !in rest && |rest| + 1 == size
      requires (forall p :: 0 <= p < |rest| ==> 0 <= rest[p] < size) && forall j :: size <= j < cap ==> !entries[j].inUse
      modifies this`head, this`tail, this`index, this`lru, entries
      ensures Valid() && lru == [i] + rest
      ensures Items() == [Item(hash, key)] + old(Contents(entries[..], rest))
    {
      hide Linked, Indexed, SamePayload, Attached;
      ghost var es := entries[..];
      entries[i] := entries[i].(hash := hash, key := key, inUse := true);
      assert entries[..] == es[i := es[i].(hash := hash, key := key, inUse := true)];
      ghost var mid := State();
      Filled(Links(es, head, tail), rest, index, i, hash, key);
      AttachLinked(mid, rest, i);
      HeadNot(mid, rest, i);
      AttachFront(i);
      index := index[hash := i];
      lru := [i] + rest;
      PayloadSym(entries[..], mid.es);
      SameIndexed(mid.es, entries[..], lru, index);
      AllInside(State(), lru);
      SameContents(entries[..], mid.es, lru);
      assert forall j :: size <= j < cap ==> !entries[j].inUse by { UnusedSame(mid.es, entries[..], size, cap); }
    }

    /** The least recently used slot is reused. */
    method Evict(hash: Hash, key: AccountKey)
      requires Valid() && hash !in index && size == cap
      modifies this, entries
      ensures Valid() && Items() == Stored(old(Items()), hash, key, cap)
    {
      hide Linked, Indexed, SamePayload, Detached, Drop, Find;
      var i := tail;
      ghost var p := |lru| - 1;
      LinkAt(State(), lru, p);
      UsedSlot(entries[..], lru, index, p);
      NotCached(State(), lru, index, hash);
      AllInside(State(), lru);
      ghost var es, was := entries[..], State();
      NotInDrop(was, lru, p);
      DropLast(lru);
      Forgotten(was, lru, index);
      if entries[i].inUse {
        index := index - {entries[i].hash};
        DetachLinked(State(), lru, p);
        Detach(i);
      }
      PayloadSym(entries[..], es);
      SameIndexed(es, entries[..], Drop(lru, p), index);
      AllInside(State(), Drop(lru, p));
      SameContents(entries[..], es, Drop(lru, p));
      Fill(i, hash, key, Drop(lru, p));
    }
  }

  lemma AllInside(s: Links, lru: seq<int>)
    requires Linked(s, lru)
    ensures forall p :: 0 <= p < |lru| ==> 0 <= lru[p] < |s.es|
  {
  }

  lemma UsedSlot(es: seq<Slot>, lru: seq<int>, index: map<Hash, int>, p: nat)
    requires Indexed(es, lru, index) && p < |lru|
    ensures 0 <= lru[p] < |es| && es[lru[p]].inUse && es[lru[p]].hash in index && index[es[lru[p]].hash] == lru[p]
  {
  }

  lemma UnusedSame(a: seq<Slot>, b: seq<Slot>, from: int, to: int)
    requires SamePayload(b, a) && 0 <= from <= to <= |a| && forall j :: from <= j < to ==> !a[j].inUse
    ensures forall j :: from <= j < to ==> !b[j].inUse
  {
  }

  lemma FreeSlot(s: Links, lru: seq<int>, index: map<Hash, int>, size: int, cap: int)
    requires CacheOk(s, lru, index, size, cap)
    ensures size !in lru
  {
  }

  /** The list without its last slot. */
  lemma DropLast(lru: seq<int>)
    requires lru != []
    ensures Drop(lru, |lru| - 1) == lru[..|lru| - 1]
  {
  }

  lemma Forgotten(s: Links, lru: seq<int>, index: map<Hash, int>)
    requires Linked(s, lru) && Indexed(s.es, lru, index) && lru != []
    ensures 0 <= lru[|lru| - 1] < |s.es|
    ensures Indexed(s.es, lru[..|lru| - 1], index - {s.es[lru[|lru| - 1]].hash})
    ensures forall p :: 0 <= p < |lru| ==> 0 <= lru[p] < |s.es|
    ensures Contents(s.es, lru[..|lru| - 1]) == Contents(s.es, lru)[..|lru| - 1]
  {
    hide Linked, Indexed;
    AllInside(s, lru);
    ForgottenIndex(s, lru, index);
  }

  lemma ForgottenIndex(s: Links, lru: seq<int>, index: map<Hash, int>)
    requires Linked(s, lru) && Indexed(s.es, lru, index) && lru != []
    ensures 0 <= lru[|lru| - 1] < |s.es|
    ensures Indexed(s.es, lru[..|lru| - 1], index - {s.es[lru[|lru| - 1]].hash})
  {
    var n := |lru| - 1;
    assert forall p :: 0 <= p < n ==> lru[p] != lru[n];
    hide Linked;
    IndexedWithoutLast(s.es, lru, index);
  }

  lemma IndexedWithoutLast(es: seq<Slot>, lru: seq<int>, index: map<Hash, int>)
    requires Indexed(es, lru, index) && lru != [] && forall p :: 0 <= p < |lru| - 1 ==> lru[p] != lru[|lru| - 1]
    ensures 0 <= lru[|lru| - 1] < |es| && Indexed(es, lru[..|lru| - 1], index - {es[lru[|lru| - 1]].hash})
  {
    var n := |lru| - 1;
    var init, rest := lru[..n], index - {es[lru[n]].hash};
    forall h | h in rest ensures rest[h] in init {
      var p :| 0 <= p < |lru| && lru[p] == index[h];
      assert p != n;
      assert init[p] == lru[p];
    }
    forall p | 0 <= p < n ensures es[init[p]].hash in rest {
      assert init[p] == lru[p] != lru[n];
    }
  }

  lemma KeyChanged(s: Links, lru: seq<int>, index: map<Hash, int>, p: nat, hash: Hash, key: AccountKey)
    requires Linked(s, lru) && Indexed(s.es, lru, index) && p < |lru| && 0 <= lru[p] < |s.es| && s.es[lru[p]].hash == hash
    ensures var es := s.es[lru[p] := s.es[lru[p]].(hash := hash, key := key, inUse := true)];
            && Linked(Links(es, s.head, s.tail), lru) && Indexed(es, lru, index)
            && (forall q :: 0 <= q < |lru| ==> 0 <= lru[q] < |s.es|)
            && Contents(es, lru) == Contents(s.es, lru)[p := Item(hash, key)]
  {
    hide Linked, Indexed;
    var es := s.es[lru[p] := s.es[lru[p]].(hash := hash, key := key, inUse := true)];
    AllInside(s, lru);
    SameLinks(s, es, lru);
    SameHashes(s.es, es, lru, index) by { UsedSlot(s.es, lru, index, p); }
    forall q | 0 <= q < |lru| && q != p ensures es[lru[q]] == s.es[lru[q]] {
      Apart(s, lru, q, p);
    }
  }

  lemma SameLinks(s: Links, es: seq<Slot>, lru: seq<int>)
    requires Linked(s, lru) && |es| == |s.es| && forall i :: 0 <= i < |es| ==> es[i].prev == s.es[i].prev && es[i].next == s.es[i].next
    ensures Linked(Links(es, s.head, s.tail), lru)
  {
  }

  lemma SameHashes(a: seq<Slot>, b: seq<Slot>, lru: seq<int>, index: map<Hash, int>)
    requires Indexed(a, lru, index) && |a| == |b| && forall i :: 0 <= i < |a| ==> a[i].hash == b[i].hash && (a[i].inUse ==> b[i].inUse)
    ensures Indexed(b, lru, index)
  {
  }

  lemma Filled(s: Links, rest: seq<int>, index: map<Hash, int>, i: int, hash: Hash, key: AccountKey)
    requires Linked(s, rest) && Indexed(s.es, rest, index) && 0 <= i < |s.es| && i !in rest && hash !in index
    ensures var es := s.es[i := s.es[i].(hash := hash, key := key, inUse := true)];
            && Linked(Links(es, s.head, s.tail), rest) && Indexed(es, [i] + rest, index[hash := i])
            && (forall q :: 0 <= q < |rest| ==> 0 <= rest[q] < |s.es|)
            && Contents(es, [i] + rest) == [Item(hash, key)] + Contents(s.es, rest)
  {
    hide Linked, Indexed;
    var es := s.es[i := s.es[i].(hash := hash, key := key, inUse := true)];
    AllInside(s, rest);
    SameLinks(s, es, rest);
    assert forall q :: 0 <= q < |rest| ==> rest[q] in rest && es[rest[q]] == s.es[rest[q]];
    FilledIndexed(s.es, es, rest, index, i, hash);
  }

  lemma FilledIndexed(old_es: seq<Slot>, es: seq<Slot>, rest: seq<int>, index: map<Hash, int>, i: int, hash: Hash)
    requires Indexed(old_es, rest, index) && |es| == |old_es| && 0 <= i < |es| && i !in rest && hash !in index
    requires es[i].hash == hash && es[i].inUse && forall q :: 0 <= q < |rest| ==> 0 <= rest[q] < |es| && es[rest[q]] == old_es[rest[q]]
    ensures Indexed(es, [i] + rest, index[hash := i])
  {
    var all, ix := [i] + rest, index[hash := i];
    forall p | 0 <= p < |all| ensures 0 <= all[p] < |es| && es[all[p]].inUse && es[all[p]].hash in ix && ix[es[all[p]].hash] == all[p] {
      if p > 0 {
        assert all[p] == rest[p - 1];
      }
    }
    forall h | h in ix ensures ix[h] in all && 0 <= ix[h] < |es| && es[ix[h]].hash == h {
      if h == hash {
        assert all[0] == i;
      } else {
        var p :| 0 <= p < |rest| && rest[p] == index[h];
        assert all[p + 1] == rest[p];
      }
    }
  }

  /** Detaching a slot and attaching it in front moves it there. */
  lemma MoveLinks(s: Links, lru: seq<int>, p: nat)
    requires Linked(s, lru) && p < |lru|
    ensures 0 <= lru[p] < |s.es| && s.es[lru[p]].prev < |s.es| && s.es[lru[p]].next < |s.es|
    ensures var d := Detached(s, lru[p]);
            && |d.es| == |s.es| && d.head < |d.es| && d.head != lru[p]
            && Linked(Attached(d, lru[p]), Moved(lru, p)) && SamePayload(Attached(d, lru[p]).es, s.es)
  {
    hide Linked, Detached, Attached, SamePayload, Drop;
    DetachLinked(s, lru, p);
    var d := Detached(s, lru[p]);
    NotInDrop(s, lru, p);
    SameLength(d.es, s.es);
    AttachLinked(d, Drop(lru, p), lru[p]);
    HeadNot(d, Drop(lru, p), lru[p]);
    PayloadTrans(Attached(d, lru[p]).es, d.es, s.es);
  }

  lemma SameLength(a: seq<Slot>, b: seq<Slot>)
    requires SamePayload(a, b)
    ensures |a| == |b|
  {
  }

  lemma MovedSlots(lru: seq<int>, p: nat)
    requires p < |lru|
    ensures |Moved(lru, p)| == |lru| && (p == 0 ==> Moved(lru, p) == lru)
  {
  }

  lemma FirstOnly(s: Links, lru: seq<int>, p: nat)
    requires Linked(s, lru) && p < |lru| && lru[p] == s.head
    ensures p == 0
  {
  }

  lemma PayloadSelf(a: seq<Slot>)
    ensures SamePayload(a, a)
  {
  }

  lemma PayloadTrans(a: seq<Slot>, b: seq<Slot>, c: seq<Slot>)
    requires SamePayload(a, b) && SamePayload(b, c)
    ensures SamePayload(a, c)
  {
  }

  lemma PayloadSym(a: seq<Slot>, b: seq<Slot>)
    requires SamePayload(a, b)
    ensures SamePayload(b, a)
  {
  }

  lemma NotInDrop(s: Links, lru: seq<int>, p: nat)
    requires Linked(s, lru) && p < |lru|
    ensures lru[p] !in Drop(lru, p)
  {
    hide Drop;
  }

  lemma HeadNot(s: Links, lru: seq<int>, i: int)
    requires Linked(s, lru) && i !in lru && i >= 0
    ensures s.head != i && s.head < |s.es|
  {
    if lru != [] {
      assert lru[0] in lru;
    }
  }
}
