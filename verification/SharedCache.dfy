/** The shared cache: a byte budget over several namespaces, a recency list, and eviction of the least
    frequently used entry among the least recently used ones. */
module SharedCache {
  import opened Bytes

  /** How many entries an eviction looks at. */
  const SAMPLE := 32

  const MAX_FREQ := 0xffff_ffff

  datatype Namespace = Node | Storage | SegmentIndex | FileNode

  datatype Lookup = Lookup(ns: Namespace, key: string)

  /** A list element; `id` is its identity, which the item map refers to. */
  datatype Entry<V> = Entry(id: nat, at: Lookup, value: V, size: nat, freq: nat, lastTouch: nat)

  // ----- sums

  predicate Counts<V>(e: Entry<V>, which: Option<Namespace>) {
    which.None? || e.at.ns == which.value
  }

  /** Bytes of all entries, or of one namespace. */
  ghost function Sum<V>(ll: seq<Entry<V>>, which: Option<Namespace>): nat {
    if ll == [] then 0 else (if Counts(ll[0], which) then ll[0].size else 0) + Sum(ll[1..], which)
  }

  /** The namespaces partition the total. */
  lemma {:induction false} NamespacesPartition<V>(ll: seq<Entry<V>>)
    ensures Sum(ll, None) == Sum(ll, Some(Node)) + Sum(ll, Some(Storage)) + Sum(ll, Some(SegmentIndex)) + Sum(ll, Some(FileNode))
  {
    if ll != [] {
      NamespacesPartition(ll[1..]);
    }
  }

  lemma {:induction false} SumConcat<V>(a: seq<Entry<V>>, b: seq<Entry<V>>, which: Option<Namespace>)
    ensures Sum(a + b, which) == Sum(a, which) + Sum(b, which)
  {
    if a == [] {
      assert a + b == b;
    } else {
      SumConcat(a[1..], b, which);
      assert (a + b)[1..] == a[1..] + b;
    }
  }

  function Drop<V>(ll: seq<Entry<V>>, p: nat): (r: seq<Entry<V>>)
    requires p < |ll|
    ensures |r| == |ll| - 1 && forall q :: 0 <= q < |r| ==> r[q] == ll[if q < p then q else q + 1]
  {
    ll[..p] + ll[p + 1..]
  }

  lemma SumDrop<V>(ll: seq<Entry<V>>, p: nat, which: Option<Namespace>)
    requires p < |ll|
    ensures Sum(Drop(ll, p), which) + (if Counts(ll[p], which) then ll[p].size else 0) == Sum(ll, which)
  {
    SumConcat(ll[..p], ll[p + 1..], which);
    SumConcat(ll[..p], ll[p..], which);
    assert ll == ll[..p] + ll[p..] && ll[p..][1..] == ll[p + 1..];
  }

  lemma SumCons<V>(e: Entry<V>, ll: seq<Entry<V>>, which: Option<Namespace>)
    ensures Sum([e] + ll, which) == (if Counts(e, which) then e.size else 0) + Sum(ll, which)
  {
    assert ([e] + ll)[1..] == ll;
  }

  // ----- the list and the map

  /** The list is ordered by last touch, and the map and the list are in bijection. */
  ghost predicate ListOk<V>(ll: seq<Entry<V>>, items: map<Lookup, nat>, clock: nat, nextId: nat) {
    && (forall i :: 0 <= i < |ll| ==> EntryOk(ll[i], items, clock, nextId))
    && (forall i, j :: 0 <= i < j < |ll| ==> ll[i].id != ll[j].id && ll[i].lastTouch > ll[j].lastTouch)
    && (forall l :: l in items ==> HasEntry(ll, l, items[l]))
  }

  ghost predicate EntryOk<V>(e: Entry<V>, items: map<Lookup, nat>, clock: nat, nextId: nat) {
    e.id < nextId && e.lastTouch <= clock && 1 <= e.size && e.freq <= MAX_FREQ && e.at in items && items[e.at] == e.id
  }

  ghost predicate HasEntry<V>(ll: seq<Entry<V>>, l: Lookup, id: nat) {
    exists i :: 0 <= i < |ll| && ll[i].at == l && ll[i].id == id
  }

  /** What the cache answers for a key. */
  ghost function Find<V>(ll: seq<Entry<V>>, l: Lookup): Option<V> {
    if ll == [] then None else if ll[0].at == l then Some(ll[0].value) else Find(ll[1..], l)
  }

  lemma {:induction false} FindAt<V>(ll: seq<Entry<V>>, l: Lookup, p: nat)
    requires p < |ll| && ll[p].at == l && forall i :: 0 <= i < |ll| && i != p ==> ll[i].at != l
    ensures Find(ll, l) == Some(ll[p].value)
  {
    if p > 0 {
      FindAt(ll[1..], l, p - 1);
    }
  }

  lemma {:induction false} FindNone<V>(ll: seq<Entry<V>>, l: Lookup)
    requires forall i :: 0 <= i < |ll| ==> ll[i].at != l
    ensures Find(ll, l) == None
  {
    if ll != [] {
      FindNone(ll[1..], l);
    }
  }

  lemma Cached<V>(ll: seq<Entry<V>>, items: map<Lookup, nat>, clock: nat, nextId: nat, l: Lookup) returns (p: nat)
    requires ListOk(ll, items, clock, nextId) && l in items
    ensures p < |ll| && ll[p].at == l && ll[p].id == items[l] && Find(ll, l) == Some(ll[p].value)
    ensures forall i :: 0 <= i < |ll| && i != p ==> ll[i].at != l && ll[i].id != items[l]
  {
    assert HasEntry(ll, l, items[l]);
    p :| 0 <= p < |ll| && ll[p].at == l && ll[p].id == items[l];
    forall i | 0 <= i < |ll| && i != p ensures ll[i].at != l && ll[i].id != items[l] {
      assert EntryOk(ll[i], items, clock, nextId);
    }
    FindAt(ll, l, p);
  }

  lemma NotCached<V>(ll: seq<Entry<V>>, items: map<Lookup, nat>, clock: nat, nextId: nat, l: Lookup)
    requires ListOk(ll, items, clock, nextId) && l !in items
    ensures Find(ll, l) == None && forall i :: 0 <= i < |ll| ==> ll[i].at != l
  {
    forall i | 0 <= i < |ll| ensures ll[i].at != l {
      assert EntryOk(ll[i], items, clock, nextId);
    }
    FindNone(ll, l);
  }

  /** Removing an element and its map entry. */
  lemma DropOk<V>(ll: seq<Entry<V>>, items: map<Lookup, nat>, clock: nat, nextId: nat, p: nat)
    requires ListOk(ll, items, clock, nextId) && p < |ll|
    ensures ListOk(Drop(ll, p), items - {ll[p].at}, clock, nextId)
  {
    hide Drop;
    var r, its := Drop(ll, p), items - {ll[p].at};
    assert EntryOk(ll[p], items, clock, nextId);
    hide EntryOk, HasEntry;
    forall q | 0 <= q < |r| ensures EntryOk(r[q], its, clock, nextId) {
      StaysOk(ll, items, clock, nextId, p, if q < p then q else q + 1);
    }
    forall l | l in its ensures HasEntry(r, l, its[l]) {
      StaysListed(ll, items, p, l);
    }
  }

  lemma StaysOk<V>(ll: seq<Entry<V>>, items: map<Lookup, nat>, clock: nat, nextId: nat, p: nat, o: nat)
    requires ListOk(ll, items, clock, nextId) && p < |ll| && o < |ll| && o != p
    ensures EntryOk(ll[o], items - {ll[p].at}, clock, nextId)
  {
    assert EntryOk(ll[o], items, clock, nextId) && EntryOk(ll[p], items, clock, nextId);
  }

  lemma StaysListed<V>(ll: seq<Entry<V>>, items: map<Lookup, nat>, p: nat, l: Lookup)
    requires p < |ll| && l in items && HasEntry(ll, l, items[l]) && l != ll[p].at
    ensures HasEntry(Drop(ll, p), l, items[l])
  {
    hide Drop;
    var i :| 0 <= i < |ll| && ll[i].at == l && ll[i].id == items[l];
    assert Drop(ll, p)[if i < p then i else i - 1] == ll[i];
  }

  /** A new most recently used element. */
  lemma PushOk<V>(ll: seq<Entry<V>>, items: map<Lookup, nat>, clock: nat, nextId: nat, e: Entry<V>)
    requires ListOk(ll, items, clock, nextId) && e.at !in items && e.lastTouch == clock + 1
    requires 1 <= e.size && e.freq <= MAX_FREQ && forall i :: 0 <= i < |ll| ==> ll[i].id != e.id
    ensures ListOk([e] + ll, items[e.at := e.id], clock + 1, if e.id < nextId then nextId else e.id + 1)
  {
    var r, its, nid := [e] + ll, items[e.at := e.id], if e.id < nextId then nextId else e.id + 1;
    forall q | 0 <= q < |ll| ensures EntryOk(ll[q], its, clock + 1, nid) && ll[q].lastTouch < e.lastTouch {
      OlderOk(ll[q], items, clock, nextId, e);
    }
    assert EntryOk(e, its, clock + 1, nid);
    hide EntryOk, HasEntry;
    assert r[0] == e && forall q :: 0 < q < |r| ==> r[q] == ll[q - 1];
    forall l | l in its ensures HasEntry(r, l, its[l]) {
      PushedListed(ll, items, e, l);
    }
  }

  lemma OlderOk<V>(o: Entry<V>, items: map<Lookup, nat>, clock: nat, nextId: nat, e: Entry<V>)
    requires EntryOk(o, items, clock, nextId) && e.at !in items && e.lastTouch == clock + 1
    ensures EntryOk(o, items[e.at := e.id], clock + 1, if e.id < nextId then nextId else e.id + 1) && o.lastTouch < e.lastTouch
  {
  }

  lemma PushedListed<V>(ll: seq<Entry<V>>, items: map<Lookup, nat>, e: Entry<V>, l: Lookup)
    requires l == e.at || (l in items && HasEntry(ll, l, items[l]))
    ensures HasEntry([e] + ll, l, items[e.at := e.id][l])
  {
    var r := [e] + ll;
    if l == e.at {
      assert r[0].at == l;
    } else {
      var i :| 0 <= i < |ll| && ll[i].at == l && ll[i].id == items[l];
      assert r[i + 1] == ll[i];
    }
  }

  function Bump(freq: nat): nat {
    if freq >= MAX_FREQ then freq else freq + 1
  }

  /** Touching: one more use, the newest touch, the front of the list. */
  function Touch<V>(ll: seq<Entry<V>>, p: nat, clock: nat): seq<Entry<V>>
    requires p < |ll|
  {
    [ll[p].(freq := Bump(ll[p].freq), lastTouch := clock)] + Drop(ll, p)
  }

  lemma TouchOk<V>(ll: seq<Entry<V>>, items: map<Lookup, nat>, clock: nat, nextId: nat, p: nat)
    requires ListOk(ll, items, clock, nextId) && p < |ll|
    ensures ListOk(Touch(ll, p, clock + 1), items, clock + 1, nextId)
    ensures forall which :: Sum(Touch(ll, p, clock + 1), which) == Sum(ll, which)
  {
    hide ListOk, Drop, Sum;
    var e := ll[p].(freq := Bump(ll[p].freq), lastTouch := clock + 1);
    EntryGives(ll, items, clock, nextId, p);
    DropOk(ll, items, clock, nextId, p);
    DropIds(ll, items, clock, nextId, p);
    PushOk(Drop(ll, p), items - {e.at}, clock, nextId, e);
    assert (items - {e.at})[e.at := e.id] == items;
    forall which ensures Sum(Touch(ll, p, clock + 1), which) == Sum(ll, which) {
      SumDrop(ll, p, which);
      SumCons(e, Drop(ll, p), which);
    }
  }

  lemma EntryGives<V>(ll: seq<Entry<V>>, items: map<Lookup, nat>, clock: nat, nextId: nat, p: nat)
    requires ListOk(ll, items, clock, nextId) && p < |ll|
    ensures EntryOk(ll[p], items, clock, nextId)
  {
  }

  lemma DropIds<V>(ll: seq<Entry<V>>, items: map<Lookup, nat>, clock: nat, nextId: nat, p: nat)
    requires ListOk(ll, items, clock, nextId) && p < |ll|
    ensures forall q :: 0 <= q < |ll| - 1 ==> Drop(ll, p)[q].id != ll[p].id
  {
    hide Drop;
  }

  /** Only the use count of one entry differs. */
  lemma BumpOk<V>(ll: seq<Entry<V>>, items: map<Lookup, nat>, clock: nat, nextId: nat, p: nat)
    requires ListOk(ll, items, clock, nextId) && p < |ll|
    ensures var r := ll[p := ll[p].(freq := Bump(ll[p].freq))];
            ListOk(r, items, clock, nextId) && forall which :: Sum(r, which) == Sum(ll, which)
  {
    hide ListOk, Sum, Bump;
    var r := ll[p := ll[p].(freq := Bump(ll[p].freq))];
    BumpListOk(ll, items, clock, nextId, p, r);
    forall which ensures Sum(r, which) == Sum(ll, which) {
      BumpSum(ll, p, r, which);
    }
  }

  lemma BumpListOk<V>(ll: seq<Entry<V>>, items: map<Lookup, nat>, clock: nat, nextId: nat, p: nat, r: seq<Entry<V>>)
    requires ListOk(ll, items, clock, nextId) && p < |ll| && r == ll[p := ll[p].(freq := Bump(ll[p].freq))]
    ensures ListOk(r, items, clock, nextId)
  {
    assert |r| == |ll| && forall i :: 0 <= i < |r| ==> r[i].id == ll[i].id && r[i].lastTouch == ll[i].lastTouch && r[i].at == ll[i].at;
    forall i | 0 <= i < |r| ensures EntryOk(r[i], items, clock, nextId) {
      BumpEntryOk(ll[i], items, clock, nextId);
    }
    hide EntryOk;
    forall l | l in items ensures HasEntry(r, l, items[l]) {
      HasEntryToo(ll, r, l, items[l]);
    }
  }

  lemma BumpEntryOk<V>(e: Entry<V>, items: map<Lookup, nat>, clock: nat, nextId: nat)
    requires EntryOk(e, items, clock, nextId)
    ensures EntryOk(e.(freq := Bump(e.freq)), items, clock, nextId)
  {
  }

  lemma HasEntryToo<V>(ll: seq<Entry<V>>, r: seq<Entry<V>>, l: Lookup, id: nat)
    requires HasEntry(ll, l, id) && |r| == |ll| && forall i :: 0 <= i < |r| ==> r[i].id == ll[i].id && r[i].at == ll[i].at
    ensures HasEntry(r, l, id)
  {
    var i :| 0 <= i < |ll| && ll[i].at == l && ll[i].id == id;
    assert r[i].at == l;
  }

  lemma BumpSum<V>(ll: seq<Entry<V>>, p: nat, r: seq<Entry<V>>, which: Option<Namespace>)
    requires p < |ll| && r == ll[p := ll[p].(freq := Bump(ll[p].freq))]
    ensures Sum(r, which) == Sum(ll, which)
  {
    hide Sum, Bump;
    SumDrop(ll, p, which);
    SumDrop(r, p, which);
    assert Drop(r, p) == Drop(ll, p);
  }

  // ----- eviction

  /** The entries an eviction considers: the last few, never the front of a longer list. */
  predicate InSample(n: nat, j: int) {
    0 <= j && n - SAMPLE <= j < n && (j > 0 || n == 1)
  }

  /** A better victim: used less often, or as often but longer ago. */
  predicate Better<V>(a: Entry<V>, b: Entry<V>) {
    a.freq < b.freq || (a.freq == b.freq && a.lastTouch < b.lastTouch)
  }

  /** `selectVictimLocked`. */
  method SelectVictim<V>(ll: seq<Entry<V>>) returns (v: nat)
    requires ll != []
    ensures IsVictim(ll, v) && (|ll| > 1 ==> v > 0)
  {
    var i, sampled := |ll|, 0;
    var found := false;
    v := |ll| - 1;
    while i > 0 && sampled < SAMPLE
      invariant 0 <= i <= |ll| && sampled == |ll| - i - (if i == 0 && |ll| > 1 then 1 else 0) <= SAMPLE
      invariant found <==> sampled > 0
      invariant v < |ll| && (found ==> i <= v && InSample(|ll|, v))
      invariant found ==> forall j :: i <= j < |ll| && InSample(|ll|, j) ==> !Better(ll[j], ll[v])
    {
      i := i - 1;
      if i == 0 && |ll| > 1 {
        continue;
      }
      sampled := sampled + 1;
      if !found || Better(ll[i], ll[v]) {
        found, v := true, i;
      }
    }
  }

  /** Subtraction that stops at zero. */
  function Minus(a: nat, b: nat): nat {
    if a >= b then a - b else 0
  }

  function UsageOf(usage: map<Namespace, nat>, ns: Namespace): nat {
    if ns in usage then usage[ns] else 0
  }

  ghost predicate AccountOk<V>(ll: seq<Entry<V>>, used: nat, usage: map<Namespace, nat>) {
    used == Sum(ll, None) && forall ns :: UsageOf(usage, ns) == Sum(ll, Some(ns))
  }

  lemma AccountDrop<V>(ll: seq<Entry<V>>, used: nat, usage: map<Namespace, nat>, p: nat)
    requires AccountOk(ll, used, usage) && p < |ll|
    ensures var e := ll[p];
            && e.size <= used && e.size <= UsageOf(usage, e.at.ns)
            && AccountOk(Drop(ll, p), used - e.size, usage[e.at.ns := UsageOf(usage, e.at.ns) - e.size])
  {
    hide Sum, Drop;
    SumDrop(ll, p, None);
    forall ns ensures Sum(Drop(ll, p), Some(ns)) + (if Counts(ll[p], Some(ns)) then ll[p].size else 0) == Sum(ll, Some(ns)) {
      SumDrop(ll, p, Some(ns));
    }
  }

  lemma AccountPush<V>(ll: seq<Entry<V>>, used: nat, usage: map<Namespace, nat>, e: Entry<V>)
    requires AccountOk(ll, used, usage)
    ensures AccountOk([e] + ll, used + e.size, usage[e.at.ns := UsageOf(usage, e.at.ns) + e.size])
  {
    hide Sum;
    SumCons(e, ll, None);
    forall ns ensures Sum([e] + ll, Some(ns)) == (if Counts(e, Some(ns)) then e.size else 0) + Sum(ll, Some(ns)) {
      SumCons(e, ll, Some(ns));
    }
  }

  /** Dropping an element only forgets its own key. */
  lemma FindDrop<V>(ll: seq<Entry<V>>, items: map<Lookup, nat>, clock: nat, nextId: nat, p: nat, l: Lookup)
    requires ListOk(ll, items, clock, nextId) && p < |ll|
    ensures Find(Drop(ll, p), l) == if l == ll[p].at then None else Find(ll, l)
  {
    hide Drop, ListOk, Find;
    var r := Drop(ll, p);
    EntryGives(ll, items, clock, nextId, p);
    DropOk(ll, items, clock, nextId, p);
    if l in items && l != ll[p].at {
      var q := Cached(ll, items, clock, nextId, l);
      var o := Cached(r, items - {ll[p].at}, clock, nextId, l);
      assert r[o] == ll[if o < p then o else o + 1];
    } else {
      NotCached(r, items - {ll[p].at}, clock, nextId, l);
      if l !in items {
        NotCached(ll, items, clock, nextId, l);
      }
    }
  }

  /** The entry of `l` is the most recently used now; the rest keep their order. */
  ghost predicate UsedNow<V>(was: seq<Entry<V>>, now: seq<Entry<V>>, l: Lookup, clock: nat) {
    exists p :: 0 <= p < |was| && was[p].at == l &&
      now == [was[p].(freq := if was[p].freq < 0xffff_ffff then was[p].freq + 1 else was[p].freq, lastTouch := clock)] + (was[..p] + was[p + 1..])
  }

  /** The entry of `l` has one more use; nothing else differs. */
  ghost predicate Counted<V>(was: seq<Entry<V>>, now: seq<Entry<V>>, l: Lookup) {
    exists p :: 0 <= p < |was| && was[p].at == l && now == was[p := was[p].(freq := if was[p].freq < 0xffff_ffff then was[p].freq + 1 else was[p].freq)]
  }

  /** Of the last 32 entries, never counting the front of a longer list, the least often used one, and
      of those the one used longest ago. */
  ghost predicate IsVictim<V>(ll: seq<Entry<V>>, v: nat) {
    && v < |ll| <= v + 32 && (v > 0 || |ll| == 1)
    && forall j :: 0 <= j < |ll| <= j + 32 && (j > 0 || |ll| == 1) ==>
         ll[v].freq < ll[j].freq || (ll[v].freq == ll[j].freq && ll[v].lastTouch <= ll[j].lastTouch)
  }

  /** `now` is `ll` after dropping some victims, one at a time and each while the budget is exceeded. */
  ghost predicate Shed<V>(ll: seq<Entry<V>>, now: seq<Entry<V>>, capacity: nat)
    decreases |ll|
  {
    now == ll || (Sum(ll, None) > capacity && exists v :: IsVictim(ll, v) && Shed(Drop(ll, v), now, capacity))
  }

  /** Eviction stops as soon as the budget is met. */
  ghost predicate Evicted<V>(ll: seq<Entry<V>>, now: seq<Entry<V>>, capacity: nat) {
    Shed(ll, now, capacity) && Sum(now, None) <= capacity
  }

  lemma {:induction false} ShedOne<V>(ll: seq<Entry<V>>, now: seq<Entry<V>>, v: nat, capacity: nat)
    requires Shed(ll, now, capacity) && IsVictim(now, v) && Sum(now, None) > capacity
    ensures Shed(ll, Drop(now, v), capacity)
    decreases |ll|
  {
    hide InSample, Better, Drop, Sum;
    if now == ll {
      assert Shed(Drop(ll, v), Drop(now, v), capacity);
    } else {
      var u :| IsVictim(ll, u) && Shed(Drop(ll, u), now, capacity);
      ShedOne(Drop(ll, u), now, v, capacity);
    }
  }

  /** A use count goes up by one until it is full. */
  ghost function OneMore(freq: nat): nat {
    if freq < 0xffff_ffff then freq + 1 else freq
  }

  /** The list without the entry of `l`, and how often that entry was used. */
  ghost function Without<V>(ll: seq<Entry<V>>, l: Lookup): seq<Entry<V>> {
    if ll == [] then [] else if ll[0].at == l then ll[1..] else [ll[0]] + Without(ll[1..], l)
  }

  ghost function Uses<V>(ll: seq<Entry<V>>, l: Lookup): nat {
    if ll == [] then 1 else if ll[0].at == l then ll[0].freq else Uses(ll[1..], l)
  }

  lemma {:induction false} WithoutAt<V>(ll: seq<Entry<V>>, l: Lookup, p: nat)
    requires p < |ll| && ll[p].at == l && forall i :: 0 <= i < p ==> ll[i].at != l
    ensures Without(ll, l) == Drop(ll, p) && Uses(ll, l) == ll[p].freq
  {
    if p > 0 {
      hide Drop;
      WithoutAt(ll[1..], l, p - 1);
      DropTail(ll, p);
    }
  }

  lemma DropTail<V>(ll: seq<Entry<V>>, p: nat)
    requires 0 < p < |ll|
    ensures [ll[0]] + Drop(ll[1..], p - 1) == Drop(ll, p)
  {
  }

  lemma {:induction false} WithoutNone<V>(ll: seq<Entry<V>>, l: Lookup)
    requires forall i :: 0 <= i < |ll| ==> ll[i].at != l
    ensures Without(ll, l) == ll && Uses(ll, l) == 1
  {
    if ll != [] {
      WithoutNone(ll[1..], l);
    }
  }

  /** The entries of other namespaces, in order. */
  ghost function Others<V>(ll: seq<Entry<V>>, ns: Namespace): seq<Entry<V>> {
    if ll == [] then []
    else (if ll[0].at.ns == ns then [] else [ll[0]]) + Others(ll[1..], ns)
  }

  class Cache<V(==)> {
    const capacity: nat
    var used: nat
    var usage: map<Namespace, nat>
    var ll: seq<Entry<V>>
    var items: map<Lookup, nat>
    var clock: nat
    var nextId: nat

    ghost predicate Consistent()
      reads this
    {
      capacity >= 1 && ListOk(ll, items, clock, nextId) && AccountOk(ll, used, usage)
    }

    ghost predicate Valid()
      reads this
    {
      Consistent() && used <= capacity
    }

    constructor (capacityBytes: nat)
      ensures Valid() && ll == [] && capacity == if capacityBytes == 0 then 1 else capacityBytes
    {
      capacity := if capacityBytes == 0 then 1 else capacityBytes;
      used, usage, ll, items, clock, nextId := 0, map[], [], map[], 0, 0;
    }

    /** The position of a list element. */
    method Position(id: nat) returns (p: nat)
      requires exists i :: 0 <= i < |ll| && ll[i].id == id
      ensures p < |ll| && ll[p].id == id
    {
      p := 0;
      while ll[p].id != id
        invariant p < |ll| && forall i :: 0 <= i < p ==> ll[i].id != id
        decreases |ll| - p
      {
        p := p + 1;
      }
    }

    /** `removeElementLocked`. */
    method RemoveAt(p: nat)
      requires Consistent() && p < |ll|
      modifies this`ll, this`items, this`used, this`usage
      ensures Consistent() && ll == Drop(old(ll), p) && items == old(items) - {old(ll)[p].at}
      ensures used == old(used) - old(ll)[p].size
    {
      hide ListOk, AccountOk, Drop;
      var e := ll[p];
      DropOk(ll, items, clock, nextId, p);
      AccountDrop(ll, used, usage, p);
      items := items - {e.at};
      ll := Drop(ll, p);
      used := Minus(used, e.size);
      usage := usage[e.at.ns := Minus(UsageOf(usage, e.at.ns), e.size)];
    }

    /** `Get`. */
    method Get(l: Lookup) returns (r: Option<V>)
      requires Valid()
      modifies this`ll, this`clock
      ensures Valid()
      ensures l.key == "" ==> r == None && ll == old(ll)
      ensures l.key != "" ==> r == Find(old(ll), l)
      ensures r.Some? ==> UsedNow(old(ll), ll, l, old(clock) + 1)
      ensures r.None? ==> ll == old(ll)
    {
      hide ListOk, Find, Drop, Sum;
      if l.key == "" {
        return None;
      }
      if l !in items {
        NotCached(ll, items, clock, nextId, l);
        return None;
      }
      ghost var q := Cached(ll, items, clock, nextId, l);
      var p := Position(items[l]);
      assert p == q;
      TouchOk(ll, items, clock, nextId, p);
      r := Some(ll[p].value);
      clock := clock + 1;
      ll := Touch(ll, p, clock);
    }

    /** `GetNoTouch`: the same answer; only the use count moves. */
    method GetNoTouch(l: Lookup) returns (r: Option<V>)
      requires Valid()
      modifies this`ll
      ensures Valid()
      ensures r == if l.key == "" then None else Find(old(ll), l)
      ensures if r.Some? then Counted(old(ll), ll, l) else ll == old(ll)
    {
      hide ListOk, Find, Sum;
      if l.key == "" {
        return None;
      }
      if l !in items {
        NotCached(ll, items, clock, nextId, l);
        return None;
      }
      ghost var q := Cached(ll, items, clock, nextId, l);
      var p := Position(items[l]);
      assert p == q;
      BumpOk(ll, items, clock, nextId, p);
      r := Some(ll[p].value);
      ll := ll[p := ll[p].(freq := Bump(ll[p].freq))];
    }

    /** `Remove`. */
    method Remove(l: Lookup)
      requires Valid()
      modifies this`ll, this`items, this`used, this`usage
      ensures Valid()
      ensures forall k :: Find(ll, k) == if k == l && l.key != "" then None else Find(old(ll), k)
    {
      hide ListOk, Find, AccountOk, Drop;
      if l.key == "" {
        return;
      }
      if l !in items {
        NotCached(ll, items, clock, nextId, l);
        return;
      }
      ghost var q := Cached(ll, items, clock, nextId, l);
      var p := Position(items[l]);
      assert p == q;
      forall k ensures Find(Drop(ll, p), k) == if k == l then None else Find(ll, k) {
        FindDrop(ll, items, clock, nextId, p, k);
      }
      RemoveAt(p);
    }

    /** The removal loop of `RemoveNamespace`. */
    method RemoveNamespace(ns: Namespace)
      requires Valid()
      modifies this`ll, this`items, this`used, this`usage
      ensures Valid() && ll == Others(old(ll), ns) && UsageOf(usage, ns) == 0
    {
      hide ListOk, AccountOk, Drop, Others, Sum;
      var p := 0;
      assert ll[0..] == ll;
      OthersNone(ll[..0], ns);
      while p < |ll|
        invariant Valid() && 0 <= p <= |ll|
        invariant ll[..p] + Others(ll[p..], ns) == Others(old(ll), ns)
        invariant Others(ll[..p], ns) == ll[..p]
        decreases |ll| - p
      {
        OthersStep(ll, p, ns);
        if ll[p].at.ns == ns {
          DropAtIs(ll, p);
          RemoveAt(p);
        } else {
          p := p + 1;
        }
      }
      OthersEnd(ll, p, ns);
      SumOthers(ll, ns);
      AccountGives(ll, used, usage, ns);
    }

    /** `Add`: an older version goes; then, if the entry fits the capacity, it becomes the most recently
        used one and victims go one at a time until the budget is met. It is never its own victim. */
    method Add(l: Lookup, value: V, sizeBytes: nat)
      requires Valid()
      modifies this
      ensures Valid()
      ensures l.key == "" ==> ll == old(ll)
      ensures l.key != "" && (if sizeBytes == 0 then 1 else sizeBytes) > capacity ==>
                && ll == Without(old(ll), l)
                && forall k :: Find(ll, k) == if k == l then None else Find(old(ll), k)
      ensures l.key != "" && (if sizeBytes == 0 then 1 else sizeBytes) <= capacity ==>
                && Evicted([Entry(old(nextId), l, value, if sizeBytes == 0 then 1 else sizeBytes, OneMore(Uses(old(ll), l)), old(clock) + 1)] + Without(old(ll), l), ll, capacity)
                && ll != [] && ll[0].at == l && Find(ll, l) == Some(value)
                && (forall k :: k != l && Find(ll, k).Some? ==> Find(ll, k) == Find(old(ll), k))
                && (old(used) + (if sizeBytes == 0 then 1 else sizeBytes) <= capacity ==> forall k :: k != l ==> Find(ll, k) == Find(old(ll), k))
    {
      hide ListOk, AccountOk, Find, Drop, Sum, Evicted, Without, Uses;
      if l.key == "" {
        return;
      }
      var size := Size(sizeBytes);
      var freq := 1;
      if l in items {
        ghost var q := Cached(ll, items, clock, nextId, l);
        var p := Position(items[l]);
        assert p == q;
        EntryGives(ll, items, clock, nextId, p);
        WithoutAt(ll, l, p);
        freq := ll[p].freq;
        forall k ensures Find(Drop(ll, p), k) == if k == l then None else Find(ll, k) {
          FindDrop(ll, items, clock, nextId, p, k);
        }
        RemoveAt(p);
      } else {
        NotCached(ll, items, clock, nextId, l);
        WithoutNone(ll, l);
      }
      if size > capacity {
        return;
      }
      Push(l, value, size, freq);
      MakeRoom();
      FrontFound(ll, l);
    }

    /** The eviction loop. */
    method MakeRoom()
      requires Consistent() && ll != [] && ll[0].size <= capacity
      modifies this`ll, this`items, this`used, this`usage
      ensures Valid() && Evicted(old(ll), ll, capacity)
      ensures ll != [] && ll[0] == old(ll)[0] && (old(used) <= capacity ==> ll == old(ll))
      ensures forall k :: Find(ll, k).Some? ==> Find(ll, k) == Find(old(ll), k)
    {
      hide ListOk, AccountOk, Find, Drop, Sum;
      assert Shed(ll, ll, capacity);
      hide Shed;
      while used > capacity
        invariant Consistent() && ll != [] && ll[0] == old(ll)[0]
        invariant forall k :: Find(ll, k).Some? ==> Find(ll, k) == Find(old(ll), k)
        invariant Shed(old(ll), ll, capacity)
        invariant used <= old(used) && (old(used) <= capacity ==> ll == old(ll))
        decreases |ll|
      {
        var v := SelectVictim(ll);
        FrontStays(ll, used, usage, capacity);
        ShedOne(old(ll), ll, v, capacity);
        forall k ensures Find(Drop(ll, v), k) == if k == ll[v].at then None else Find(ll, k) {
          FindDrop(ll, items, clock, nextId, v, k);
        }
        RemoveAt(v);
      }
      UsedIs(ll, used, usage);
    }

    /** The insertion itself, before evicting. */
    method Push(l: Lookup, value: V, size: nat, freq: nat)
      requires Consistent() && l !in items && 1 <= size <= capacity && freq <= MAX_FREQ
      modifies this
      ensures Consistent() && used == old(used) + size
      ensures ll == [Entry(old(nextId), l, value, size, Bump(freq), old(clock) + 1)] + old(ll)
      ensures forall k :: Find(ll, k) == if k == l then Some(value) else Find(old(ll), k)
    {
      hide ListOk, AccountOk, Find, Sum;
      var e := Entry(nextId, l, value, size, Bump(freq), clock + 1);
      NewId(ll, items, clock, nextId);
      PushOk(ll, items, clock, nextId, e);
      AccountPush(ll, used, usage, e);
      forall k ensures Find([e] + ll, k) == if k == l then Some(value) else Find(ll, k) {
        FindCons(e, ll, k);
      }
      nextId, clock := nextId + 1, clock + 1;
      ll := [e] + ll;
      items := items[l := e.id];
      used := used + size;
      usage := usage[l.ns := UsageOf(usage, l.ns) + size];
    }
  }

  /** A size of zero counts as one byte. */
  function Size(sizeBytes: nat): nat {
    if sizeBytes == 0 then 1 else sizeBytes
  }

  lemma NewId<V>(ll: seq<Entry<V>>, items: map<Lookup, nat>, clock: nat, nextId: nat)
    requires ListOk(ll, items, clock, nextId)
    ensures forall i :: 0 <= i < |ll| ==> ll[i].id != nextId
  {
    forall i | 0 <= i < |ll| ensures ll[i].id != nextId {
      assert EntryOk(ll[i], items, clock, nextId);
    }
  }

  lemma FindCons<V>(e: Entry<V>, ll: seq<Entry<V>>, k: Lookup)
    ensures Find([e] + ll, k) == if k == e.at then Some(e.value) else Find(ll, k)
  {
    assert ([e] + ll)[1..] == ll;
  }

  lemma FrontFound<V>(ll: seq<Entry<V>>, l: Lookup)
    requires ll != [] && ll[0].at == l
    ensures Find(ll, l) == Some(ll[0].value)
  {
  }

  lemma SumOne<V>(ll: seq<Entry<V>>)
    ensures |ll| == 1 ==> Sum(ll, None) == ll[0].size
  {
  }

  lemma UsedIs<V>(ll: seq<Entry<V>>, used: nat, usage: map<Namespace, nat>)
    requires AccountOk(ll, used, usage)
    ensures used == Sum(ll, None)
  {
  }

  /** A budget overrun needs a second entry when the front one fits by itself. */
  lemma FrontStays<V>(ll: seq<Entry<V>>, used: nat, usage: map<Namespace, nat>, capacity: nat)
    requires ll != [] && AccountOk(ll, used, usage) && used > capacity >= ll[0].size
    ensures |ll| > 1 && Sum(ll, None) > capacity
  {
    hide Sum;
    SumOne(ll);
  }

  lemma OthersStep<V>(ll: seq<Entry<V>>, p: nat, ns: Namespace)
    requires p < |ll| && Others(ll[..p], ns) == ll[..p]
    ensures Others(ll[p..], ns) == (if ll[p].at.ns == ns then [] else [ll[p]]) + Others(ll[p + 1..], ns)
    ensures ll[p].at.ns != ns ==> ll[..p] + Others(ll[p..], ns) == ll[..p + 1] + Others(ll[p + 1..], ns) && Others(ll[..p + 1], ns) == ll[..p + 1]
    ensures ll[p].at.ns == ns ==> Others(ll[p..], ns) == Others(ll[p + 1..], ns)
  {
    assert ll[p..][1..] == ll[p + 1..];
    if ll[p].at.ns != ns {
      OthersConcat(ll[..p], [ll[p]], ns);
      assert ll[..p + 1] == ll[..p] + [ll[p]];
      assert [ll[p]][1..] == [];
    }
  }

  lemma {:induction false} OthersConcat<V>(a: seq<Entry<V>>, b: seq<Entry<V>>, ns: Namespace)
    ensures Others(a + b, ns) == Others(a, ns) + Others(b, ns)
  {
    hide Others;
    if a == [] {
      assert a + b == b;
      OthersNone(a, ns);
    } else {
      var one := if a[0].at.ns == ns then [] else [a[0]];
      OthersConcat(a[1..], b, ns);
      OthersCons(a, ns);
      assert (a + b)[1..] == a[1..] + b;
      OthersCons(a + b, ns);
      assert one + (Others(a[1..], ns) + Others(b, ns)) == (one + Others(a[1..], ns)) + Others(b, ns);
    }
  }

  lemma OthersCons<V>(ll: seq<Entry<V>>, ns: Namespace)
    requires ll != []
    ensures Others(ll, ns) == (if ll[0].at.ns == ns then [] else [ll[0]]) + Others(ll[1..], ns)
  {
  }

  lemma OthersNone<V>(ll: seq<Entry<V>>, ns: Namespace)
    requires ll == []
    ensures Others(ll, ns) == ll
  {
  }

  lemma DropAtIs<V>(ll: seq<Entry<V>>, p: nat)
    requires p < |ll|
    ensures Drop(ll, p)[..p] == ll[..p] && Drop(ll, p)[p..] == ll[p + 1..]
  {
  }

  lemma OthersEnd<V>(ll: seq<Entry<V>>, p: nat, ns: Namespace)
    requires p == |ll|
    ensures ll[..p] + Others(ll[p..], ns) == ll && ll[..p] == ll
  {
  }

  lemma {:induction false} SumOthers<V>(ll: seq<Entry<V>>, ns: Namespace)
    ensures Others(ll, ns) == ll ==> Sum(ll, Some(ns)) == 0
  {
    if ll != [] {
      OthersShorter(ll[1..], ns);
      SumOthers(ll[1..], ns);
      if Others(ll, ns) == ll && ll[0].at.ns != ns {
        assert Others(ll, ns)[1..] == Others(ll[1..], ns);
      }
    }
  }

  lemma {:induction false} OthersShorter<V>(ll: seq<Entry<V>>, ns: Namespace)
    ensures |Others(ll, ns)| <= |ll|
  {
    if ll != [] {
      OthersShorter(ll[1..], ns);
    }
  }

  lemma AccountGives<V>(ll: seq<Entry<V>>, used: nat, usage: map<Namespace, nat>, ns: Namespace)
    requires AccountOk(ll, used, usage)
    ensures UsageOf(usage, ns) == Sum(ll, Some(ns))
  {
  }
}
