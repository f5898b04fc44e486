/** Point lookup in a node file against the fold of the file.

    The read path binary-searches the sorted region and overlays a reverse scan of the append
    region; compaction folds both regions forward. This module says exactly when they agree. */
module NodeLookup {
  import opened Bytes
  import opened NodeFile

  // ----- what each side computes for one key

  function At(m: NodeMap, key: seq<byte>): Option<NodeInfo> {
    if key in m then Some(m[key]) else None
  }

  /** The append-region entries for `key`, oldest first. */
  function Hits(raws: seq<Raw>, key: seq<byte>): (hs: seq<NodeInfo>)
    ensures forall i :: 0 <= i < |hs| ==> hs[i].key == key
  {
    if raws == [] then []
    else (if !IsCommitTag(raws[0]) && DecodeEntry(raws[0]).key == key then [DecodeEntry(raws[0])] else []) + Hits(raws[1..], key)
  }

  /** The fold restricted to one key. */
  function FoldKey(o: Option<NodeInfo>, hs: seq<NodeInfo>): Option<NodeInfo>
    decreases |hs|
  {
    if hs == [] then o
    else
      var e := hs[0];
      FoldKey(if IsTombstone(e) then None else if o.Some? then Some(Merge(o.value, e)) else Some(e), hs[1..])
  }

  lemma {:induction false} FoldUnsortedAt(m: NodeMap, raws: seq<Raw>, key: seq<byte>)
    requires key != []
    ensures At(FoldUnsorted(m, raws), key) == FoldKey(At(m, key), Hits(raws, key))
    decreases |raws|
  {
    hide ApplyUnsorted, Hits, FoldKey;
    if raws != [] {
      var rest := Hits(raws[1..], key);
      FoldUnsortedAt(ApplyUnsorted(m, raws[0]), raws[1..], key);
      HitsFirst(raws, key);
      ApplyAt(m, raws[0], key);
      if IsHit(raws[0], key) {
        FoldKeyCons(At(m, key), DecodeEntry(raws[0]), rest);
      }
    } else {
      HitsNothing(key);
      FoldKeyNothing(At(m, key));
    }
  }

  predicate IsHit(raw: Raw, key: seq<byte>) {
    !IsCommitTag(raw) && DecodeEntry(raw).key == key
  }

  lemma HitsNothing(key: seq<byte>)
    ensures Hits([], key) == []
  {
  }

  lemma HitsFirst(raws: seq<Raw>, key: seq<byte>)
    requires raws != []
    ensures Hits(raws, key) == if IsHit(raws[0], key) then [DecodeEntry(raws[0])] + Hits(raws[1..], key) else Hits(raws[1..], key)
  {
    hide IsCommitTag, DecodeEntry;
  }

  function FoldKeyStep(o: Option<NodeInfo>, e: NodeInfo): Option<NodeInfo> {
    if IsTombstone(e) then None else if o.Some? then Some(Merge(o.value, e)) else Some(e)
  }

  lemma ApplyAt(m: NodeMap, raw: Raw, key: seq<byte>)
    requires key != []
    ensures At(ApplyUnsorted(m, raw), key) == if IsHit(raw, key) then FoldKeyStep(At(m, key), DecodeEntry(raw)) else At(m, key)
  {
    hide IsCommitTag, DecodeEntry, Merge, IsTombstone;
  }

  lemma FoldKeyCons(o: Option<NodeInfo>, e: NodeInfo, hs: seq<NodeInfo>)
    ensures FoldKey(o, [e] + hs) == FoldKey(FoldKeyStep(o, e), hs)
  {
    hide Merge, IsTombstone;
    assert ([e] + hs)[1..] == hs;
  }

  predicate HasTombstone(hs: seq<NodeInfo>) {
    exists i :: 0 <= i < |hs| && IsTombstone(hs[i])
  }

  /** Newest entry carrying storage, and newest entry without. */
  function LastStorage(hs: seq<NodeInfo>): (r: Option<NodeInfo>)
  {
    if hs == [] then None
    else if LastStorage(hs[1..]).Some? then LastStorage(hs[1..])
    else if HasStorage(hs[0]) then Some(hs[0]) else None
  }

  function LastAccount(hs: seq<NodeInfo>): (r: Option<NodeInfo>)
  {
    if hs == [] then None
    else if LastAccount(hs[1..]).Some? then LastAccount(hs[1..])
    else if !HasStorage(hs[0]) then Some(hs[0]) else None
  }

  function Overlay(base: Option<NodeInfo>, next: NodeInfo): NodeInfo {
    if base.Some? then Merge(base.value, next) else next
  }

  /** What `getFromFileNodeWithBreakdown` answers from the sorted hit and the append-region hits. */
  function ReadAnswer(s: Option<NodeInfo>, hs: seq<NodeInfo>): Option<NodeInfo> {
    if HasTombstone(hs) then None
    else if LastStorage(hs).Some? then
      var m := Overlay(s, LastStorage(hs).value);
      Some(if LastAccount(hs).Some? then Merge(LastAccount(hs).value, m) else m)
    else if LastAccount(hs).Some? then Some(Overlay(s, LastAccount(hs).value))
    else s
  }

  /** What a read answers, whatever the entries: nothing after any tombstone, the storage and account
      offset of the newest storage entry, else the newest account entry over the sorted hit. */
  lemma ReadAnswerIs(s: Option<NodeInfo>, hs: seq<NodeInfo>)
    ensures hs == [] ==> ReadAnswer(s, hs) == s
    ensures (exists i :: 0 <= i < |hs| && hs[i] == NodeInfo(hs[i].key, 0, 0, 0, 0, 0)) ==> ReadAnswer(s, hs) == None
    ensures forall i :: 0 <= i < |hs| && StorageOf(hs[i]) != (0, 0, 0) && (forall j :: i < j < |hs| ==> StorageOf(hs[j]) == (0, 0, 0)) &&
                        (forall j :: 0 <= j < |hs| ==> hs[j] != NodeInfo(hs[j].key, 0, 0, 0, 0, 0)) ==>
                        var r := ReadAnswer(s, hs);
                        r.Some? && StorageOf(r.value) == StorageOf(hs[i]) && r.value.accountOffset == hs[i].accountOffset
    ensures hs != [] && (forall j :: 0 <= j < |hs| ==> StorageOf(hs[j]) == (0, 0, 0) && hs[j] != NodeInfo(hs[j].key, 0, 0, 0, 0, 0)) ==>
              var r, last, kept := ReadAnswer(s, hs), hs[|hs| - 1].accountOffset, s.Some? && StorageOf(s.value) != (0, 0, 0);
              && r.Some? && StorageOf(r.value) == (if kept then StorageOf(s.value) else (0, 0, 0))
              && r.value.accountOffset == if kept && last < s.value.accountOffset then s.value.accountOffset else last
  {
    hide LastStorage, LastAccount;
    assert forall j :: 0 <= j < |hs| ==> (IsTombstone(hs[j]) <==> hs[j] == NodeInfo(hs[j].key, 0, 0, 0, 0, 0));
    LastStorageIs(hs);
    if LastStorage(hs).None? {
      NoStorage(hs);
    }
  }

  function StorageOf(e: NodeInfo): (u32, u64, u64) {
    (e.storageFileId, e.storageOffset, e.storageSize)
  }

  lemma {:induction false} LastStorageIs(hs: seq<NodeInfo>)
    ensures LastStorage(hs).None? <==> forall i :: 0 <= i < |hs| ==> StorageOf(hs[i]) == (0, 0, 0)
    ensures forall i :: 0 <= i < |hs| && StorageOf(hs[i]) != (0, 0, 0) && (forall j :: i < j < |hs| ==> StorageOf(hs[j]) == (0, 0, 0)) ==>
                        LastStorage(hs) == Some(hs[i])
    ensures LastStorage(hs).Some? ==> HasStorage(LastStorage(hs).value)
  {
    if hs != [] {
      var rest := hs[1..];
      LastStorageIs(rest);
      assert forall i :: 0 <= i < |rest| ==> rest[i] == hs[i + 1];
      forall i | 0 <= i < |hs| && StorageOf(hs[i]) != (0, 0, 0) && (forall j :: i < j < |hs| ==> StorageOf(hs[j]) == (0, 0, 0))
        ensures LastStorage(hs) == Some(hs[i])
      {
        if i > 0 {
          assert rest[i - 1] == hs[i];
        }
      }
    }
  }

  // ----- exactly when they agree

  /** An entry without an account record has neither offset nor size. */
  predicate Sound(e: NodeInfo) {
    e.accountSize == 0 <==> e.accountOffset == 0
  }

  predicate AllSound(hs: seq<NodeInfo>) {
    forall i :: 0 <= i < |hs| ==> Sound(hs[i])
  }

  function TailAfterStorage(hs: seq<NodeInfo>): (t: seq<NodeInfo>)
    ensures |t| <= |hs|
  {
    if hs == [] || LastStorage(hs).None? then hs
    else if LastStorage(hs[1..]).Some? then TailAfterStorage(hs[1..])
    else hs[1..]
  }

  predicate NoneAbove(hs: seq<NodeInfo>, off: int) {
    forall i :: 0 <= i < |hs| ==> hs[i].accountOffset <= off
  }

  datatype Account = Account(offset: u64, size: u32)

  function AccountOf(e: NodeInfo): Account {
    Account(e.accountOffset, e.accountSize)
  }

  /** The account record with the largest offset, and the newest of those with equal offsets. */
  function Newest(a: Account, hs: seq<NodeInfo>): (r: Account)
    ensures a.offset <= r.offset && NoneAbove(hs, r.offset)
    ensures r == a || exists i :: 0 <= i < |hs| && AccountOf(hs[i]) == r
    decreases |hs|
  {
    if hs == [] then a
    else Newest(if hs[0].accountOffset < a.offset then a else AccountOf(hs[0]), hs[1..])
  }

  /** The condition, read off the stored entries: a tombstone is the newest entry if there is one;
      nothing newer than the newest storage entry has an account record that takes the place of its
      own; and without a storage entry in the append region, the record that wins is at one of the
      ends of the history. */
  predicate ReadsLikeFold(s: Option<NodeInfo>, hs: seq<NodeInfo>) {
    if HasTombstone(hs) then IsTombstone(hs[|hs| - 1])
    else if LastStorage(hs).Some? then
      var own := AccountOf(LastStorage(hs).value);
      Newest(own, TailAfterStorage(hs)) == own
    else if hs != [] && s.Some? && HasStorage(s.value) then
      Newest(AccountOf(s.value), hs) == LaterEnd(s.value, hs[|hs| - 1])
    else true
  }

  function LaterEnd(first: NodeInfo, last: NodeInfo): Account {
    if last.accountOffset < first.accountOffset then AccountOf(first) else AccountOf(last)
  }

  /** A storage entry hides everything before it. */
  lemma MergeStorage(p: NodeInfo, e: NodeInfo)
    requires Sound(p) && Sound(e) && HasStorage(e)
    ensures Merge(p, e) == e
  {
  }

  function WithAccount(p: NodeInfo, a: Account): NodeInfo {
    p.(accountOffset := a.offset, accountSize := a.size)
  }

  /** An account-only entry over a storage entry moves its account record, or does nothing. */
  lemma MergeAccount(p: NodeInfo, e: NodeInfo)
    requires Sound(p) && Sound(e) && HasStorage(p) && !HasStorage(e) && !IsTombstone(e) && e.key == p.key
    ensures Merge(p, e) == WithAccount(p, LaterEnd(p, e)) && Sound(Merge(p, e)) && HasStorage(Merge(p, e))
  {
  }

  /** Account-only entries after a storage entry keep its storage and the newest account record. */
  lemma {:induction false} FoldKeyAfterStorage(p: NodeInfo, hs: seq<NodeInfo>)
    requires HasStorage(p) && Sound(p) && AllSound(hs)
    requires forall i :: 0 <= i < |hs| ==> hs[i].key == p.key && !HasStorage(hs[i]) && !IsTombstone(hs[i])
    ensures FoldKey(Some(p), hs) == Some(WithAccount(p, Newest(AccountOf(p), hs)))
    decreases |hs|
  {
    hide Merge, IsTombstone, HasStorage;
    if hs != [] {
      MergeAccount(p, hs[0]);
      FoldKeyAfterStorage(Merge(p, hs[0]), hs[1..]);
    }
  }

  /** Account-only entries over nothing, or over an account-only entry: the newest one. */
  lemma {:induction false} FoldKeyNoStorage(o: Option<NodeInfo>, hs: seq<NodeInfo>)
    requires hs != [] && AllSound(hs)
    requires o.Some? ==> !HasStorage(o.value) && Sound(o.value)
    requires forall i :: 0 <= i < |hs| ==> !HasStorage(hs[i]) && !IsTombstone(hs[i])
    ensures FoldKey(o, hs) == Some(hs[|hs| - 1])
    decreases |hs|
  {
    var o' := if o.Some? then Some(Merge(o.value, hs[0])) else Some(hs[0]);
    assert o' == Some(hs[0]);
    if |hs| == 1 {
      assert hs[1..] == [];
    } else {
      FoldKeyNoStorage(o', hs[1..]);
    }
  }

  /** Folding up to the newest storage entry gives that entry. */
  lemma {:induction false} FoldKeyStorage(o: Option<NodeInfo>, hs: seq<NodeInfo>)
    requires AllSound(hs) && !HasTombstone(hs) && LastStorage(hs).Some?
    requires o.Some? ==> Sound(o.value)
    ensures FoldKey(o, hs) == FoldKey(LastStorage(hs), TailAfterStorage(hs))
    ensures forall i :: 0 <= i < |TailAfterStorage(hs)| ==> !HasStorage(TailAfterStorage(hs)[i]) && TailAfterStorage(hs)[i] in hs
    ensures LastStorage(hs).value in hs && HasStorage(LastStorage(hs).value)
    decreases |hs|
  {
    var rest := hs[1..];
    var o' := if o.Some? then Some(Merge(o.value, hs[0])) else Some(hs[0]);
    assert !IsTombstone(hs[0]) && !HasTombstone(rest) && (forall i :: 0 <= i < |rest| ==> rest[i] == hs[i + 1]);
    if LastStorage(rest).Some? {
      assert Sound(o'.value);
      FoldKeyStorage(o', rest);
    } else {
      if o.Some? { MergeStorage(o.value, hs[0]); }
      NoStorage(rest);
    }
  }

  lemma {:induction false} NoStorage(hs: seq<NodeInfo>)
    requires LastStorage(hs).None?
    ensures forall i :: 0 <= i < |hs| ==> !HasStorage(hs[i])
    ensures LastAccount(hs) == if hs == [] then None else Some(hs[|hs| - 1])
  {
    if hs != [] {
      NoStorage(hs[1..]);
      if |hs| == 1 { assert hs[1..] == []; }
    }
  }

  lemma {:induction false} LastAccountSound(hs: seq<NodeInfo>)
    requires AllSound(hs)
    ensures LastAccount(hs).Some? ==> Sound(LastAccount(hs).value)
  {
    if hs != [] {
      LastAccountSound(hs[1..]);
    }
  }

  /** Whether the fold of a history is absent is decided by its newest entry. */
  lemma {:induction false} FoldKeyAbsent(o: Option<NodeInfo>, hs: seq<NodeInfo>)
    requires hs != []
    ensures FoldKey(o, hs).None? <==> IsTombstone(hs[|hs| - 1])
    decreases |hs|
  {
    hide Merge;
    if |hs| == 1 {
      assert hs[1..] == [];
    } else {
      FoldKeyAbsent(if IsTombstone(hs[0]) then None else if o.Some? then Some(Merge(o.value, hs[0])) else Some(hs[0]), hs[1..]);
    }
  }

  /** The read path and the fold agree on a key if and only if the condition holds. */
  lemma ReadMatchesFoldIff(s: Option<NodeInfo>, hs: seq<NodeInfo>, key: seq<byte>)
    requires s.Some? ==> s.value.key == key && Sound(s.value) && !IsTombstone(s.value)
    requires AllSound(hs) && forall i :: 0 <= i < |hs| ==> hs[i].key == key
    ensures ReadAnswer(s, hs) == FoldKey(s, hs) <==> ReadsLikeFold(s, hs)
  {
    hide FoldKey, LastStorage, LastAccount, TailAfterStorage, Newest;
    if HasTombstone(hs) {
      FoldKeyAbsent(s, hs);
    } else if LastStorage(hs).Some? {
      ReadMatchesWithStorage(s, hs, key);
    } else if hs == [] {
      assert FoldKey(s, hs) == s by { FoldKeyNothing(s); }
      NoStorage(hs);
    } else {
      NoStorage(hs);
      var last := hs[|hs| - 1];
      if s.Some? && HasStorage(s.value) {
        FoldKeyAfterStorage(s.value, hs);
        MergeAccount(s.value, last);
      } else {
        FoldKeyNoStorage(s, hs);
      }
    }
  }

  lemma FoldKeyNothing(o: Option<NodeInfo>)
    ensures FoldKey(o, []) == o
  {
  }

  lemma ReadMatchesWithStorage(s: Option<NodeInfo>, hs: seq<NodeInfo>, key: seq<byte>)
    requires s.Some? ==> Sound(s.value)
    requires AllSound(hs) && forall i :: 0 <= i < |hs| ==> hs[i].key == key
    requires !HasTombstone(hs) && LastStorage(hs).Some?
    ensures ReadAnswer(s, hs) == FoldKey(s, hs) <==> ReadsLikeFold(s, hs)
  {
    hide FoldKey, LastStorage, LastAccount, TailAfterStorage, Newest;
    var ls, tail := LastStorage(hs).value, TailAfterStorage(hs);
    FoldKeyStorage(s, hs);
    LastAccountSound(hs);
    if s.Some? { MergeStorage(s.value, ls); }
    if LastAccount(hs).Some? { MergeStorage(LastAccount(hs).value, ls); }
    assert ReadAnswer(s, hs) == Some(ls);
    FoldKeyAfterStorage(ls, tail);
  }

  /** Histories with trailing tombstones, no account-only entry after a storage entry, and account
      offsets that never decrease are read correctly. */
  lemma OrderlyHistoriesRead(s: Option<NodeInfo>, hs: seq<NodeInfo>)
    requires forall i, j :: 0 <= i < j < |hs| && IsTombstone(hs[i]) ==> IsTombstone(hs[j])
    requires forall i, j :: 0 <= i < j < |hs| && HasStorage(hs[i]) ==> HasStorage(hs[j])
    requires forall i, j :: 0 <= i < j < |hs| ==> hs[i].accountOffset <= hs[j].accountOffset
    ensures ReadsLikeFold(s, hs)
  {
    if !HasTombstone(hs) && LastStorage(hs).Some? {
      OrderlyTail(hs);
    } else if hs != [] && s.Some? {
      OrderlyNewest(s.value, hs);
    }
  }

  lemma {:induction false} OrderlyNewest(first: NodeInfo, hs: seq<NodeInfo>)
    requires hs != [] && forall i, j :: 0 <= i < j < |hs| ==> hs[i].accountOffset <= hs[j].accountOffset
    ensures Newest(AccountOf(first), hs) == LaterEnd(first, hs[|hs| - 1])
    decreases |hs|
  {
    if |hs| > 1 {
      OrderlyNewest(if hs[0].accountOffset < first.accountOffset then first else hs[0], hs[1..]);
    } else {
      assert hs[1..] == [];
    }
  }

  lemma {:induction false} OrderlyTail(hs: seq<NodeInfo>)
    requires LastStorage(hs).Some?
    requires forall i, j :: 0 <= i < j < |hs| && HasStorage(hs[i]) ==> HasStorage(hs[j])
    ensures TailAfterStorage(hs) == []
  {
    var rest := hs[1..];
    if LastStorage(rest).Some? {
      OrderlyTail(rest);
    } else if rest != [] {
      assert rest[0] == hs[1];
      NoStorage(rest);
    }
  }

  /** A key deleted and then written again is reported absent until the next compaction. */
  lemma RecreatedKeyIsMissed()
    ensures var k: seq<byte> := [7];
            var put := NodeInfo(k, 10, 4, 0, 0, 0);
            var hs := [NodeInfo(k, 0, 0, 0, 0, 0), put];
            ReadAnswer(None, hs) == None && FoldKey(None, hs) == Some(put)
  {
    var k: seq<byte> := [7];
    var put := NodeInfo(k, 10, 4, 0, 0, 0);
    var hs := [NodeInfo(k, 0, 0, 0, 0, 0), put];
    assert IsTombstone(hs[0]);
    assert hs[1..] == [put] && [put][1..] == [];
    assert FoldKey(None, [put]) == FoldKey(Some(put), []);
  }

  /** An account update written after a storage update is not seen until the next compaction. */
  lemma AccountUpdateAfterStorageIsMissed()
    ensures var k: seq<byte> := [7];
            var hs := [NodeInfo(k, 10, 4, 1, 0, 8), NodeInfo(k, 20, 4, 0, 0, 0)];
            ReadAnswer(None, hs).Some? && ReadAnswer(None, hs).value.accountOffset == 10 &&
            FoldKey(None, hs).Some? && FoldKey(None, hs).value.accountOffset == 20
  {
    var k: seq<byte> := [7];
    var a, b := NodeInfo(k, 10, 4, 1, 0, 8), NodeInfo(k, 20, 4, 0, 0, 0);
    var hs := [a, b];
    assert hs[1..] == [b] && [b][1..] == [];
    assert LastStorage([b]) == None && LastStorage(hs) == Some(a);
    assert LastAccount([b]) == Some(b) && LastAccount(hs) == Some(b);
    assert FoldKey(None, hs) == FoldKey(Some(a), [b]) == FoldKey(Some(Merge(a, b)), []);
  }

  // ----- the search loops

  predicate KeysAscending(raws: seq<Raw>) {
    forall i, j :: 0 <= i < j < |raws| ==> Less(DecodeEntry(raws[i]).key, DecodeEntry(raws[j]).key)
  }

  predicate NoTags(raws: seq<Raw>) {
    forall i :: 0 <= i < |raws| ==> !IsCommitTag(raws[i])
  }

  /** `findNodeInfoInSortedSlice`: binary search, or a linear one if a tag is present. */
  method FindInSorted(sortedSlice: seq<byte>, key: seq<byte>) returns (r: Option<NodeInfo>)
    requires NoTags(Chunk(sortedSlice)) ==> KeysAscending(Chunk(sortedSlice))
    ensures var raws := Chunk(sortedSlice);
            r.Some? ==> r.value.key == key && exists i :: 0 <= i < |raws| && !IsCommitTag(raws[i]) && DecodeEntry(raws[i]) == r.value
    ensures var raws := Chunk(sortedSlice);
            r.None? ==> forall i :: 0 <= i < |raws| && !IsCommitTag(raws[i]) ==> DecodeEntry(raws[i]).key != key
  {
    hide IsCommitTag, DecodeEntry, Less;
    var n := |sortedSlice| / ENTRY_SIZE;
    ghost var raws := Chunk(sortedSlice);
    if n == 0 {
      return None;
    }
    var hasTag := false;
    for i := 0 to n
      invariant !hasTag ==> forall j :: 0 <= j < i ==> !IsCommitTag(raws[j])
    {
      if IsCommitTag(sortedSlice[i * ENTRY_SIZE..(i + 1) * ENTRY_SIZE]) {
        hasTag := true;
        break;
      }
    }
    if hasTag {
      for i := 0 to n
        invariant forall j :: 0 <= j < i && !IsCommitTag(raws[j]) ==> DecodeEntry(raws[j]).key != key
      {
        var entry := sortedSlice[i * ENTRY_SIZE..(i + 1) * ENTRY_SIZE];
        assert entry == raws[i];
        if !IsCommitTag(entry) {
          var dec := DecodeEntry(entry);
          if dec.key == key {
            return Some(dec);
          }
        }
      }
      return None;
    }
    r := BinarySearch(sortedSlice, n, key);
  }

  method BinarySearch(sortedSlice: seq<byte>, n: nat, key: seq<byte>) returns (r: Option<NodeInfo>)
    requires n == |sortedSlice| / ENTRY_SIZE > 0
    requires KeysAscending(Chunk(sortedSlice))
    ensures var raws := Chunk(sortedSlice);
            r.Some? ==> r.value.key == key && exists i :: 0 <= i < |raws| && DecodeEntry(raws[i]) == r.value
    ensures var raws := Chunk(sortedSlice);
            r.None? ==> forall i :: 0 <= i < |raws| ==> DecodeEntry(raws[i]).key != key
  {
    hide IsCommitTag, DecodeEntry, Less;
    ghost var raws := Chunk(sortedSlice);
    var low, high := 0, n - 1;
    while low <= high
      invariant 0 <= low <= n && -1 <= high < n
      invariant forall i :: 0 <= i < low ==> Less(DecodeEntry(raws[i]).key, key)
      invariant forall i :: high < i < n ==> Less(key, DecodeEntry(raws[i]).key)
      decreases high - low + 1
    {
      var mid := (low + high) / 2;
      var dec := DecodeEntry(sortedSlice[mid * ENTRY_SIZE..(mid + 1) * ENTRY_SIZE]);
      assert dec == DecodeEntry(raws[mid]);
      if dec.key == key {
        return Some(dec);
      }
      LessTrichotomy(dec.key, key);
      if Less(dec.key, key) {
        forall i | 0 <= i < mid ensures Less(DecodeEntry(raws[i]).key, key) { LessTransitive(DecodeEntry(raws[i]).key, dec.key, key); }
        low := mid + 1;
      } else {
        forall i | mid < i < n ensures Less(key, DecodeEntry(raws[i]).key) { LessTransitive(key, dec.key, DecodeEntry(raws[i]).key); }
        high := mid - 1;
        if mid == 0 {
          break;
        }
      }
    }
    forall i | 0 <= i < |raws| ensures DecodeEntry(raws[i]).key != key {
      LessTrichotomy(DecodeEntry(raws[i]).key, key);
    }
    r := None;
  }

  /** A sorted region as compaction writes it. */
  ghost predicate SortedRegion(raws: seq<Raw>) {
    && KeysAscending(raws) && NoTags(raws)
    && forall i :: 0 <= i < |raws| ==> DecodeEntry(raws[i]).key != [] && !IsTombstone(DecodeEntry(raws[i]))
  }

  lemma ListingIsSortedRegion(es: seq<NodeInfo>, m: NodeMap)
    requires Lists(es, m) && Stored(m)
    ensures SortedRegion(EncodeEntries(es))
  {
    hide IsCommitTag, DecodeEntry, EncodeEntry, AsMap, IsTombstone, Less;
    AsMapEntries(es);
    var raws := EncodeEntries(es);
    forall i | 0 <= i < |raws| ensures DecodeEntry(raws[i]) == es[i] && !IsCommitTag(raws[i]) {
      DecodeEncode(es[i]);
      EntryIsNotTag(es[i]);
    }
  }

  /** In a sorted region the fold finds a key exactly where it is stored. */
  lemma {:induction false} FoldSortedAt(m: NodeMap, raws: seq<Raw>, key: seq<byte>)
    requires SortedRegion(raws)
    ensures (forall i :: 0 <= i < |raws| ==> DecodeEntry(raws[i]).key != key) ==> At(FoldSorted(m, raws), key) == At(m, key)
    ensures forall i :: 0 <= i < |raws| && DecodeEntry(raws[i]).key == key ==> At(FoldSorted(m, raws), key) == Some(DecodeEntry(raws[i]))
    decreases |raws|
  {
    hide IsCommitTag, DecodeEntry, IsTombstone, Less;
    if raws != [] {
      var rest := raws[1..];
      assert forall i :: 0 <= i < |rest| ==> rest[i] == raws[i + 1];
      FoldSortedAt(ApplySorted(m, raws[0]), rest, key);
      if DecodeEntry(raws[0]).key == key {
        forall i | 1 <= i < |raws| ensures DecodeEntry(raws[i]).key != key { LessTrichotomy(key, DecodeEntry(raws[i]).key); }
      }
      forall i | 0 <= i < |raws| && DecodeEntry(raws[i]).key == key ensures At(FoldSorted(m, raws), key) == Some(DecodeEntry(raws[i])) {
        if i > 0 { assert rest[i - 1] == raws[i]; }
      }
    }
  }

  /** The reverse scan, newest entry first. */
  method ScanBack(unsortedSlice: seq<byte>, key: seq<byte>) returns (deleted: bool, storage: Option<NodeInfo>, account: Option<NodeInfo>)
    ensures var hs := Hits(Chunk(unsortedSlice), key);
            deleted == HasTombstone(hs) && (!deleted ==> storage == LastStorage(hs) && account == LastAccount(hs))
  {
    hide IsCommitTag, DecodeEntry, IsTombstone, HasStorage;
    deleted, storage, account := false, None, None;
    ghost var raws := Chunk(unsortedSlice);
    var n := |unsortedSlice| / ENTRY_SIZE;
    assert raws[n..] == [];
    var idx := n;
    while idx > 0
      invariant 0 <= idx <= n
      invariant var hs := Hits(raws[idx..], key);
                !HasTombstone(hs) && storage == LastStorage(hs) && account == LastAccount(hs)
    {
      idx := idx - 1;
      var entry := unsortedSlice[idx * ENTRY_SIZE..(idx + 1) * ENTRY_SIZE];
      assert entry == raws[idx];
      HitsCons(raws, idx, key);
      if !IsCommitTag(entry) {
        var dec := DecodeEntry(entry);
        if dec.key == key {
          ConsHits(dec, Hits(raws[idx + 1..], key));
          if IsTombstone(dec) {
            TombstoneKept(raws, idx, key);
            return true, None, None;
          }
          if HasStorage(dec) {
            if storage.None? { storage := Some(dec); }
          } else if account.None? {
            account := Some(dec);
          }
        }
      }
    }
    assert raws[0..] == raws;
  }

  lemma HitsCons(raws: seq<Raw>, idx: nat, key: seq<byte>)
    requires idx < |raws|
    ensures Hits(raws[idx..], key) ==
      if !IsCommitTag(raws[idx]) && DecodeEntry(raws[idx]).key == key then [DecodeEntry(raws[idx])] + Hits(raws[idx + 1..], key)
      else Hits(raws[idx + 1..], key)
  {
    hide IsCommitTag, DecodeEntry;
    assert raws[idx..][0] == raws[idx] && raws[idx..][1..] == raws[idx + 1..];
  }

  lemma ConsHits(e: NodeInfo, hs: seq<NodeInfo>)
    ensures var all := [e] + hs;
            && (HasTombstone(all) <==> IsTombstone(e) || HasTombstone(hs))
            && LastStorage(all) == (if LastStorage(hs).Some? then LastStorage(hs) else if HasStorage(e) then Some(e) else None)
            && LastAccount(all) == (if LastAccount(hs).Some? then LastAccount(hs) else if !HasStorage(e) then Some(e) else None)
  {
    hide IsTombstone, HasStorage;
    var all := [e] + hs;
    assert all[0] == e && all[1..] == hs;
    if HasTombstone(hs) {
      var i :| 0 <= i < |hs| && IsTombstone(hs[i]);
      assert IsTombstone(all[i + 1]);
    }
    if HasTombstone(all) {
      var i :| 0 <= i < |all| && IsTombstone(all[i]);
      assert i == 0 || IsTombstone(hs[i - 1]);
    }
  }

  /** A tombstone met by the reverse scan is a tombstone of the whole region. */
  lemma {:induction false} TombstoneKept(raws: seq<Raw>, idx: nat, key: seq<byte>)
    requires idx <= |raws| && HasTombstone(Hits(raws[idx..], key))
    ensures HasTombstone(Hits(raws, key))
    decreases idx
  {
    hide IsCommitTag, DecodeEntry, IsTombstone, HasTombstone;
    if idx == 0 {
      assert raws[0..] == raws;
    } else {
      HitsCons(raws, idx - 1, key);
      ConsHits(DecodeEntry(raws[idx - 1]), Hits(raws[idx..], key));
      TombstoneKept(raws, idx - 1, key);
    }
  }

  /** `getFromFileNodeWithBreakdown` on a file's two regions: it returns the folded entry exactly
      when the stored history meets the condition. Longer keys are truncated, as they are when stored. */
  method Lookup(sortedSlice: seq<byte>, unsortedSlice: seq<byte>, longKey: seq<byte>) returns (r: Option<NodeInfo>)
    requires longKey != [] && SortedRegion(Chunk(sortedSlice))
    ensures var key := TruncateKey(longKey);
            var s, hs := At(FoldSorted(map[], Chunk(sortedSlice)), key), Hits(Chunk(unsortedSlice), key);
            && r == ReadAnswer(s, hs)
            && (AllSound(hs) && (s.Some? ==> Sound(s.value)) ==>
                  (r == At(Fold(Chunk(sortedSlice), Chunk(unsortedSlice)), key) <==> ReadsLikeFold(s, hs)))
  {
    hide IsCommitTag, DecodeEntry, IsTombstone, HasStorage, Merge, FoldSorted, FoldUnsorted, Chunk, Hits, HasTombstone,
         LastStorage, LastAccount, TruncateKey, KeysAscending, ReadsLikeFold, FoldKey, Sound, AllSound;
    var key := TruncateKey(longKey);
    ghost var sorted, hs := Chunk(sortedSlice), Hits(Chunk(unsortedSlice), key);
    var deleted, storage, account := ScanBack(unsortedSlice, key);
    var s := FindInSorted(sortedSlice, key);
    if s.Some? && IsTombstone(s.value) {
      s := None;
    }
    FoldSortedAt(map[], sorted, key);
    FoldUnsortedAt(FoldSorted(map[], sorted), Chunk(unsortedSlice), key);
    if AllSound(hs) && (s.Some? ==> Sound(s.value)) {
      ReadMatchesFoldIff(s, hs, key);
    }
    if deleted {
      r := None;
    } else if storage.Some? {
      var merged := Overlay(s, storage.value);
      r := Some(if account.Some? then Merge(account.value, merged) else merged);
    } else if account.Some? {
      r := Some(Overlay(s, account.value));
    } else {
      r := s;
    }
  }
}
