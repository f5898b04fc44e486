/** Chunk metadata of a segmented storage folder: the flat and the two-level on-disk index, and the
    three ways of selecting the chunk that covers a key. */
module SegmentIndex {
  import opened Bytes

  type Key = seq<byte>

  const KEY_START_MAX := 32
  const KEY_FIELD := 33
  const FLAT_ENTRY := 37
  const TOP_ENTRY := 41
  const FLAT_MAGIC: u32 := 0x464c4958
  const MULTI_MAGIC: u32 := 0x4d4c4958
  const FORMAT_VERSION: u16 := 3

  /** A chunk file, by its ordinal, and the first key of its range. */
  datatype Meta = Meta(file: u32, start: Key)

  // ----- order

  function Digits(n: nat): seq<byte> {
    if n < 10 then [0x30 + n] else Digits(n / 10) + [0x30 + n % 10]
  }

  /** `chunkFileNameForOrdinal`: at least four decimal digits and `.dat`. */
  function FileName(n: u32): seq<byte> {
    var d := Digits(n);
    (if |d| < 4 then seq(4 - |d|, _ => 0x30) else []) + d + [0x2e, 0x64, 0x61, 0x74]
  }

  /** `0007.dat`, `4096.dat` and `12345.dat`. */
  lemma FileNameExample()
    ensures FileName(7) == [0x30, 0x30, 0x30, 0x37, 0x2e, 0x64, 0x61, 0x74]
    ensures FileName(4096) == [0x34, 0x30, 0x39, 0x36, 0x2e, 0x64, 0x61, 0x74]
    ensures FileName(12345) == [0x31, 0x32, 0x33, 0x34, 0x35, 0x2e, 0x64, 0x61, 0x74]
  {
    assert Digits(4) == [0x34] && Digits(40) == [0x34, 0x30] && Digits(409) == [0x34, 0x30, 0x39];
    assert Digits(1) == [0x31] && Digits(12) == [0x31, 0x32] && Digits(123) == [0x31, 0x32, 0x33] && Digits(1234) == [0x31, 0x32, 0x33, 0x34];
  }

  predicate LessMeta(a: Meta, b: Meta) {
    Less(a.start, b.start) || (a.start == b.start && Less(FileName(a.file), FileName(b.file)))
  }

  /** No element is less than one before it. */
  ghost predicate OrderedBy<T>(less: (T, T) -> bool, s: seq<T>) {
    forall i, j :: 0 <= i < j < |s| ==> !less(s[j], s[i])
  }

  ghost predicate StrictWeak<T(!new)>(less: (T, T) -> bool) {
    && (forall a, b :: less(a, b) ==> !less(b, a))
    && (forall a, b, c :: !less(b, a) && !less(c, b) ==> !less(c, a))
  }

  ghost predicate Ordered(ms: seq<Meta>) {
    OrderedBy(LessMeta, ms)
  }

  lemma NotLessTransitive(a: Meta, b: Meta, c: Meta)
    requires !LessMeta(b, a) && !LessMeta(c, b)
    ensures !LessMeta(c, a)
  {
    hide Less, FileName;
    LessTrichotomy(a.start, b.start);
    LessTrichotomy(b.start, c.start);
    LessTrichotomy(a.start, c.start);
    var x, y, z := FileName(a.file), FileName(b.file), FileName(c.file);
    LessTrichotomy(x, y);
    LessTrichotomy(y, z);
    LessTrichotomy(x, z);
    if Less(a.start, b.start) || Less(b.start, c.start) {
      LeqTransitive(a.start, b.start, c.start);
    } else {
      LeqTransitive(x, y, z);
    }
  }

  ghost predicate StartsSorted(ms: seq<Meta>) {
    forall i, j :: 0 <= i < j < |ms| ==> Leq(ms[i].start, ms[j].start)
  }

  lemma OrderedStarts(ms: seq<Meta>)
    requires Ordered(ms)
    ensures StartsSorted(ms)
  {
    hide Less, FileName;
    forall i, j | 0 <= i < j < |ms| ensures Leq(ms[i].start, ms[j].start) {
      LessTrichotomy(ms[i].start, ms[j].start);
    }
  }

  lemma MetaOrder()
    ensures StrictWeak(LessMeta)
  {
    hide LessMeta;
    forall a, b | LessMeta(a, b) ensures !LessMeta(b, a) {
      Antisymmetric(a, b);
    }
    forall a, b, c | !LessMeta(b, a) && !LessMeta(c, b) ensures !LessMeta(c, a) {
      NotLessTransitive(a, b, c);
    }
  }

  lemma Antisymmetric(a: Meta, b: Meta)
    requires LessMeta(a, b)
    ensures !LessMeta(b, a)
  {
    LessTrichotomy(a.start, b.start);
    LessTrichotomy(FileName(a.file), FileName(b.file));
  }

  /** `isSegmentChunkMetasOrdered`, `isSegmentIndexL1EntriesOrdered`: neighbours suffice. */
  method IsOrdered<T(!new)>(less: (T, T) -> bool, s: seq<T>) returns (ok: bool)
    requires StrictWeak(less)
    ensures ok <==> OrderedBy(less, s)
  {
    if |s| <= 1 {
      return true;
    }
    for i := 1 to |s|
      invariant OrderedBy(less, s[..i])
    {
      if less(s[i], s[i - 1]) {
        return false;
      }
      forall j | 0 <= j < i ensures !less(s[i], s[j]) {
        if j < i - 1 {
          assert !less(s[..i][i - 1], s[..i][j]);
        }
      }
    }
    assert s[..|s|] == s;
    ok := true;
  }

  /** `normalizeSegmentChunkMetasOrder`, `normalizeSegmentIndexL1EntriesOrder`; the library sort is
      stood for by insertion. */
  method Normalize<T(!new,==)>(less: (T, T) -> bool, s: seq<T>) returns (r: seq<T>)
    requires StrictWeak(less)
    ensures OrderedBy(less, r) && multiset(r) == multiset(s)
    ensures OrderedBy(less, s) ==> r == s
  {
    var ok := IsOrdered(less, s);
    if ok {
      return s;
    }
    r := [];
    for i := 0 to |s|
      invariant OrderedBy(less, r) && multiset(r) == multiset(s[..i])
    {
      assert s[..i + 1] == s[..i] + [s[i]];
      r := Insert(less, r, s[i]);
    }
    assert s[..|s|] == s;
  }

  method Insert<T(!new,==)>(less: (T, T) -> bool, s: seq<T>, m: T) returns (r: seq<T>)
    requires StrictWeak(less) && OrderedBy(less, s)
    ensures OrderedBy(less, r) && multiset(r) == multiset(s) + multiset{m}
  {
    var i := |s|;
    while i > 0 && less(m, s[i - 1])
      invariant 0 <= i <= |s|
      invariant forall j :: i <= j < |s| ==> less(m, s[j])
    {
      i := i - 1;
    }
    r := s[..i] + [m] + s[i..];
    InsertedAt(less, s, i, m);
  }

  lemma InsertedAt<T(!new)>(less: (T, T) -> bool, s: seq<T>, i: nat, m: T)
    requires StrictWeak(less) && OrderedBy(less, s) && i <= |s|
    requires (i > 0 ==> !less(m, s[i - 1])) && forall j :: i <= j < |s| ==> less(m, s[j])
    ensures OrderedBy(less, s[..i] + [m] + s[i..]) && multiset(s[..i] + [m] + s[i..]) == multiset(s) + multiset{m}
  {
    hide OrderedBy, StrictWeak;
    var a, b := s[..i], s[i..];
    assert s == a + b;
    NoneAboveNew(less, s, i, m);
    NoneBelowNew(less, s, i, m);
    Inserted(less, a, m, b);
    assert multiset(a + [m] + b) == multiset(a) + multiset{m} + multiset(b);
  }

  lemma NoneAboveNew<T(!new)>(less: (T, T) -> bool, s: seq<T>, i: nat, m: T)
    requires StrictWeak(less) && OrderedBy(less, s) && i <= |s| && (i > 0 ==> !less(m, s[i - 1]))
    ensures forall j :: 0 <= j < |s[..i]| ==> !less(m, s[..i][j])
  {
    forall j | 0 <= j < i ensures !less(m, s[j]) {
      assert j < i - 1 ==> !less(s[i - 1], s[j]);
    }
  }

  lemma NoneBelowNew<T(!new)>(less: (T, T) -> bool, s: seq<T>, i: nat, m: T)
    requires StrictWeak(less) && i <= |s| && forall j :: i <= j < |s| ==> less(m, s[j])
    ensures forall j :: 0 <= j < |s[i..]| ==> !less(s[i..][j], m)
  {
    forall j | 0 <= j < |s| - i ensures !less(s[i..][j], m) {
      assert less(m, s[i + j]);
    }
  }

  lemma Inserted<T>(less: (T, T) -> bool, a: seq<T>, m: T, b: seq<T>)
    requires OrderedBy(less, a + b) && (forall j :: 0 <= j < |a| ==> !less(m, a[j])) && forall j :: 0 <= j < |b| ==> !less(b[j], m)
    ensures OrderedBy(less, a + [m] + b)
  {
    var s, r := a + b, a + [m] + b;
    forall x, y | 0 <= x < y < |r| ensures !less(r[y], r[x]) {
      if x != |a| && y != |a| {
        var x', y' := if x < |a| then x else x - 1, if y < |a| then y else y - 1;
        assert r[x] == s[x'] && r[y] == s[y'];
      }
    }
  }

  // ----- the reference selection

  /** The last position whose start key is not above `key`, or -1: a scan from the end. */
  function LastLeq(ms: seq<Meta>, key: Key): (i: int)
    ensures -1 <= i < |ms|
    ensures i >= 0 ==> Leq(ms[i].start, key)
    ensures forall j :: i < j < |ms| ==> !Leq(ms[j].start, key)
  {
    if ms == [] then -1
    else if Leq(ms[|ms| - 1].start, key) then |ms| - 1
    else
      var n := |ms| - 1;
      assert forall j :: 0 <= j < n ==> ms[..n][j] == ms[j];
      LastLeq(ms[..n], key)
  }

  lemma LastLeqIs(ms: seq<Meta>, key: Key, i: int)
    requires -1 <= i < |ms| && (i >= 0 ==> Leq(ms[i].start, key)) && forall j :: i < j < |ms| ==> !Leq(ms[j].start, key)
    ensures LastLeq(ms, key) == i
  {
    hide LastLeq, Leq;
  }

  function Select(ms: seq<Meta>, key: Key): Option<Meta> {
    var i := LastLeq(ms, key);
    if i < 0 then None else Some(ms[i])
  }

  /** `upperBoundSegmentChunkMetas`. */
  method UpperBound(ms: seq<Meta>, key: Key) returns (lo: nat)
    requires StartsSorted(ms)
    ensures lo <= |ms| && lo - 1 == LastLeq(ms, key)
  {
    hide LastLeq, Less;
    lo := 0;
    var hi := |ms|;
    while lo < hi
      invariant lo <= hi <= |ms|
      invariant forall j :: 0 <= j < lo ==> Leq(ms[j].start, key)
      invariant forall j :: hi <= j < |ms| ==> !Leq(ms[j].start, key)
    {
      var mid := (lo + hi) / 2;
      if ms[mid].start == [] || Leq(ms[mid].start, key) {
        EmptyLeast(key);
        forall j | 0 <= j <= mid ensures Leq(ms[j].start, key) {
          if j < mid {
            LeqTransitive(ms[j].start, ms[mid].start, key);
          }
        }
        lo := mid + 1;
      } else {
        forall j | mid <= j < |ms| ensures !Leq(ms[j].start, key) {
          if j > mid && Leq(ms[j].start, key) {
            LeqTransitive(ms[mid].start, ms[j].start, key);
          }
        }
        hi := mid;
      }
    }
    LastLeqIs(ms, key, lo - 1);
  }

  lemma EmptyLeast(key: Key)
    ensures Leq([], key)
  {
  }

  /** `selectSegmentChunkMeta`. */
  method SelectMeta(ms: seq<Meta>, key: Key) returns (r: Option<Meta>)
    requires StartsSorted(ms)
    ensures key != [] ==> r == Select(ms, key)
    ensures key == [] ==> r == if ms == [] then None else Some(ms[0])
  {
    hide LastLeq;
    if ms == [] {
      LastLeqIs(ms, key, -1);
      return None;
    }
    if key == [] {
      return Some(ms[0]);
    }
    var i := UpperBound(ms, key);
    r := if i == 0 then None else Some(ms[i - 1]);
  }

  /** `findChunkIndexForKey`: where an update for `key` goes. It agrees with where a read looks. */
  method FindChunk(ms: seq<Meta>, key: Key) returns (r: int)
    requires StartsSorted(ms)
    ensures key != [] ==> r == LastLeq(ms, key)
    ensures key == [] ==> r == if ms == [] then -1 else 0
  {
    hide LastLeq, Less;
    if ms == [] {
      LastLeqIs(ms, key, -1);
      return -1;
    }
    if key == [] {
      return 0;
    }
    var idx := SearchAbove(ms, key);
    LessTrichotomy(key, ms[0].start);
    EmptyLeast(key);
    if idx == 0 {
      if ms[0].start == [] {
        return 0;
      }
      if Less(key, ms[0].start) {
        return -1;
      }
      return 0;
    }
    var selected := idx - 1;
    LessTrichotomy(key, ms[selected].start);
    if ms[selected].start == [] {
      return selected;
    }
    if Less(key, ms[selected].start) {
      return -1;
    }
    if idx < |ms| {
      LessTrichotomy(key, ms[idx].start);
      if ms[idx].start != [] && !Less(key, ms[idx].start) {
        return -1;
      }
    }
    r := selected;
  }

  /** `sort.Search` for the first start key above `key`. */
  method SearchAbove(ms: seq<Meta>, key: Key) returns (lo: nat)
    requires StartsSorted(ms)
    ensures lo <= |ms| && lo - 1 == LastLeq(ms, key)
  {
    hide LastLeq, Less;
    lo := 0;
    var hi := |ms|;
    while lo < hi
      invariant lo <= hi <= |ms|
      invariant forall j :: 0 <= j < lo ==> Leq(ms[j].start, key)
      invariant forall j :: hi <= j < |ms| ==> !Leq(ms[j].start, key)
    {
      var mid := (lo + hi) / 2;
      LessTrichotomy(key, ms[mid].start);
      EmptyLeast(key);
      if !(ms[mid].start != [] && Less(key, ms[mid].start)) {
        forall j | 0 <= j <= mid ensures Leq(ms[j].start, key) {
          if j < mid {
            LeqTransitive(ms[j].start, ms[mid].start, key);
          }
        }
        lo := mid + 1;
      } else {
        forall j | mid <= j < |ms| ensures !Leq(ms[j].start, key) {
          if j > mid && Leq(ms[j].start, key) {
            LeqTransitive(ms[mid].start, ms[j].start, key);
          }
        }
        hi := mid;
      }
    }
    LastLeqIs(ms, key, lo - 1);
  }
}
