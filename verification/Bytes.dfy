/** Bytes, big-endian fixed-width integers and the lexicographic key order
    (`encoding/binary` big-endian, `bytes.Compare`). */
module Bytes {

  type byte = x: int | 0 <= x < 0x100
  type u16 = x: int | 0 <= x < 0x1_0000
  type u32 = x: int | 0 <= x < 0x1_0000_0000
  type u64 = x: int | 0 <= x < 0x1_0000_0000_0000_0000

  datatype Option<+T> = None | Some(value: T)

  function Zeros(n: nat): (s: seq<byte>)
    ensures |s| == n && forall i :: 0 <= i < n ==> s[i] == 0
  {
    seq(n, _ => 0)
  }

  function Get16(s: seq<byte>): (v: u16)
    requires |s| == 2
  {
    s[0] as int * 0x100 + s[1] as int
  }

  function Get32(s: seq<byte>): (v: u32)
    requires |s| == 4
  {
    Get16(s[..2]) as int * 0x1_0000 + Get16(s[2..]) as int
  }

  function Get64(s: seq<byte>): (v: u64)
    requires |s| == 8
  {
    Get32(s[..4]) as int * 0x1_0000_0000 + Get32(s[4..]) as int
  }

  /** Big-endian encodings; each reads back as the value written. */
  function Put16(v: u16): (s: seq<byte>)
    ensures |s| == 2 && Get16(s) == v
  {
    [v / 0x100, v % 0x100]
  }

  function Put32(v: u32): (s: seq<byte>)
    ensures |s| == 4 && Get32(s) == v
  {
    var hi, lo := Put16(v / 0x1_0000), Put16(v % 0x1_0000);
    assert (hi + lo)[..2] == hi && (hi + lo)[2..] == lo;
    hi + lo
  }

  function Put64(v: u64): (s: seq<byte>)
    ensures |s| == 8 && Get64(s) == v
  {
    var hi, lo := Put32(v / 0x1_0000_0000), Put32(v % 0x1_0000_0000);
    assert (hi + lo)[..4] == hi && (hi + lo)[4..] == lo;
    hi + lo
  }

  lemma Small32(v: u32, hi: byte, lo: byte)
    requires v == hi as int * 0x100 + lo as int
    ensures Put32(v) == [0, 0, hi, lo]
  {
    assert v / 0x1_0000 == 0 && v % 0x1_0000 == v;
    assert Put16(0) == [0, 0] && Put16(v) == [hi, lo];
  }

  lemma Small64(v: u64, hi: byte, lo: byte)
    requires v == hi as int * 0x100 + lo as int
    ensures Put64(v) == [0, 0, 0, 0, 0, 0, hi, lo]
  {
    assert v / 0x1_0000_0000 == 0 && v % 0x1_0000_0000 == v;
    Small32(0, 0, 0);
    Small32(v, hi, lo);
  }

  /** A slice of a slice. */
  lemma SubSlice<T>(s: seq<T>, a: nat, b: nat, c: nat, d: nat)
    requires a <= b <= |s| && c <= d <= b - a
    ensures s[a..b][c..d] == s[a + c..a + d]
  {
    var x, y := s[a..b][c..d], s[a + c..a + d];
    assert forall k :: 0 <= k < d - c ==> x[k] == y[k];
  }

  /** The encodings are onto: different bytes are different numbers. */
  lemma Get64Injective(a: seq<byte>, b: seq<byte>)
    requires |a| == |b| == 8 && Get64(a) == Get64(b)
    ensures a == b
  {
    Get32Injective(a[..4], b[..4]);
    Get32Injective(a[4..], b[4..]);
    assert a == a[..4] + a[4..] && b == b[..4] + b[4..];
  }

  lemma Get32Injective(a: seq<byte>, b: seq<byte>)
    requires |a| == |b| == 4 && Get32(a) == Get32(b)
    ensures a == b
  {
    assert Get16(a[..2]) == Get16(b[..2]) && Get16(a[2..]) == Get16(b[2..]);
    assert a == a[..2] + a[2..] && b == b[..2] + b[2..];
    assert a[..2] == b[..2] && a[2..] == b[2..];
  }

  /** Lexicographic byte order. */
  predicate Less(a: seq<byte>, b: seq<byte>) {
    b != [] && (a == [] || a[0] < b[0] || (a[0] == b[0] && Less(a[1..], b[1..])))
  }

  predicate Leq(a: seq<byte>, b: seq<byte>) {
    a == b || Less(a, b)
  }

  lemma {:induction false} LessTrichotomy(a: seq<byte>, b: seq<byte>)
    ensures a == b || Less(a, b) || Less(b, a)
    ensures !(Less(a, b) && Less(b, a))
    ensures a == b ==> !Less(a, b)
  {
    if a != [] && b != [] {
      LessTrichotomy(a[1..], b[1..]);
      assert a == [a[0]] + a[1..] && b == [b[0]] + b[1..];
    }
  }

  lemma {:induction false} LessTransitive(a: seq<byte>, b: seq<byte>, c: seq<byte>)
    requires Less(a, b) && Less(b, c)
    ensures Less(a, c)
  {
    if a != [] && a[0] == b[0] == c[0] {
      LessTransitive(a[1..], b[1..], c[1..]);
    }
  }

  lemma LeqTransitive(a: seq<byte>, b: seq<byte>, c: seq<byte>)
    requires Leq(a, b) && Leq(b, c)
    ensures Leq(a, c)
    ensures Less(a, b) || Less(b, c) ==> Less(a, c)
  {
    if a != b && b != c {
      LessTransitive(a, b, c);
    }
  }
}
