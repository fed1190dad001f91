/** Bytes, big-endian integers and the small result types the other modules share. */
module Bytes {

  type byte = b: int | 0 <= b < 256

  datatype Option<+T> = None | Some(value: T)

  const TWO_16: nat := 0x1_0000
  const TWO_24: nat := 0x100_0000
  const TWO_32: nat := 0x1_0000_0000
  const TWO_48: nat := 0x1_0000_0000_0000
  const TWO_64: nat := 0x1_0000_0000_0000_0000

  function Max(a: nat, b: nat): nat {
    if a < b then b else a
  }

  function Min(a: nat, b: nat): nat {
    if a < b then a else b
  }

  // ----- big-endian integers, as CBB_add_u16/u24 write them and CBS_get_u16/u24 read them

  function U16(n: nat): (r: seq<byte>)
    requires n < TWO_16
    ensures |r| == 2 && GetU16(r) == n
  {
    [n / 256, n % 256]
  }

  function GetU16(s: seq<byte>): (n: nat)
    requires |s| == 2
    ensures n < TWO_16
  {
    s[0] as int * 256 + s[1] as int
  }

  function U24(n: nat): (r: seq<byte>)
    requires n < TWO_24
    ensures |r| == 3 && GetU24(r) == n
  {
    [n / 65536, n / 256 % 256, n % 256]
  }

  function GetU24(s: seq<byte>): (n: nat)
    requires |s| == 3
    ensures n < TWO_24
  {
    s[0] as int * 65536 + s[1] as int * 256 + s[2] as int
  }

  /** The value of a big-endian byte string of any length. */
  function BigEndian(s: seq<byte>): nat {
    if s == [] then 0 else BigEndian(s[..|s| - 1]) * 256 + s[|s| - 1]
  }

  lemma BigEndianOfTwo(s: seq<byte>)
    requires |s| == 2
    ensures BigEndian(s) == s[0] as int * 256 + s[1] as int
  {
    assert s[..1][..0] == [];
    assert BigEndian(s[..1]) == s[0] as int;
  }

  lemma BigEndianOfThree(s: seq<byte>)
    requires |s| == 3
    ensures BigEndian(s) == s[0] as int * 65536 + s[1] as int * 256 + s[2] as int
  {
    BigEndianOfTwo(s[..2]);
  }

  function Pow256(n: nat): (r: nat)
    ensures r > 0
  {
    if n == 0 then 1 else 256 * Pow256(n - 1)
  }

  lemma BigEndianBound(s: seq<byte>)
    ensures BigEndian(s) < Pow256(|s|)
  {
    if s != [] {
      BigEndianBound(s[..|s| - 1]);
    }
  }

  lemma OneByteOn(x: nat, p: nat, y: nat, b: nat)
    ensures (x * p + y) * 256 + b == x * (256 * p) + (y * 256 + b)
  {
  }

  lemma {:induction false} BigEndianSplit(a: seq<byte>, b: seq<byte>)
    ensures BigEndian(a + b) == BigEndian(a) * Pow256(|b|) + BigEndian(b)
  {
    if b == [] {
      assert a + b == a;
    } else {
      var c, last := b[..|b| - 1], b[|b| - 1];
      assert (a + b)[..|a + b| - 1] == a + c;
      BigEndianSplit(a, c);
      OneByteOn(BigEndian(a), Pow256(|c|), BigEndian(c), last);
    }
  }

  /** Byte strings of one length are determined by their value. */
  lemma {:induction false} BigEndianInjective(a: seq<byte>, b: seq<byte>)
    requires |a| == |b| && BigEndian(a) == BigEndian(b)
    ensures a == b
  {
    if a != [] {
      BigEndianInjective(a[..|a| - 1], b[..|b| - 1]);
      assert a == a[..|a| - 1] + [a[|a| - 1]] && b == b[..|b| - 1] + [b[|b| - 1]];
    }
  }

  /** The big-endian byte string of length `len` with value `n`. */
  function ToBigEndian(n: nat, len: nat): (s: seq<byte>)
    ensures |s| == len
    ensures n < Pow256(len) ==> BigEndian(s) == n
  {
    if len == 0 then []
    else
      var s := ToBigEndian(n / 256, len - 1);
      assert (s + [n % 256])[..len - 1] == s;
      s + [n % 256]
  }
}
