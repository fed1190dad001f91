/** Varints, zigzag and fixed-width integers of nanopb (pb_encode.c, pb_decode.c). */
module PbVarint {
  import opened Bytes

  const TWO_31: nat := 0x8000_0000
  const TWO_63: nat := 0x8000_0000_0000_0000
  const MAX_VARINT: nat := 10

  /** Base-128 digits, least significant first; every digit but the last is marked. */
  function Varint(n: nat): (r: seq<byte>)
    ensures 1 <= |r|
  {
    if n < 128 then [n] else [n % 128 + 128] + Varint(n / 128)
  }

  function Pow128(k: nat): (r: nat)
    ensures r > 0
  {
    if k == 0 then 1 else 128 * Pow128(k - 1)
  }

  lemma {:induction false} VarintLength(n: nat, k: nat)
    requires n < Pow128(k) && k > 0
    ensures |Varint(n)| <= k
  {
    if n >= 128 {
      VarintLength(n / 128, k - 1);
    }
  }

  lemma TwoTo64IsShort(n: nat)
    requires n < TWO_64
    ensures |Varint(n)| <= MAX_VARINT
  {
    assert Pow128(10) > TWO_64 by { PowersOf128(); }
    VarintLength(n, 10);
  }

  lemma PowersOf128()
    ensures Pow128(1) == 128 && Pow128(2) == 0x4000 && Pow128(3) == 0x20_0000 && Pow128(4) == 0x1000_0000
    ensures Pow128(5) == 0x8_0000_0000 && Pow128(9) == TWO_63 && Pow128(10) == 2 * 64 * TWO_63
  {
    assert Pow128(1) == 128 * Pow128(0);
    assert Pow128(2) == 128 * Pow128(1);
    assert Pow128(3) == 128 * Pow128(2);
    assert Pow128(4) == 128 * Pow128(3);
    assert Pow128(5) == 128 * Pow128(4);
    assert Pow128(6) == 128 * Pow128(5);
    assert Pow128(7) == 128 * Pow128(6);
    assert Pow128(8) == 128 * Pow128(7);
    assert Pow128(9) == 128 * Pow128(8);
    assert Pow128(10) == 128 * Pow128(9);
  }

  // ----- writing

  /** The digits of `n` with every one marked, as the loop of pb_encode_varint leaves them. */
  function Marked(n: nat): (r: seq<byte>)
    ensures n > 0 ==> |r| > 0
  {
    if n == 0 then [] else [n % 128 + 128] + Marked(n / 128)
  }

  lemma {:induction false} UnmarkLast(n: nat)
    requires n > 0
    ensures Marked(n)[|Marked(n)| - 1] >= 128
    ensures Marked(n)[|Marked(n)| - 1 := Marked(n)[|Marked(n)| - 1] - 128] == Varint(n)
  {
    if n >= 128 {
      UnmarkLast(n / 128);
      var tail := Marked(n / 128);
      assert Marked(n)[|Marked(n)| - 1] == tail[|tail| - 1];
      assert Marked(n)[|Marked(n)| - 1 := tail[|tail| - 1] - 128]
          == [n % 128 + 128] + tail[|tail| - 1 := tail[|tail| - 1] - 128];
    } else {
      assert Marked(n / 128) == [];
    }
  }

  lemma MarkedStep(n: nat)
    ensures if n == 0 then Marked(n) == []
            else Marked(n) != [] && Marked(n)[0] == n % 128 + 128 && Marked(n)[1..] == Marked(n / 128)
  {
  }

  /** The body of pb_encode_varint up to the write. */
  method VarintBytes(value: nat) returns (bytes: seq<byte>)
    requires value < TWO_64
    ensures bytes == Varint(value) && |bytes| <= MAX_VARINT
  {
    TwoTo64IsShort(value);
    if value <= 0x7F {
      return [value];
    }
    UnmarkLast(value);
    hide Marked, Varint;
    var buffer := new byte[MAX_VARINT](_ => 0);
    ghost var marked := Marked(value);
    var i, rest := 0, value;
    while rest > 0
      invariant i <= |marked| <= MAX_VARINT
      invariant forall j :: 0 <= j < i ==> buffer[j] == marked[j]
      invariant marked[i..] == Marked(rest)
    {
      MarkedStep(rest);
      assert marked[i] == marked[i..][0] && marked[i + 1..] == marked[i..][1..];
      buffer[i] := rest % 128 + 128;
      rest := rest / 128;
      i := i + 1;
    }
    MarkedStep(0);
    assert buffer[..i] == marked;
    buffer[i - 1] := buffer[i - 1] - 128;
    return buffer[..i];
  }

  // ----- reading 64-bit varints

  /** From digit k on: at most ten digits, and of the tenth only the lowest bit. */
  function Varint64(input: seq<byte>, k: nat): (r: Option<(nat, seq<byte>)>)
    ensures r.Some? ==> |r.value.1| < |input| && r.value.1 == input[|input| - |r.value.1|..]
    decreases |input|
  {
    if k >= MAX_VARINT || input == [] then None
    else
      var digit := if k == 9 then input[0] as nat % 2 else input[0] as nat % 128;
      if input[0] < 128 then Some((digit, input[1..]))
      else
        match Varint64(input[1..], k + 1)
        case None => None
        case Some((v, rest)) => Some((digit + 128 * v, rest))
  }

  lemma {:induction false} Varint64Bound(input: seq<byte>, k: nat)
    requires k < MAX_VARINT && Varint64(input, k).Some?
    ensures Pow128(k) * Varint64(input, k).value.0 < TWO_64
    decreases |input|
  {
    PowersOf128();
    if k < 9 {
      PowerStep(k);
      if input[0] >= 128 {
        Varint64Bound(input[1..], k + 1);
        ScaleBound(Pow128(k), Varint64(input[1..], k + 1).value.0, input[0] as nat % 128, k);
      } else {
        SmallScale(k, input[0] as nat % 128);
      }
    }
  }

  lemma PowerStep(k: nat)
    ensures Pow128(k + 1) == 128 * Pow128(k)
  {
  }

  /** Every power below the tenth divides 2^64. */
  lemma {:induction false} Divides(k: nat) returns (q: nat)
    requires k <= 9
    ensures Pow128(k) * (2 * q) == TWO_64
    decreases 9 - k
  {
    PowersOf128();
    if k == 9 {
      q := 1;
    } else {
      var q' := Divides(k + 1);
      PowerStep(k);
      q := 128 * q';
      assert Pow128(k) * (2 * q) == 128 * Pow128(k) * (2 * q');
    }
  }

  lemma SmallScale(k: nat, digit: nat)
    requires k < 9 && digit < 128
    ensures Pow128(k) * digit < TWO_64
  {
    var q := Divides(k + 1);
    PowerStep(k);
    var p := Pow128(k);
    assert p * digit < p * 128;
    assert 128 * p * (2 * q) == TWO_64;
    assert q >= 1;
    assert 128 * p * (2 * q) >= 128 * p;
  }

  lemma ScaleBound(p: nat, v: nat, digit: nat, k: nat)
    requires k < 9 && p == Pow128(k) && digit < 128
    requires Pow128(k + 1) * v < TWO_64
    ensures p * (digit + 128 * v) < TWO_64
  {
    var q := Divides(k + 1);
    PowerStep(k);
    if v >= 2 * q {
      MulMonotone(128 * p, 2 * q, v);
    }
    MulMonotone(p, digit + 128 * v + 1, 128 * (2 * q));
    assert p * (128 * (2 * q)) == 128 * p * (2 * q);
    assert p * (digit + 128 * v + 1) == p * (digit + 128 * v) + p;
  }

  lemma MulMonotone(p: nat, a: nat, b: nat)
    requires a <= b
    ensures p * a <= p * b
  {
  }

  /** Reading undoes writing. */
  lemma {:induction false} Varint64RoundTrip(n: nat, k: nat, rest: seq<byte>)
    requires k < MAX_VARINT && Pow128(k) * n < TWO_64
    ensures Varint64(Varint(n) + rest, k) == Some((n, rest))
    decreases n
  {
    PowersOf128();
    var input := Varint(n) + rest;
    if n < 128 {
      assert input[1..] == rest;
    } else {
      assert input[1..] == Varint(n / 128) + rest;
      assert k < 9;
      Quotient(Pow128(k), n);
      PowerStep(k);
      Varint64RoundTrip(n / 128, k + 1, rest);
    }
  }

  lemma Quotient(p: nat, n: nat)
    ensures 128 * p * (n / 128) <= p * n
  {
    assert 128 * p * (n / 128) == p * (128 * (n / 128));
  }

  // ----- reading 32-bit varints

  /** pb_decode_varint32_eof from digit k >= 1 on, with the lower digits in `result`. */
  function Varint32Digits(input: seq<byte>, k: nat, result: nat): (r: Option<(nat, seq<byte>)>)
    requires result < TWO_32
    ensures r.Some? ==> r.value.0 < TWO_32
    ensures r.Some? ==> |r.value.1| < |input| && r.value.1 == input[|input| - |r.value.1|..]
    decreases |input|
  {
    if input == [] then None
    else
      var b := input[0];
      // Trailing zero digits are allowed, and the sign extension of a negative number.
      if k >= 5 && b % 128 != 0 && (result < TWO_31 || b != (if 7 * k < 63 then 0xFF else 0x01)) then None
      else
        var next := if k >= 5 then result else AddDigit(result, b, k);
        if b >= 128 then Varint32Digits(input[1..], k + 1, next)
        else if k == 4 && b / 16 % 8 != 0 then None
        else Some((next, input[1..]))
  }

  /** Digit k of a 32-bit result; what does not fit is cut off. */
  function AddDigit(result: nat, b: byte, k: nat): (r: nat)
    ensures r < TWO_32
  {
    (result + b as nat % 128 * Pow128(k)) % TWO_32
  }

  function Varint32(input: seq<byte>): (r: Option<(nat, seq<byte>)>)
    ensures r.Some? ==> r.value.0 < TWO_32
    ensures r.Some? ==> |r.value.1| < |input| && r.value.1 == input[|input| - |r.value.1|..]
  {
    if input == [] then None
    else if input[0] < 128 then Some((input[0] as nat, input[1..]))
    else Varint32Digits(input[1..], 1, input[0] as nat % 128)
  }

  lemma {:induction false} Varint32DigitsRoundTrip(n: nat, k: nat, result: nat, rest: seq<byte>)
    requires 1 <= k <= 4 && result < Pow128(k) && result + n * Pow128(k) < TWO_32
    ensures result < TWO_32
    ensures Varint32Digits(Varint(n) + rest, k, result) == Some((result + n * Pow128(k), rest))
    decreases n
  {
    hide AddDigit;
    var input, p := Varint(n) + rest, Pow128(k);
    FirstDigit(n, k, result);
    if n < 128 {
      assert input[1..] == rest;
    } else {
      assert input[1..] == Varint(n / 128) + rest;
      Varint32DigitsRoundTrip(n / 128, k + 1, AddDigit(result, n % 128 + 128, k), rest);
    }
  }

  /** Adding the first digit of n leaves the rest of n for the digits above it. */
  lemma FirstDigit(n: nat, k: nat, result: nat)
    requires 1 <= k <= 4 && result < Pow128(k) && result + n * Pow128(k) < TWO_32
    ensures result < TWO_32
    ensures n < 128 ==> AddDigit(result, n, k) == result + n * Pow128(k) && (k == 4 ==> n < 16)
    ensures n >= 128 ==>
      var next := AddDigit(result, n % 128 + 128, k);
      && k < 4 && next < Pow128(k + 1)
      && next + n / 128 * Pow128(k + 1) == result + n * Pow128(k)
  {
    PowersOf128();
    var p := Pow128(k);
    SplitDigit(n, p);
    NextDigit(result, n % 128, p);
    PowerStep(k);
    if k == 4 { FourthDigit(n); }
  }

  lemma FourthDigit(n: nat)
    requires n * 0x1000_0000 < TWO_32
    ensures n < 16
  {
  }

  lemma SplitDigit(n: nat, p: nat)
    ensures n * p == n % 128 * p + n / 128 * (128 * p)
  {
    assert n == n % 128 + 128 * (n / 128);
    assert (n % 128 + 128 * (n / 128)) * p == n % 128 * p + 128 * (n / 128) * p;
    assert 128 * (n / 128) * p == n / 128 * (128 * p);
  }

  lemma NextDigit(result: nat, digit: nat, p: nat)
    requires result < p && digit < 128
    ensures result + digit * p < 128 * p
  {
    assert digit * p <= 127 * p;
  }

  /** Numbers of 32 bits come back. */
  lemma Varint32RoundTrip(n: nat, rest: seq<byte>)
    requires n < TWO_32
    ensures Varint32(Varint(n) + rest) == Some((n, rest))
  {
    hide Varint32Digits, Pow128;
    var input := Varint(n) + rest;
    if n < 128 {
      assert input[1..] == rest;
    } else {
      assert input[1..] == Varint(n / 128) + rest;
      PowersOf128();
      Varint32DigitsRoundTrip(n / 128, 1, n % 128, rest);
    }
  }

  // ----- what the 32-bit decoder makes of larger numbers

  const TWO_35: nat := 0x8_0000_0000

  /**
   The digits from bit 35 on that pass: each all zeros or all ones, and the tenth digit 1. This is
   the sign extension of a negative number, but zero digits and any bits 32 to 34 pass as well.
   */
  predicate SignDigits(m: nat, k: nat) {
    if m < 128 then k == 9 && m == 1
    else k < 9 && (m % 128 == 0 || m % 128 == 127) && SignDigits(m / 128, k + 1)
  }

  predicate SignExtended(n: nat) {
    n % TWO_32 >= TWO_31 && SignDigits(n / TWO_35, 5)
  }

  lemma {:induction false} HighDigits(m: nat, k: nat, result: nat, rest: seq<byte>)
    requires 5 <= k <= 9 && 0 < m && m * Pow128(k) < TWO_64 && result < TWO_32
    ensures Varint32Digits(Varint(m) + rest, k, result) ==
      if SignDigits(m, k) && result >= TWO_31 then Some((result, rest)) else None
    decreases m
  {
    hide AddDigit, Pow128;
    var input := Varint(m) + rest;
    NinthDigit(m, k);
    if m < 128 {
      assert input[1..] == rest;
    } else {
      assert input[1..] == Varint(m / 128) + rest;
      PowerStep(k);
      SplitDigit(m, Pow128(k));
      HighDigits(m / 128, k + 1, result, rest);
    }
  }

  /** A 64-bit number has at most one bit left in the tenth digit. */
  lemma NinthDigit(m: nat, k: nat)
    requires 5 <= k <= 9 && m * Pow128(k) < TWO_64
    ensures k == 9 ==> m < 2
  {
    PowersOf128();
  }

  lemma {:induction false} LowDigits(n: nat, k: nat, result: nat, whole: nat, rest: seq<byte>)
    requires 1 <= k <= 4 && result < Pow128(k) && result + n * Pow128(k) == whole
    requires TWO_32 <= whole < TWO_64
    ensures result < TWO_32
    ensures Varint32Digits(Varint(n) + rest, k, result) ==
      if SignExtended(whole) then Some((whole % TWO_32, rest)) else None
    decreases n
  {
    hide AddDigit, Pow128, SignDigits;
    var input := Varint(n) + rest;
    LowDigit(n, k, result, whole);
    if n < 128 {
      assert input[1..] == rest;
    } else {
      assert input[1..] == Varint(n / 128) + rest;
      var next := AddDigit(result, n % 128 + 128, k);
      if k == 4 {
        HighDigits(n / 128, 5, next, rest);
      } else {
        LowDigits(n / 128, k + 1, next, whole, rest);
      }
    }
  }

  lemma LowDigit(n: nat, k: nat, result: nat, whole: nat)
    requires 1 <= k <= 4 && result < Pow128(k) && result + n * Pow128(k) == whole
    requires TWO_32 <= whole < TWO_64
    ensures result < TWO_32
    ensures n < 128 ==> k == 4 && n >= 16 && !SignExtended(whole)
    ensures n >= 128 && k < 4 ==>
      var next := AddDigit(result, n % 128 + 128, k);
      next < Pow128(k + 1) && next + n / 128 * Pow128(k + 1) == whole
    ensures n >= 128 && k == 4 ==>
      && AddDigit(result, n % 128 + 128, k) == whole % TWO_32
      && n / 128 == whole / TWO_35 && n / 128 * Pow128(5) < TWO_64
  {
    PowersOf128();
    SplitDigit(n, Pow128(k));
    NextDigit(result, n % 128, Pow128(k));
    PowerStep(k);
    if k == 4 {
      FifthDigit(n, result);
    }
  }

  lemma FifthDigit(n: nat, result: nat)
    requires result < 0x1000_0000
    ensures (result + n * 0x1000_0000) % TWO_32 == (result + n % 128 * 0x1000_0000) % TWO_32
    ensures (result + n * 0x1000_0000) / TWO_35 == n / 128
  {
    Above35(result + n % 128 * 0x1000_0000, n / 128);
  }

  lemma Above35(low: nat, q: nat)
    requires low < TWO_35
    ensures (low + q * TWO_35) / TWO_35 == q && (low + q * TWO_35) % TWO_32 == low % TWO_32
  {
    Quotient35(low + q * TWO_35, q);
    Mod32(low, 8 * q);
  }

  lemma Quotient35(x: nat, q: nat)
    requires q * TWO_35 <= x < q * TWO_35 + TWO_35
    ensures x / TWO_35 == q
  {
  }

  lemma {:induction false} Mod32(low: nat, k: nat)
    ensures (low + k * TWO_32) % TWO_32 == low % TWO_32
  {
    if k > 0 {
      Mod32(low, k - 1);
      assert low + k * TWO_32 == (low + (k - 1) * TWO_32) + TWO_32;
    }
  }

  /** Exactly which numbers of 64 bits the 32-bit decoder takes, and for what. */
  lemma Varint32OfVarint(n: nat, rest: seq<byte>)
    requires n < TWO_64
    ensures Varint32(Varint(n) + rest) ==
      if n < TWO_32 then Some((n, rest))
      else if SignExtended(n) then Some((n % TWO_32, rest))
      else None
  {
    hide Varint32Digits, Pow128, SignExtended;
    assert n % 128 + n / 128 * 128 == n;
    if n < TWO_32 {
      Varint32RoundTrip(n, rest);
    } else {
      var input := Varint(n) + rest;
      assert input[1..] == Varint(n / 128) + rest;
      assert Pow128(1) == 128 by {
        PowersOf128();
      }
      LowDigits(n / 128, 1, n % 128, n, rest);
    }
  }

  /** A negative number in 64 bits is taken for the same number in 32 bits. */
  lemma NegativesAreTaken(v: int, rest: seq<byte>)
    requires -(TWO_31 as int) <= v < 0
    ensures Varint32(Varint(TWO_64 + v) + rest) == Some((TWO_32 + v, rest))
  {
    hide Varint32, Varint, SignDigits;
    NegativeQuotients(v);
    AllOnesPass();
    Varint32OfVarint(TWO_64 + v, rest);
  }

  lemma NegativeQuotients(v: int)
    requires -(TWO_31 as int) <= v < 0
    ensures (TWO_64 + v) / TWO_35 == 0x1fff_ffff && (TWO_64 + v) % TWO_32 == TWO_32 + v
  {
  }

  lemma AllOnesPass()
    ensures SignDigits(0x1fff_ffff, 5)
  {
    assert SignDigits(1, 9);
    assert SignDigits(0xff, 8);
    assert SignDigits(0x7fff, 7);
    assert SignDigits(0x3f_ffff, 6);
  }

  // ----- signed integers

  predicate FitsSigned(n: int, size: nat) {
    (size == 1 && -0x80 <= n < 0x80) || (size == 2 && -0x8000 <= n < 0x8000) ||
    (size == 4 && -(TWO_31 as int) <= n < TWO_31) || (size == 8 && -(TWO_63 as int) <= n < TWO_63)
  }

  predicate FitsUnsigned(n: int, size: nat) {
    (size == 1 && 0 <= n < 0x100) || (size == 2 && 0 <= n < TWO_16) ||
    (size == 4 && 0 <= n < TWO_32) || (size == 8 && 0 <= n < TWO_64)
  }

  /** Two's complement in 64 bits, and back. */
  function ToUnsigned64(n: int): (r: nat)
    ensures r < TWO_64
  {
    n % TWO_64
  }

  function ToSigned64(n: nat): int
    requires n < TWO_64
  {
    if n < TWO_63 then n else n - TWO_64
  }

  function ToSigned32(n: nat): int {
    if n % TWO_32 < TWO_31 then n % TWO_32 else n % TWO_32 - TWO_32
  }

  /** pb_dec_varint reads fields of at most 32 bits through int32_t. */
  function SignedOf(n: nat, size: nat): int
    requires n < TWO_64
  {
    if size == 8 then ToSigned64(n) else ToSigned32(n)
  }

  lemma SignedRoundTrip(n: int, size: nat)
    requires FitsSigned(n, size)
    ensures SignedOf(ToUnsigned64(n), size) == n
  {
    if n >= 0 {
      assert ToUnsigned64(n) == n;
    } else {
      assert ToUnsigned64(n) == n + TWO_64;
      assert TWO_64 == TWO_32 * TWO_32;
      assert (n + TWO_64) % TWO_32 == (n + TWO_32) % TWO_32;
    }
  }

  /** Small magnitudes get small codes: 0, -1, 1, -2, ... become 0, 1, 2, 3, ... */
  function ZigZag(n: int): nat {
    if n < 0 then -2 * n - 1 else 2 * n
  }

  function UnZigZag(z: nat): int {
    if z % 2 == 1 then -(z as int / 2) - 1 else z / 2
  }

  lemma ZigZagRoundTrip(n: int)
    ensures UnZigZag(ZigZag(n)) == n
    ensures FitsSigned(n, 8) ==> ZigZag(n) < TWO_64
  {
  }

  lemma ShiftLeft(value: int)
    requires FitsSigned(value, 8)
    ensures ToUnsigned64(value) * 2 % TWO_64 == if value < 0 then 2 * value + TWO_64 else 2 * value
  {
    if value < 0 {
      assert ToUnsigned64(value) == value + TWO_64;
      assert (2 * value + TWO_64 + TWO_64) % TWO_64 == 2 * value + TWO_64;
    }
  }

  /** pb_encode_svarint: the shift, and the complement for a negative value, in 64 bits. */
  method ZigZagBits(value: int) returns (z: nat)
    requires FitsSigned(value, 8)
    ensures z == ZigZag(value) < TWO_64
  {
    ShiftLeft(value);
    var shifted := ToUnsigned64(value) * 2 % TWO_64;
    z := if value < 0 then TWO_64 - 1 - shifted else shifted;
  }

  /** pb_decode_svarint: the complement of the half is the negative number it stands for. */
  method UnZigZagBits(z: nat) returns (value: int)
    requires z < TWO_64
    ensures value == UnZigZag(z) && FitsSigned(value, 8)
  {
    value := if z % 2 == 1 then ToSigned64(TWO_64 - 1 - z / 2) else ToSigned64(z / 2);
  }

  // ----- fixed-width integers

  function LittleEndian(n: nat, len: nat): (s: seq<byte>)
    ensures |s| == len
  {
    if len == 0 then [] else [n % 256] + LittleEndian(n / 256, len - 1)
  }

  function FromLittleEndian(s: seq<byte>): nat {
    if s == [] then 0 else s[0] as nat + 256 * FromLittleEndian(s[1..])
  }

  lemma {:induction false} LittleEndianRoundTrip(n: nat, len: nat)
    requires n < Pow256(len)
    ensures FromLittleEndian(LittleEndian(n, len)) == n
  {
    if len > 0 {
      LittleEndianRoundTrip(n / 256, len - 1);
      assert LittleEndian(n, len)[1..] == LittleEndian(n / 256, len - 1);
    }
  }
}
