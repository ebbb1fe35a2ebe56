/**
 * Bytes, fixed-width hashes and the big-endian integer encodings that the
 * hint codec and the launcher-id morph rely on: the unsigned big-endian
 * value of a byte string and the signed (two's complement) big-endian
 * encoding that `BigInt::from_signed_bytes_be` / `to_signed_bytes_be` use.
 */
module Bytes {

  type byte = x: int | 0 <= x < 256

  /** A 32-byte hash or identifier. */
  type Bytes32 = s: seq<byte> | |s| == 32 witness seq(32, _ => 0)

  /** An unsigned 64-bit amount. */
  type u64 = x: int | 0 <= x < 0x1_0000_0000_0000_0000

  function Zeros(n: nat): (z: seq<byte>)
    ensures |z| == n
  {
    seq(n, _ => 0)
  }

  /** Every byte of Zeros(n) is zero. */
  lemma ZerosAreZero(n: nat)
    ensures forall i :: 0 <= i < n ==> Zeros(n)[i] == 0
  {
  }

  lemma ZerosCons(n: nat)
    ensures [0] + Zeros(n) == Zeros(n + 1)
  {
  }

  function Abs(n: int): nat
  {
    if n < 0 then -n else n
  }

  /** 256 to the power k. */
  function Pow256(k: nat): (p: nat)
    ensures p >= 1
  {
    if k == 0 then 1 else 256 * Pow256(k - 1)
  }

  /** 2^(8k-1): a k-byte two's complement integer lies in [-SignedBound(k), SignedBound(k)). */
  function SignedBound(k: nat): int
    requires k >= 1
  {
    128 * Pow256(k - 1)
  }

  /** The unsigned big-endian value of s. */
  function UnsignedValue(s: seq<byte>): nat
  {
    if s == [] then 0 else 256 * UnsignedValue(s[..|s| - 1]) + s[|s| - 1]
  }

  /** The k low bytes of v, most significant first. */
  function UnsignedBytes(v: nat, k: nat): (s: seq<byte>)
    ensures |s| == k
  {
    if k == 0 then [] else UnsignedBytes(v / 256, k - 1) + [v % 256]
  }

  /** `BigInt::from_signed_bytes_be`: two's complement, the empty string reads as 0. */
  function FromSignedBytesBe(s: seq<byte>): int
  {
    if s == [] then 0
    else if |s| == 1 then (if s[0] < 128 then s[0] else s[0] - 256)
    else 256 * FromSignedBytesBe(s[..|s| - 1]) + s[|s| - 1]
  }

  /**
   * `BigInt::to_signed_bytes_be`: the shortest two's complement encoding,
   * at least one byte long (zero encodes as [0]).
   */
  function ToSignedBytesBe(n: int): (s: seq<byte>)
    ensures |s| >= 1
    decreases if n >= 0 then n else -1 - n
  {
    if -128 <= n < 128 then [n % 256] else ToSignedBytesBe(n / 256) + [n % 256]
  }

  /** Decoding the signed encoding gives the number back. */
  lemma {:induction false} SignedRoundTrip(n: int)
    ensures FromSignedBytesBe(ToSignedBytesBe(n)) == n
    decreases if n >= 0 then n else -1 - n
  {
    if !(-128 <= n < 128) {
      var s := ToSignedBytesBe(n);
      SignedRoundTrip(n / 256);
      assert s[..|s| - 1] == ToSignedBytesBe(n / 256);
    }
  }

  /**
   * The signed encoding is minimal: a longer-than-one-byte encoding never
   * starts with a redundant sign byte (0x00 before a clear top bit, 0xFF
   * before a set one).
   */
  lemma {:induction false} SignedMinimal(n: int)
    ensures var s := ToSignedBytesBe(n);
      |s| >= 2 ==> !(s[0] == 0 && s[1] < 128) && !(s[0] == 255 && s[1] >= 128)
    decreases if n >= 0 then n else -1 - n
  {
    if !(-128 <= n < 128) {
      var p := ToSignedBytesBe(n / 256);
      SignedMinimal(n / 256);
      assert ToSignedBytesBe(n) == p + [n % 256];
    }
  }

  /** The signed encoding of n fits in k bytes exactly when n is a k-byte two's complement integer. */
  lemma {:induction false} SignedWidth(n: int, k: nat)
    requires k >= 1
    ensures |ToSignedBytesBe(n)| <= k <==> -SignedBound(k) <= n < SignedBound(k)
    decreases k
  {
    if k > 1 {
      if !(-128 <= n < 128) {
        SignedWidth(n / 256, k - 1);
        assert SignedBound(k) == 256 * SignedBound(k - 1);
      }
    } else if !(-128 <= n < 128) {
      assert |ToSignedBytesBe(n)| == |ToSignedBytesBe(n / 256)| + 1;
    }
  }

  /** A byte string whose top bit is clear reads the same signed and unsigned. */
  lemma {:induction false} SignedOfNonNegative(s: seq<byte>)
    requires |s| >= 1 && s[0] < 128
    ensures FromSignedBytesBe(s) == UnsignedValue(s)
  {
    if |s| > 1 {
      SignedOfNonNegative(s[..|s| - 1]);
    } else {
      assert s[..0] == [];
    }
  }

  /** The unsigned value of a k-byte string is below 256^k, and below 2^(8k-1) when its top bit is clear. */
  lemma {:induction false} UnsignedValueBound(s: seq<byte>)
    ensures UnsignedValue(s) < Pow256(|s|)
    ensures |s| >= 1 && s[0] < 128 ==> UnsignedValue(s) < SignedBound(|s|)
  {
    if |s| > 1 {
      UnsignedValueBound(s[..|s| - 1]);
    } else if |s| == 1 {
      assert s[..0] == [];
    }
  }

  /** Encoding the value of s in |s| bytes gives s back. */
  lemma {:induction false} UnsignedBytesOfValue(s: seq<byte>)
    ensures UnsignedBytes(UnsignedValue(s), |s|) == s
  {
    if s != [] {
      var p := s[..|s| - 1];
      UnsignedBytesOfValue(p);
      assert (256 * UnsignedValue(p) + s[|s| - 1]) / 256 == UnsignedValue(p);
      assert s == p + [s[|s| - 1]];
    }
  }

  /** A value below 256^k survives encoding in k bytes. */
  lemma {:induction false} ValueOfUnsignedBytes(v: nat, k: nat)
    requires v < Pow256(k)
    ensures UnsignedValue(UnsignedBytes(v, k)) == v
  {
    if k > 0 {
      ValueOfUnsignedBytes(v / 256, k - 1);
      var s := UnsignedBytes(v, k);
      assert s[..|s| - 1] == UnsignedBytes(v / 256, k - 1);
    }
  }

  /** k zero bytes encode zero. */
  lemma {:induction false} UnsignedBytesOfZero(k: nat)
    ensures UnsignedBytes(0, k) == Zeros(k)
  {
    if k > 0 {
      UnsignedBytesOfZero(k - 1);
    }
  }

  /** A value below 2^(8k-1) encodes in k bytes with a clear top bit. */
  lemma {:induction false} UnsignedBytesTopBitClear(v: nat, k: nat)
    requires k >= 1 && v < SignedBound(k)
    ensures UnsignedBytes(v, k)[0] < 128
  {
    if k > 1 {
      UnsignedBytesTopBitClear(v / 256, k - 1);
    }
  }

  /** Adding one to a string ending in b, 255 (b below 255) gives the string ending in b + 1, 0. */
  lemma UnsignedValueCarry(prefix: seq<byte>, b: byte)
    requires b < 255
    ensures UnsignedValue(prefix + [b, 255]) + 1 == UnsignedValue(prefix + [b + 1, 0])
  {
    var s, t := prefix + [b, 255], prefix + [b + 1, 0];
    assert s[..|s| - 1] == prefix + [b] && s[..|s| - 1][..|prefix|] == prefix;
    assert t[..|t| - 1] == prefix + [b + 1] && t[..|t| - 1][..|prefix|] == prefix;
  }

  /** A value below 2^(8k-1), encoded unsigned in k bytes, reads back as itself when read signed. */
  lemma SignedOfUnsignedBytes(v: nat, k: nat)
    requires k >= 1 && v < SignedBound(k)
    ensures FromSignedBytesBe(UnsignedBytes(v, k)) == v
  {
    UnsignedBytesTopBitClear(v, k);
    SignedOfNonNegative(UnsignedBytes(v, k));
    assert SignedBound(k) <= Pow256(k);
    ValueOfUnsignedBytes(v, k);
  }

  /**
   * Padding the signed encoding of a non-negative k-byte integer on the left
   * with zero bytes gives its k-byte unsigned encoding.
   */
  lemma {:induction false} ZeroPaddedNonNegative(n: nat, k: nat)
    requires k >= 1 && n < SignedBound(k)
    ensures |ToSignedBytesBe(n)| <= k
    ensures Zeros(k - |ToSignedBytesBe(n)|) + ToSignedBytesBe(n) == UnsignedBytes(n, k)
    decreases k
  {
    SignedWidth(n, k);
    if n < 128 {
      UnsignedBytesOfZero(k - 1);
      assert UnsignedBytes(n, k) == UnsignedBytes(0, k - 1) + [n];
    } else {
      assert k > 1;
      assert SignedBound(k) == 256 * SignedBound(k - 1);
      ZeroPaddedNonNegative(n / 256, k - 1);
      var p := ToSignedBytesBe(n / 256);
      assert ToSignedBytesBe(n) == p + [n % 256];
      assert Zeros(k - |p| - 1) == Zeros(k - 1 - |p|);
    }
  }

  /** s left-padded with zero bytes to k bytes; k zero bytes when s is longer than k. */
  function PadLeft(s: seq<byte>, k: nat): (p: seq<byte>)
    ensures |p| == k
  {
    if |s| > k then Zeros(k) else Zeros(k - |s|) + s
  }

  /** Padding the signed encoding of an integer outside the k-byte range gives k zero bytes. */
  lemma PadSignedOverflow(n: int, k: nat)
    requires k >= 1 && !(-SignedBound(k) <= n < SignedBound(k))
    ensures PadLeft(ToSignedBytesBe(n), k) == Zeros(k)
  {
    SignedWidth(n, k);
  }

  /**
   * Padding the signed encoding of a k-byte integer keeps the encoding as
   * its low bytes, which read back as the integer, after zero bytes only.
   */
  lemma PadSignedLow(n: int, k: nat)
    requires k >= 1 && -SignedBound(k) <= n < SignedBound(k)
    ensures var e := ToSignedBytesBe(n);
      var p := PadLeft(e, k);
      |e| <= k && p[k - |e|..] == e && FromSignedBytesBe(p[k - |e|..]) == n
      && forall i :: 0 <= i < k - |e| ==> p[i] == 0
  {
    SignedWidth(n, k);
    SignedRoundTrip(n);
    var e := ToSignedBytesBe(n);
    ZerosAreZero(k - |e|);
    assert PadLeft(e, k) == Zeros(k - |e|) + e;
  }

  /** Padding the signed encoding of a non-negative k-byte integer gives its unsigned k-byte encoding. */
  lemma PadSignedNonNegative(n: nat, k: nat)
    requires k >= 1 && n < SignedBound(k)
    ensures PadLeft(ToSignedBytesBe(n), k) == UnsignedBytes(n, k)
    ensures FromSignedBytesBe(PadLeft(ToSignedBytesBe(n), k)) == n
  {
    ZeroPaddedNonNegative(n, k);
    SignedOfUnsignedBytes(n, k);
  }

  /** Re-encoding a string whose top bit is clear, padded to its own width, gives it back. */
  lemma PadSignedOfTopClear(s: seq<byte>)
    requires |s| >= 1 && s[0] < 128
    ensures PadLeft(ToSignedBytesBe(FromSignedBytesBe(s)), |s|) == s
  {
    SignedOfNonNegative(s);
    UnsignedValueBound(s);
    PadSignedNonNegative(UnsignedValue(s), |s|);
    UnsignedBytesOfValue(s);
  }

  /** Read signed, a string with a clear top bit ending in b, 255 (b below 255) plus one ends in b + 1, 0. */
  lemma SignedCarry(prefix: seq<byte>, b: byte)
    requires |prefix| >= 1 && prefix[0] < 128 && b < 255
    ensures FromSignedBytesBe(prefix + [b, 255]) + 1 == FromSignedBytesBe(prefix + [b + 1, 0])
  {
    UnsignedValueCarry(prefix, b);
    SignedOfNonNegative(prefix + [b, 255]);
    SignedOfNonNegative(prefix + [b + 1, 0]);
  }
}
