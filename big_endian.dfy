/**
 * Unsigned and two's-complement integers in network (big-endian) byte
 * order, as Python's `struct` module packs them under a `>` descriptor.
 */
module BigEndian {

  type byte = b: int | 0 <= b < 0x100
  type u16 = v: int | 0 <= v < 0x1_0000
  type u32 = v: int | 0 <= v < 0x1_0000_0000

  /** 256 raised to `k`: one past the largest unsigned value of `k` bytes. */
  function Pow256(k: nat): (r: nat)
    ensures r >= 1
  {
    if k == 0 then 1 else 256 * Pow256(k - 1)
  }

  lemma PowersOf256()
    ensures Pow256(1) == 0x100 && Pow256(2) == 0x1_0000 && Pow256(4) == 0x1_0000_0000
  {
  }

  /** The `width` bytes that carry `n`, most significant first. */
  function ToBE(n: nat, width: nat): (r: seq<byte>)
    requires n < Pow256(width)
    ensures |r| == width
  {
    if width == 0 then [] else ToBE(n / 256, width - 1) + [n % 256]
  }

  /** The unsigned value of a big-endian byte string. */
  function FromBE(s: seq<byte>): (r: nat)
    ensures r < Pow256(|s|)
  {
    if s == [] then 0 else FromBE(s[..|s| - 1]) * 256 + s[|s| - 1]
  }

  lemma {:induction false} FromToBE(n: nat, width: nat)
    requires n < Pow256(width)
    ensures FromBE(ToBE(n, width)) == n
  {
    if width > 0 {
      var s := ToBE(n, width);
      assert s[..|s| - 1] == ToBE(n / 256, width - 1);
      FromToBE(n / 256, width - 1);
    }
  }

  lemma {:induction false} ToFromBE(s: seq<byte>)
    ensures ToBE(FromBE(s), |s|) == s
  {
    if s != [] {
      var init := s[..|s| - 1];
      ToFromBE(init);
      assert FromBE(s) / 256 == FromBE(init);
      assert s == init + [s[|s| - 1]];
    }
  }

  const TwoTo31: int := 0x8000_0000
  const TwoTo32: int := 0x1_0000_0000

  /** A signed 32-bit value, the range of the `l` struct code. */
  predicate IsI32(v: int) { -TwoTo31 <= v < TwoTo31 }

  type i32 = v: int | IsI32(v)

  /** The two's-complement bit pattern of a signed 32-bit value. */
  function I32ToBits(v: int): (r: nat)
    requires IsI32(v)
    ensures r < TwoTo32
    ensures v >= 0 ==> r == v
  {
    if v < 0 then v + TwoTo32 else v
  }

  /** The signed value whose two's-complement bit pattern is `u`. */
  function BitsToI32(u: nat): (r: int)
    requires u < TwoTo32
    ensures IsI32(r)
    ensures u < TwoTo31 ==> r == u
  {
    if u >= TwoTo31 then u - TwoTo32 else u
  }

  lemma BitsRoundTrip(v: int, u: nat)
    requires IsI32(v) && u < TwoTo32
    ensures BitsToI32(I32ToBits(v)) == v
    ensures I32ToBits(BitsToI32(u)) == u
  {
  }
}
