/** Octets and the fixed-width big-endian integers the wire formats are made of. */
module Bytes {

  type byte = x: int | 0 <= x < 256
  type bytes = seq<byte>

  type u32 = x: int | 0 <= x < 0x1_0000_0000
  type u64 = x: int | 0 <= x < 0x1_0000_0000_0000_0000
  type i64 = x: int | -0x8000_0000_0000_0000 <= x < 0x8000_0000_0000_0000

  function Pow256(w: nat): (p: nat)
    ensures p > 0
  {
    if w == 0 then 1 else 256 * Pow256(w - 1)
  }

  /** The low `w` octets of `n`, most significant first (Rust's `to_be_bytes`). */
  function BigEndian(w: nat, n: nat): (b: bytes)
    ensures |b| == w
  {
    if w == 0 then [] else BigEndian(w - 1, n / 256) + [n % 256]
  }

  function FromBigEndian(b: bytes): nat {
    if b == [] then 0 else FromBigEndian(b[..|b| - 1]) * 256 + b[|b| - 1]
  }

  lemma {:induction false} BigEndianReadsBack(w: nat, n: nat)
    requires n < Pow256(w)
    ensures FromBigEndian(BigEndian(w, n)) == n
  {
    if w > 0 {
      var high := BigEndian(w - 1, n / 256);
      assert n / 256 < Pow256(w - 1);
      BigEndianReadsBack(w - 1, n / 256);
      assert BigEndian(w, n)[..w - 1] == high;
    }
  }

  /** A number too wide for the field loses its high part. */
  lemma {:induction false} BigEndianTruncates(w: nat, n: nat)
    ensures BigEndian(w, n) == BigEndian(w, n % Pow256(w))
    ensures FromBigEndian(BigEndian(w, n)) == n % Pow256(w)
  {
    hide BigEndian, FromBigEndian, Pow256;
    var p := Pow256(w);
    assert n == n % p + n / p * p;
    SameLowOctets(w, n % p, n / p);
    BigEndianReadsBack(w, n % p);
  }

  lemma {:induction false} SameLowOctets(w: nat, low: nat, high: nat)
    ensures BigEndian(w, low) == BigEndian(w, low + high * Pow256(w))
  {
    if w > 0 {
      var p := high * Pow256(w - 1);
      assert high * Pow256(w) == 256 * p;
      assert (low + 256 * p) / 256 == low / 256 + p && (low + 256 * p) % 256 == low % 256;
      SameLowOctets(w - 1, low / 256, high);
    }
  }

  lemma {:induction false} BigEndianPrintsBack(b: bytes)
    ensures FromBigEndian(b) < Pow256(|b|)
    ensures BigEndian(|b|, FromBigEndian(b)) == b
  {
    if b != [] {
      var high, low := b[..|b| - 1], b[|b| - 1];
      BigEndianPrintsBack(high);
      var n := FromBigEndian(b);
      assert n / 256 == FromBigEndian(high) && n % 256 == low;
      assert b == high + [low];
    }
  }

  /** Most significant octet first: each octet counts 256 times what the next does. */
  lemma {:induction false} MostSignificantFirst(b: bytes)
    requires b != []
    ensures FromBigEndian(b) == b[0] * Pow256(|b| - 1) + FromBigEndian(b[1..])
  {
    if |b| == 1 {
      assert b[..0] == [];
    } else {
      var high, low := b[..|b| - 1], b[|b| - 1];
      MostSignificantFirst(high);
      assert b[1..][..|b| - 2] == high[1..];
      assert b[0] * Pow256(|b| - 2) * 256 == b[0] * Pow256(|b| - 1);
    }
  }

  /** The widths in use: u16, u32 and u64. */
  lemma Widths()
    ensures Pow256(2) == 0x1_0000
    ensures Pow256(4) == 0x1_0000_0000
    ensures Pow256(8) == 0x1_0000_0000_0000_0000
  {
    assert Pow256(2) == 256 * (256 * Pow256(0));
    assert Pow256(4) == 256 * (256 * Pow256(2));
    assert Pow256(6) == 256 * (256 * Pow256(4));
    assert Pow256(8) == 256 * (256 * Pow256(6));
  }
}
