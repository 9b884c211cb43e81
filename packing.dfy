/** Fixed-width big-endian unsigned integers, as `struct.pack(">Q", v)` writes them. */
module Packing {
  import opened Types

  /** 256 to the power k: the number of values k octets can hold. */
  function Pow256(k: nat): (p: nat)
    ensures p >= 1
  {
    if k == 0 then 1 else 256 * Pow256(k - 1)
  }

  /** Values that fit an unsigned 64-bit field (format code `Q`). */
  const U64_LIMIT: nat := 0x1_0000_0000_0000_0000

  predicate InU64(v: int) {
    0 <= v < U64_LIMIT
  }

  /** The k low-order octets of v, most significant first. */
  function BigEndian(v: nat, k: nat): (r: seq<byte>)
    ensures |r| == k
  {
    if k == 0 then [] else BigEndian(v / 256, k - 1) + [v % 256]
  }

  /** The unsigned integer that the octets b encode, most significant first. */
  function FromBigEndian(b: seq<byte>): (v: nat)
    ensures v < Pow256(|b|)
  {
    if b == [] then 0
    else
      var high := FromBigEndian(b[..|b| - 1]);
      assert high * 256 <= (Pow256(|b| - 1) - 1) * 256;
      high * 256 + b[|b| - 1]
  }

  lemma Pow256Of8()
    ensures Pow256(8) == U64_LIMIT
  {
    assert Pow256(2) == 0x1_0000;
    assert Pow256(4) == 0x1_0000_0000 by {
      assert Pow256(3) == 256 * Pow256(2);
    }
    assert Pow256(6) == 0x1_0000_0000_0000 by {
      assert Pow256(5) == 256 * Pow256(4);
    }
    assert Pow256(7) == 256 * Pow256(6);
  }

  /** Decoding what BigEndian wrote gives the value back, when it fits in k octets. */
  lemma {:induction false} BigEndianRoundTrip(v: nat, k: nat)
    requires v < Pow256(k)
    ensures FromBigEndian(BigEndian(v, k)) == v
  {
    if k > 0 {
      var b := BigEndian(v, k);
      assert b[..k - 1] == BigEndian(v / 256, k - 1);
      assert v / 256 < Pow256(k - 1) by {
        assert v < 256 * Pow256(k - 1);
      }
      BigEndianRoundTrip(v / 256, k - 1);
    }
  }

  /** Every octet string is the big-endian form of the value it decodes to. */
  lemma {:induction false} FromBigEndianRoundTrip(b: seq<byte>)
    ensures BigEndian(FromBigEndian(b), |b|) == b
  {
    if b != [] {
      var n := |b|;
      var high := FromBigEndian(b[..n - 1]);
      var v := high * 256 + b[n - 1];
      assert v / 256 == high && v % 256 == b[n - 1];
      FromBigEndianRoundTrip(b[..n - 1]);
      assert b == b[..n - 1] + [b[n - 1]];
    }
  }

  /**
   * `struct.pack(">Q", v)`: eight big-endian octets, or `struct.error`
   * when v does not fit an unsigned 64-bit field.
   */
  function PackU64(v: int): (r: Result<seq<byte>>)
    ensures r.Ok? <==> InU64(v)
    ensures r.Ok? ==> |r.value| == 8
    ensures r.Err? ==> r.error == PackOutOfRange
  {
    if InU64(v) then Ok(BigEndian(v, 8)) else Err(PackOutOfRange)
  }

  /** The eight octets written for a value that fits read back as that value. */
  lemma PackU64Decodes(v: int)
    requires InU64(v)
    ensures FromBigEndian(PackU64(v).value) == v
  {
    Pow256Of8();
    BigEndianRoundTrip(v, 8);
  }

  /** Every eight octets are what PackU64 writes for the value they decode to. */
  lemma PackU64Onto(b: seq<byte>)
    requires |b| == 8
    ensures PackU64(FromBigEndian(b)) == Ok(b)
  {
    Pow256Of8();
    FromBigEndianRoundTrip(b);
  }
}
