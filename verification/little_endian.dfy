/** Little-endian byte encoding of unsigned integers (`u64::to_le_bytes`, `u64::from_le_bytes`). */
module LittleEndian {
  import opened Primitives

  /** 256 to the power k: the number of values that k bytes can hold. */
  function Pow256(k: nat): (p: nat)
    ensures p >= 1
  {
    if k == 0 then 1 else 256 * Pow256(k - 1)
  }

  /** Eight bytes hold exactly the `u64` values. */
  lemma Pow256Of8()
    ensures Pow256(8) == 0x1_0000_0000_0000_0000
  {
    assert Pow256(4) == 0x1_0000_0000;
  }

  /** The k low-order bytes of v, least significant first; `to_le_bytes` is the case k = 8. */
  function ToLeBytes(v: nat, k: nat): (r: seq<byte>)
    ensures |r| == k
  {
    if k == 0 then [] else [v % 256] + ToLeBytes(v / 256, k - 1)
  }

  /** The value of bytes read least significant first; `from_le_bytes` is the case of 8 bytes. */
  function FromLeBytes(bs: seq<byte>): (v: nat)
    ensures v < Pow256(|bs|)
  {
    if bs == [] then 0 else bs[0] + 256 * FromLeBytes(bs[1..])
  }

  /** Reading back the bytes written for a value that fits returns that value. */
  lemma {:induction false} LeRoundTrip(v: nat, k: nat)
    requires v < Pow256(k)
    ensures FromLeBytes(ToLeBytes(v, k)) == v
  {
    if k > 0 {
      var bs := ToLeBytes(v, k);
      assert bs[1..] == ToLeBytes(v / 256, k - 1);
      LeRoundTrip(v / 256, k - 1);
    }
  }
}
