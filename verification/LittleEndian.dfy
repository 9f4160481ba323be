/** Little-endian encoding of the fixed-width integers in SPE packets and perf.data structures. */
module LittleEndian {
  import opened Words

  function Pow256(n: nat): (r: nat)
    ensures r > 0
  {
    if n == 0 then 1 else 256 * Pow256(n - 1)
  }

  function Enc(x: nat, n: nat): (b: seq<byte>)
    ensures |b| == n
  {
    if n == 0 then [] else [x % 256] + Enc(x / 256, n - 1)
  }

  function Dec(b: seq<byte>): (x: nat)
    ensures x < Pow256(|b|)
  {
    if b == [] then 0
    else
      var low: int := b[0];
      low + 256 * Dec(b[1..])
  }

  /** Decoding an encoding gives the value back, truncated to the width. */
  lemma {:induction false} DecEnc(x: nat, n: nat)
    requires x < Pow256(n)
    ensures Dec(Enc(x, n)) == x
  {
    if n > 0 {
      DecEnc(x / 256, n - 1);
      assert Enc(x, n)[1..] == Enc(x / 256, n - 1);
    }
  }

  lemma Widths()
    ensures Pow256(1) == 0x100 && Pow256(2) == 0x1_0000 && Pow256(4) == TWO32 && Pow256(8) == TWO64
  {
    assert Pow256(2) == 256 * Pow256(1);
    assert Pow256(4) == 256 * Pow256(3) && Pow256(3) == 256 * Pow256(2);
    assert Pow256(6) == 256 * Pow256(5) && Pow256(5) == 256 * Pow256(4);
    assert Pow256(8) == 256 * Pow256(7) && Pow256(7) == 256 * Pow256(6);
  }
}
