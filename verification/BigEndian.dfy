// Fixed-width integers in network byte order, unsigned and in two's complement:
// bytes to numbers and back, for any number of bytes (utils_copyValue in
// wakaama/core/utils.c).
module BigEndian {
  import opened Common

  function Pow256(n: nat): (p: int)
    ensures p > 0
  {
    if n == 0 then 1 else 256 * Pow256(n - 1)
  }

  // The low `n` bytes of `v`, most significant first.
  function Bytes(v: nat, n: nat): (b: seq<byte>)
    ensures |b| == n
  {
    if n == 0 then [] else Bytes(v / 256, n - 1) + [v % 256]
  }

  function Number(b: seq<byte>): nat {
    if b == [] then 0 else 256 * Number(b[..|b| - 1]) + b[|b| - 1]
  }

  lemma {:induction false} NumberOfBytes(v: nat, n: nat)
    requires v < Pow256(n)
    ensures Number(Bytes(v, n)) == v
  {
    if n > 0 {
      NumberOfBytes(v / 256, n - 1);
      assert Bytes(v, n)[..n - 1] == Bytes(v / 256, n - 1);
    }
  }

  lemma Widths()
    ensures Pow256(1) == 0x100 && Pow256(2) == 0x1_0000 && Pow256(3) == 0x100_0000
    ensures Pow256(4) == 0x1_0000_0000 && Pow256(8) == 0x1_0000_0000_0000_0000
  {
    assert Pow256(1) == 256 * Pow256(0);
    assert Pow256(2) == 256 * Pow256(1);
    assert Pow256(3) == 256 * Pow256(2);
    assert Pow256(4) == 256 * Pow256(3);
    assert Pow256(5) == 256 * Pow256(4);
    assert Pow256(6) == 256 * Pow256(5);
    assert Pow256(7) == 256 * Pow256(6);
    assert Pow256(8) == 256 * Pow256(7);
  }

  // Two's complement in `n` bytes.
  function Unsigned(v: int, n: nat): nat
    requires -Pow256(n) <= v
  {
    if v < 0 then v + Pow256(n) else v
  }

  function Signed(v: int, n: nat): int {
    if 2 * v < Pow256(n) then v else v - Pow256(n)
  }

  ghost predicate FitsSigned(v: int, n: nat) { -Pow256(n) <= 2 * v < Pow256(n) }

  lemma SignedRoundTrip(v: int, n: nat)
    requires FitsSigned(v, n)
    ensures 0 <= Unsigned(v, n) < Pow256(n) && Signed(Unsigned(v, n), n) == v
  {
  }
}
