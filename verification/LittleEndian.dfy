/** Little-endian integers of a fixed byte width, as `to_le_bytes` and `from_le_bytes` define them. */
module LittleEndian {
  import opened Prelude

  function Pow256(k: nat): (p: nat)
    ensures p > 0
  {
    if k == 0 then 1 else 256 * Pow256(k - 1)
  }

  /** The low `k` bytes of `n`, least significant first. */
  function ToLe(n: nat, k: nat): (s: Bytes)
    ensures |s| == k
  {
    if k == 0 then [] else [n % 256] + ToLe(n / 256, k - 1)
  }

  function FromLe(s: Bytes): nat {
    if s == [] then 0 else s[0] + 256 * FromLe(s[1..])
  }

  lemma {:induction false} FromToLe(n: nat, k: nat)
    requires n < Pow256(k)
    ensures FromLe(ToLe(n, k)) == n
  {
    if k == 0 {
    } else {
      FromToLe(n / 256, k - 1);
      assert ToLe(n, k)[1..] == ToLe(n / 256, k - 1);
    }
  }

  lemma {:induction false} ToFromLe(s: Bytes)
    ensures FromLe(s) < Pow256(|s|)
    ensures ToLe(FromLe(s), |s|) == s
  {
    if s == [] {
    } else {
      ToFromLe(s[1..]);
      assert FromLe(s) / 256 == FromLe(s[1..]) && FromLe(s) % 256 == s[0];
      assert s == [s[0]] + s[1..];
    }
  }

  lemma Widths()
    ensures Pow256(2) == 0x1_0000
    ensures Pow256(4) == 0x1_0000_0000
    ensures Pow256(8) == 0x1_0000_0000_0000_0000
  {
    assert Pow256(1) == 256;
    assert Pow256(3) == 256 * Pow256(2);
    assert Pow256(5) == 256 * Pow256(4);
    assert Pow256(6) == 256 * Pow256(5);
    assert Pow256(7) == 256 * Pow256(6);
  }

  function Le16(n: u16): (s: Bytes) ensures |s| == 2 { ToLe(n, 2) }
  function Le32(n: u32): (s: Bytes) ensures |s| == 4 { ToLe(n, 4) }
  function Le64(n: u64): (s: Bytes) ensures |s| == 8 { ToLe(n, 8) }

  function Rd16(s: Bytes): u16
    requires |s| == 2
  {
    Widths(); ToFromLe(s); FromLe(s)
  }

  function Rd32(s: Bytes): u32
    requires |s| == 4
  {
    Widths(); ToFromLe(s); FromLe(s)
  }

  function Rd64(s: Bytes): u64
    requires |s| == 8
  {
    Widths(); ToFromLe(s); FromLe(s)
  }

  lemma RoundTrip16(n: u16) ensures Rd16(Le16(n)) == n { Widths(); FromToLe(n, 2); }
  lemma RoundTrip32(n: u32) ensures Rd32(Le32(n)) == n { Widths(); FromToLe(n, 4); }
  lemma RoundTrip64(n: u64) ensures Rd64(Le64(n)) == n { Widths(); FromToLe(n, 8); }

  lemma Canonical16(s: Bytes) requires |s| == 2 ensures Le16(Rd16(s)) == s { ToFromLe(s); }
  lemma Canonical32(s: Bytes) requires |s| == 4 ensures Le32(Rd32(s)) == s { ToFromLe(s); }
  lemma Canonical64(s: Bytes) requires |s| == 8 ensures Le64(Rd64(s)) == s { ToFromLe(s); }
}
