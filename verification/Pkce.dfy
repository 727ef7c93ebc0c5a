/** PKCE verification (section 4.6 of RFC 7636), S256 only. */
module Pkce {
  type Octets = seq<bv8>

  /** Octets at which two strings of the same length differ, folded as the comparison does it. */
  function Diff(a: Octets, b: Octets): bv8
    requires |a| == |b|
  {
    if a == [] then 0 else Diff(a[..|a| - 1], b[..|b| - 1]) | (a[|a| - 1] ^ b[|b| - 1])
  }

  lemma NoBitDiffers(diff: bv8, x: bv8, y: bv8)
    ensures diff | (x ^ y) == 0 <==> diff == 0 && x == y
  {
  }

  /** No difference is left exactly when the strings are equal. */
  lemma {:induction false} DiffIsEquality(a: Octets, b: Octets)
    requires |a| == |b|
    ensures Diff(a, b) == 0 <==> a == b
  {
    if a == [] {
    } else {
      var n := |a| - 1;
      DiffIsEquality(a[..n], b[..n]);
      NoBitDiffers(Diff(a[..n], b[..n]), a[n], b[n]);
      assert a == a[..n] + [a[n]] && b == b[..n] + [b[n]];
    }
  }

  /** Looks at every octet whatever the earlier ones were, and still decides equality. */
  method TimingSafeEq(a: Octets, b: Octets) returns (same: bool)
    ensures same <==> a == b
  {
    if |a| != |b| {
      return false;
    }
    var diff: bv8 := 0;
    for i := 0 to |a|
      invariant diff == Diff(a[..i], b[..i])
    {
      assert a[..i + 1][..i] == a[..i] && b[..i + 1][..i] == b[..i];
      diff := diff | (a[i] ^ b[i]);
    }
    assert a[..|a|] == a && b[..|b|] == b;
    DiffIsEquality(a, b);
    return diff == 0;
  }

  /** `s256` is BASE64URL(SHA256(·)) without padding. */
  method VerifyS256(s256: Octets -> Octets, verifier: Octets, challenge: Octets) returns (ok: bool)
    ensures ok <==> s256(verifier) == challenge
  {
    var computed := s256(verifier);
    ok := TimingSafeEq(computed, challenge);
  }
}
