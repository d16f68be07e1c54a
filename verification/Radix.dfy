/** Big-endian digit strings and right shifts. */
module Radix {

  predicate DigitsBelow(base: nat, ds: seq<nat>) {
    forall i :: 0 <= i < |ds| ==> ds[i] < base
  }

  function Number(base: nat, ds: seq<nat>): nat {
    if ds == [] then 0 else Number(base, ds[..|ds| - 1]) * base + ds[|ds| - 1]
  }

  function Pow2(k: nat): (p: nat)
    ensures 0 < p
  {
    if k == 0 then 1 else 2 * Pow2(k - 1)
  }

  /** v >> k */
  function Shr(v: nat, k: nat): nat {
    if k == 0 then v else Shr(v / 2, k - 1)
  }

  lemma {:induction false} ShrStep(v: nat, k: nat)
    ensures Shr(v, k + 1) == Shr(v, k) / 2
  {
    if k > 0 {
      ShrStep(v / 2, k - 1);
    }
  }

  lemma ShrFive(v: nat, k: nat)
    ensures Shr(v, k + 5) == Shr(v, k) / 32
  {
    ShrStep(v, k);
    ShrStep(v, k + 1);
    ShrStep(v, k + 2);
    ShrStep(v, k + 3);
    ShrStep(v, k + 4);
  }

  lemma {:induction false} ShrVanishes(v: nat, k: nat)
    requires v < Pow2(k)
    ensures Shr(v, k) == 0
  {
    if k > 0 {
      ShrVanishes(v / 2, k - 1);
    }
  }

  /** Equal numbers of equal length are equal digit by digit. */
  lemma {:induction false} NumberInjective(s: seq<nat>, t: seq<nat>)
    requires |s| == |t| && DigitsBelow(32, s) && DigitsBelow(32, t) && Number(32, s) == Number(32, t)
    ensures s == t
  {
    if s != [] {
      var n := |s| - 1;
      NumberInjective(s[..n], t[..n]);
      assert s == s[..n] + [s[n]] && t == t[..n] + [t[n]];
    }
  }

  /** A smaller number has the smaller digit at the first place where the two differ. */
  lemma {:induction false} FirstDifference(s: seq<nat>, t: seq<nat>) returns (k: nat)
    requires |s| == |t| && DigitsBelow(32, s) && DigitsBelow(32, t) && Number(32, s) < Number(32, t)
    ensures k < |s| && s[..k] == t[..k] && s[k] < t[k]
  {
    var n := |s| - 1;
    if Number(32, s[..n]) < Number(32, t[..n]) {
      k := FirstDifference(s[..n], t[..n]);
      assert s[..k] == s[..n][..k] && t[..k] == t[..n][..k];
    } else {
      NumberInjective(s[..n], t[..n]);
      k := n;
    }
  }
}
