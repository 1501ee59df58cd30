/** A sequence longer than there are values for its entries has one of them twice. */
module Pigeonholes {
  lemma {:induction false} Pigeonhole(p: seq<nat>, n: nat)
    requires |p| > n && forall i | 0 <= i < |p| :: p[i] < n
    ensures exists i, j :: 0 <= i < j < |p| && p[i] == p[j]
    decreases n
  {
    assert p[0] < n;
    if n > 0 {
      if forall i, j | 0 <= i < j < |p| :: p[i] != p[j] {
        var q := seq(|p| - 1, i requires 0 <= i < |p| - 1 => if p[i] == n - 1 then p[|p| - 1] else p[i]);
        forall i | 0 <= i < |q| ensures q[i] < n - 1 {
          assert p[i] != p[|p| - 1];
        }
        forall i, j | 0 <= i < j < |q| ensures q[i] != q[j] {
          assert p[i] != p[j] && p[i] != p[|p| - 1] && p[j] != p[|p| - 1];
        }
        Pigeonhole(q, n - 1);
      }
    }
  }
}
