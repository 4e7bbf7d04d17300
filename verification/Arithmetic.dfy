/** Multiples and remainders, for alignments and float significands. */
module Arithmetic {
  lemma {:induction false} Multiple(q: nat, a: nat)
    requires a > 0
    ensures q * a % a == 0
  {
    if q > 0 {
      Multiple(q - 1, a);
      assert q * a == (q - 1) * a + a;
      Shifted((q - 1) * a, a);
    }
  }

  lemma Shifted(x: nat, a: nat)
    requires a > 0
    ensures (x + a) % a == x % a
  {
    var q, r := x / a, x % a;
    assert x + a == (q + 1) * a + r;
    Unique(x + a, a, q + 1, r);
  }

  lemma Unique(x: nat, a: nat, q: nat, r: nat)
    requires a > 0 && x == q * a + r && r < a
    ensures x % a == r
  {
    var p := x / a;
    Gap(p, q, a);
    Gap(q, p, a);
  }

  lemma {:induction false} Gap(p: nat, q: nat, a: nat)
    ensures p > q ==> p * a >= q * a + a
  {
    if p > q {
      assert p * a == (p - 1) * a + a;
      Gap(p - 1, q, a);
    }
  }

  lemma {:induction false} AddMultiples(x: nat, q: nat, a: nat)
    requires a > 0
    ensures (x + q * a) % a == x % a
  {
    if q > 0 {
      AddMultiples(x, q - 1, a);
      assert x + q * a == x + (q - 1) * a + a;
      Shifted(x + (q - 1) * a, a);
    }
  }
}
