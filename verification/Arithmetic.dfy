/** Division and the bitwise and, shared by the frames, the blobs and the netmasks. */
module Arithmetic {
  // ----- Division -----

  lemma DivByProduct(n: nat, p: nat)
    requires p > 0
    ensures n / (256 * p) == (n / 256) / p
  {
    var q := n / 256;
    var q', r' := q / p, q % p;
    assert q == p * q' + r';
    Regroup(p, q');
    DivisionIsUnique(n, 256 * p, q', 256 * r' + n % 256);
  }

  lemma Regroup(p: nat, q: nat)
    ensures 256 * (p * q) == (256 * p) * q
  {
  }

  lemma DivisionIsUnique(n: nat, d: nat, q: nat, r: nat)
    requires d > 0 && n == d * q + r && r < d
    ensures n / d == q && n % d == r
  {
    var q', r' := n / d, n % d;
    assert d * (q - q') == r' - r;
    if q != q' {
      NonzeroMultiple(d, q - q');
    }
  }

  lemma NonzeroMultiple(d: int, k: int)
    requires d > 0 && k != 0
    ensures d * k >= d || d * k <= -d
  {
    if k > 0 {
      assert d * k >= d * 1;
    } else {
      assert d * k <= d * -1;
    }
  }

  // ----- The bitwise and -----

  /** The bitwise and of an int in two's complement with a mask. */
  function BitAnd(d: int, mask: nat): nat
    decreases mask, d
  {
    if mask == 0 then 0 else 2 * BitAnd(d / 2, mask / 2) + (if d % 2 == 1 && mask % 2 == 1 then 1 else 0)
  }

  lemma BitAndStep(d: int, mask: nat)
    ensures BitAnd(d, 2 * mask) == 2 * BitAnd(d / 2, mask)
    ensures BitAnd(d, 2 * mask + 1) == 2 * BitAnd(d / 2, mask) + d % 2
  {
    BitAndUnfold(d, 2 * mask);
    BitAndUnfold(d, 2 * mask + 1);
    BitAndUnfold(d / 2, mask);
    hide BitAnd;
    assert 2 * mask / 2 == mask && (2 * mask + 1) / 2 == mask;
  }

  lemma BitAndUnfold(d: int, mask: nat)
    ensures mask == 0 ==> BitAnd(d, mask) == 0
    ensures mask > 0 ==>
              BitAnd(d, mask) == 2 * BitAnd(d / 2, mask / 2) + (if d % 2 == 1 && mask % 2 == 1 then 1 else 0)
  {
  }
}
