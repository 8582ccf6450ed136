/** Residues modulo a positive number, for indices that go round a list, and powers of two. */
module Arithmetic {

  function Pow2(k: nat): (p: nat)
    ensures 0 < p
  {
    if k == 0 then 1 else 2 * Pow2(k - 1)
  }

  /** The next index of a list of length `n`, going round. */
  function After(i: nat, n: nat): (j: nat)
    requires i < n
    ensures j < n
  {
    if i + 1 == n then 0 else i + 1
  }

  /** The index reached from `start`, itself taken round the list, after `k` single steps. */
  function Cyclic(start: nat, k: nat, n: nat): (i: nat)
    requires 0 < n
    ensures i < n
  {
    if k == 0 then start % n else After(Cyclic(start, k - 1, n), n)
  }

  /** Walking one step at a time is adding and reducing. */
  lemma {:induction false} CyclicIsResidue(start: nat, k: nat, n: nat)
    requires 0 < n
    ensures Cyclic(start, k, n) == (start + k) % n
    decreases k
  {
    if k > 0 {
      CyclicIsResidue(start, k - 1, n);
      AfterIsResidue(start + (k - 1), n);
    }
  }

  lemma AfterIsResidue(a: nat, n: nat)
    requires 0 < n
    ensures a % n < n && After(a % n, n) == (a + 1) % n
  {
    AddReduced(a, 1, n);
    if a % n + 1 < n { Small(a % n + 1, n); } else { WrapOnce(a % n + 1, n); }
  }

  lemma Unique(q: int, r: int, n: int)
    requires 0 <= r < n
    ensures (q * n + r) % n == r
  {
    var q', r' := (q * n + r) / n, (q * n + r) % n;
    assert q * n + r == q' * n + r';
    assert (q - q') * n == r' - r;
    Multiple(q - q', n);
  }

  lemma Multiple(k: int, n: int)
    requires 0 < n && -n < k * n < n
    ensures k == 0
  {
  }

  /** Reducing first does not change the residue of a sum. */
  lemma AddReduced(a: int, b: int, n: int)
    requires 0 < n
    ensures (a % n + b) % n == (a + b) % n
  {
    var q := a / n;
    var s := a % n + b;
    assert a + b == q * n + s;
    assert s == (s / n) * n + s % n;
    assert a + b == (q + s / n) * n + s % n;
    Unique(q + s / n, s % n, n);
  }

  lemma Small(a: int, n: int)
    requires 0 <= a < n
    ensures a % n == a
  {
    Unique(0, a, n);
  }

  lemma WrapOnce(a: int, n: int)
    requires 0 < n <= a < 2 * n
    ensures a % n == a - n
  {
    Unique(1, a - n, n);
  }

  /** Two numbers less than `n` apart with the same residue are equal. */
  lemma SameResidue(a: int, b: int, n: int)
    requires 0 < n && a <= b < a + n && a % n == b % n
    ensures a == b
  {
    var r := a % n;
    AddReduced(a, b - a, n);
    if r + (b - a) < n {
      Small(r + (b - a), n);
    } else {
      WrapOnce(r + (b - a), n);
    }
  }

  /** A full round from any start meets every index, and meets none twice. */
  lemma RoundCoversOnce(start: nat, n: nat, i: nat) returns (k: nat)
    requires i < n
    ensures k < n && Cyclic(start, k, n) == i
    ensures forall l: nat | l < n && Cyclic(start, l, n) == i :: l == k
  {
    var r := start % n;
    k := if i >= r then i - r else i - r + n;
    AddReduced(start, k, n);
    if r + k < n { Small(r + k, n); } else { WrapOnce(r + k, n); }
    CyclicIsResidue(start, k, n);
    forall l: nat | l < n && Cyclic(start, l, n) == i ensures l == k { CyclicInjective(start, k, l, n); }
  }

  /** Fewer than `n` steps apart, different numbers of steps lead to different indices. */
  lemma CyclicInjective(start: nat, k: nat, l: nat, n: nat)
    requires 0 < n && Cyclic(start, k, n) == Cyclic(start, l, n)
    requires k < l + n && l < k + n
    ensures k == l
  {
    CyclicIsResidue(start, k, n);
    CyclicIsResidue(start, l, n);
    if l <= k { SameResidue(start + l, start + k, n); } else { SameResidue(start + k, start + l, n); }
  }

  /** Starting later is walking further. */
  lemma {:induction false} CyclicShift(start: nat, w: nat, k: nat, n: nat)
    requires 0 < n
    ensures Cyclic(start + w, k, n) == Cyclic(start, w + k, n)
    decreases k
  {
    if k == 0 { CyclicIsResidue(start, w, n); } else { CyclicShift(start, w, k - 1, n); }
  }
}
