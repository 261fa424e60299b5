/** Facts about indices that advance modulo the size of a ring. */
module RingArithmetic {

  lemma Decompose(a: int, n: nat)
    requires n > 0
    ensures a == n * (a / n) + a % n && 0 <= a % n < n
  {}

  lemma Quotient(a: nat, n: nat)
    requires n > 0
    ensures 0 <= n * (a / n) <= a
    ensures a >= n <==> a / n >= 1
  {
    Decompose(a, n);
  }

  lemma Unique(a: int, n: nat, q: int, r: nat)
    requires n > 0 && r < n && a == n * q + r
    ensures a / n == q && a % n == r
  {
    Decompose(a, n);
    var d := a / n - q;
    assert n * d == r - a % n by { Distribute(n, a / n, q); }
    if d > 0 { MulGrows(n, d); } else if d < 0 { MulGrows(n, -d); NegMul(n, d); }
  }

  lemma Distribute(n: int, a: int, b: int)
    ensures n * (a - b) == n * a - n * b
  {}

  lemma NegMul(n: int, d: int)
    ensures n * -d == -(n * d)
  {}

  lemma MulGrows(n: nat, d: int)
    requires d > 0
    ensures n * d >= n
  {}

  /** Two counts name the same slot exactly when they differ by whole turns of the ring. */
  lemma SameSlot(a: nat, b: nat, n: nat)
    requires n > 0 && a <= b
    ensures a % n == b % n <==> (b - a) % n == 0
  {
    Decompose(a, n);
    Decompose(b, n);
    Decompose(b - a, n);
    Distribute(n, b / n, a / n);
    if a % n == b % n {
      Unique(b - a, n, b / n - a / n, 0);
    }
    if (b - a) % n == 0 {
      assert b == n * (a / n + (b - a) / n) + a % n;
      Unique(b, n, a / n + (b - a) / n, a % n);
    }
  }

  /** Counts less than one turn apart name different slots. */
  lemma DistinctSlots(a: nat, b: nat, n: nat)
    requires n > 0 && a < b < a + n
    ensures a % n != b % n
  {
    SameSlot(a, b, n);
    Unique(b - a, n, 0, b - a);
  }

  /** Advancing an index modulo the size tracks the count it stands for. */
  lemma Advance(a: nat, n: nat)
    requires n > 0
    ensures (a % n + 1) % n == (a + 1) % n
  {
    Decompose(a, n);
    Decompose(a % n + 1, n);
    var q := (a % n + 1) / n;
    assert a + 1 == n * (a / n + q) + (a % n + 1) % n;
    Unique(a + 1, n, a / n + q, (a % n + 1) % n);
  }
}
