/** HTB quantum arithmetic: the r2q divisor and the quantum of a class. */
module QueueMath {

  const MAX_QUANTUM := 60000
  const MIN_QUANTUM := 1522
  const BYTES_PER_MBIT := 125000

  /** The divisor keeps the quantum of a rate within the maximum. */
  ghost predicate Divides(rate: nat, r2q: nat) {
    rate * 125000 <= 60000 * r2q
  }

  /** The least divisor from 10 upwards that keeps `rate` within the maximum quantum. */
  function R2q(rate: nat): (r: nat)
    ensures r >= 10 && Divides(rate, r)
    ensures forall s :: 10 <= s < r ==> !Divides(rate, s)
  {
    var needed := (rate * BYTES_PER_MBIT + MAX_QUANTUM - 1) / MAX_QUANTUM;
    if needed <= 10 then 10 else needed
  }

  lemma RealDivision(bytes: nat, r2q: nat)
    requires r2q > 0
    ensures (bytes as real) / (r2q as real) > (MAX_QUANTUM as real) <==> bytes > MAX_QUANTUM * r2q
  {
    var b, r := bytes as real, r2q as real;
    assert (b / r) * r == b;
    if b / r > 60000.0 {
      assert (b / r) * r > 60000.0 * r;
    } else {
      assert (b / r) * r <= 60000.0 * r;
    }
  }

  lemma LeastDivisorUnique(rate: nat, r: nat)
    requires r >= 10 && Divides(rate, r) && forall s :: 10 <= s < r ==> !Divides(rate, s)
    ensures r == R2q(rate)
  {
  }

  /** r2q as written: divide, compare, increment. */
  method ComputeR2q(rate: nat) returns (r2q: nat)
    ensures r2q == R2q(rate)
  {
    var bytes := rate * BYTES_PER_MBIT;
    r2q := 10;
    var quantum := (bytes as real) / (r2q as real);
    RealDivision(bytes, r2q);
    while quantum > MAX_QUANTUM as real
      invariant r2q >= 10
      invariant quantum > MAX_QUANTUM as real <==> !Divides(rate, r2q)
      invariant forall s :: 10 <= s < r2q ==> !Divides(rate, s)
      decreases bytes - MAX_QUANTUM * r2q
    {
      r2q := r2q + 1;
      quantum := (bytes as real) / (r2q as real);
      RealDivision(bytes, r2q);
    }
    LeastDivisorUnique(rate, r2q);
  }

  function Quantum(rate: nat, r2q: nat): (q: nat)
    requires r2q > 0
  {
    var q := rate * BYTES_PER_MBIT / r2q;
    if q < MIN_QUANTUM then MIN_QUANTUM else q
  }

  /** q is the floor of the rate in bytes over the divisor, but never below the minimum. */
  predicate IsQuantum(q: nat, rate: nat, r2q: nat) {
    if rate * 125000 < 1522 * r2q then q == 1522 else q * r2q <= rate * 125000 < (q + 1) * r2q
  }

  lemma QuotientIsFloor(a: nat, b: nat, c: nat)
    requires b > 0
    ensures (a / b) * b <= a < (a / b + 1) * b
    ensures a / b < c <==> a < c * b
  {
    var q := a / b;
    assert a == q * b + a % b && (q + 1) * b == q * b + b;
    if q < c {
      assert (q + 1) * b <= c * b;
    } else {
      assert c * b <= q * b;
    }
  }

  lemma QuantumIsFloor(rate: nat, r2q: nat)
    requires r2q > 0
    ensures IsQuantum(Quantum(rate, r2q), rate, r2q)
  {
    QuotientIsFloor(rate * BYTES_PER_MBIT, r2q, MIN_QUANTUM);
  }

  /** A rate within the capacity the divisor was computed for gets a quantum within bounds. */
  lemma QuantumInBounds(rate: nat, capacity: nat)
    requires rate <= capacity
    ensures 1522 <= Quantum(rate, R2q(capacity)) <= 60000
  {
    var r := R2q(capacity);
    var bytes := rate * BYTES_PER_MBIT;
    assert bytes <= MAX_QUANTUM * r;
    QuotientBound(bytes, r, MAX_QUANTUM);
  }

  lemma QuotientBound(a: nat, b: nat, c: nat)
    requires b > 0 && a <= c * b
    ensures a / b <= c
  {
  }
}
