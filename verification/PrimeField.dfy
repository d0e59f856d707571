/** Arithmetic of the integers modulo a prime: the group every point lives in. */
module PrimeField {

  ghost predicate IsPrime(q: nat) {
    q > 1 && forall d: nat :: 1 < d < q ==> q % d != 0
  }

  lemma ModOf(a: int, t: int, r: int, q: nat)
    requires q > 0 && a == t * q + r && 0 <= r < q
    ensures a % q == r
  {
    var u := a / q;
    assert a == u * q + a % q;
    assert (u - t) * q == r - a % q by {
      assert (u - t) * q == u * q - t * q;
    }
    if u != t {
      MultipleIsLarge(u - t, q);
    }
  }

  lemma MultipleIsLarge(x: int, q: int)
    requires q > 0 && x != 0
    ensures x * q >= q || x * q <= -q
  {
    if x > 0 {
      assert (x - 1) * q >= 0;
    } else {
      assert (-x - 1) * q >= 0;
    }
  }

  /** Whole multiples of q do not matter. */
  lemma ModShift(a: int, t: int, q: nat)
    requires q > 0
    ensures (a + t * q) % q == a % q
  {
    var r := a % q;
    assert a + t * q == (a / q + t) * q + r by {
      assert (a / q + t) * q == (a / q) * q + t * q;
    }
    ModOf(a + t * q, a / q + t, r, q);
  }

  /** a and b leave the same remainder. */
  ghost predicate Cong(a: int, b: int, q: nat)
    requires q > 0
  {
    (a - b) % q == 0
  }

  lemma CongMod(a: int, b: int, q: nat)
    requires q > 0
    ensures Cong(a, b, q) <==> a % q == b % q
  {
    var t := a / q - b / q;
    var d := a % q - b % q;
    assert a - b == d + t * q by {
      assert t * q == (a / q) * q - (b / q) * q;
    }
    ModShift(d, t, q);
    assert d % q == 0 <==> d == 0 by {
      if d < 0 {
        ModOf(d, -1, d + q, q);
      } else {
        ModOf(d, 0, d, q);
      }
    }
  }

  lemma CongWitness(a: int, b: int, q: nat) returns (t: int)
    requires q > 0 && Cong(a, b, q)
    ensures a == b + t * q
  {
    t := (a - b) / q;
    assert a - b == t * q + (a - b) % q;
  }

  lemma CongFrom(a: int, b: int, t: int, q: nat)
    requires q > 0 && a == b + t * q
    ensures Cong(a, b, q)
  {
    ModOf(a - b, t, 0, q);
  }

  lemma CongReduce(a: int, q: nat)
    requires q > 0
    ensures Cong(a % q, a, q)
  {
    assert a == (a / q) * q + a % q;
    assert a % q == a + (-(a / q)) * q by {
      assert (-(a / q)) * q == -((a / q) * q);
    }
    CongFrom(a % q, a, -(a / q), q);
  }

  lemma CongTrans(a: int, b: int, c: int, q: nat)
    requires q > 0 && Cong(a, b, q) && Cong(b, c, q)
    ensures Cong(a, c, q)
  {
    var s := CongWitness(a, b, q);
    var t := CongWitness(b, c, q);
    assert s * q + t * q == (s + t) * q;
    CongFrom(a, c, s + t, q);
  }

  lemma CongSub(a: int, b: int, c: int, d: int, q: nat)
    requires q > 0 && Cong(a, b, q) && Cong(c, d, q)
    ensures Cong(a - c, b - d, q)
  {
    var s := CongWitness(a, b, q);
    var t := CongWitness(c, d, q);
    assert s * q - t * q == (s - t) * q;
    CongFrom(a - c, b - d, s - t, q);
  }

  lemma CongMul(k: int, a: int, b: int, q: nat)
    requires q > 0 && Cong(a, b, q)
    ensures Cong(k * a, k * b, q)
  {
    var t := CongWitness(a, b, q);
    assert k * a == k * b + (k * t) * q by {
      assert k * (b + t * q) == k * b + (k * t) * q;
    }
    CongFrom(k * a, k * b, k * t, q);
  }

  /** Euclid: a prime divides no product of two smaller positive numbers. */
  lemma {:induction false} NoZeroDivisors(a: nat, b: nat, q: nat)
    requires IsPrime(q) && 0 < a < q && 0 < b < q
    ensures (a * b) % q != 0
    decreases a
  {
    if a == 1 {
      assert a * b == b;
      ModOf(b, 0, b, q);
    } else {
      var r := q % a;
      assert r != 0;
      NoZeroDivisors(r, b, q);
      if (a * b) % q == 0 {
        Remainder(a, b, q);
      }
    }
  }

  lemma Remainder(a: nat, b: nat, q: nat)
    requires 0 < a < q && (a * b) % q == 0
    ensures ((q % a) * b) % q == 0
  {
    var k, m := q / a, (a * b) / q;
    assert a * b == m * q;
    assert (q % a) * b == (b - k * m) * q by {
      assert q % a == q - k * a;
      assert (q - k * a) * b == q * b - k * (a * b);
      assert k * (m * q) == (k * m) * q;
      assert (b - k * m) * q == b * q - (k * m) * q;
    }
    ModOf((q % a) * b, b - k * m, 0, q);
  }
}
