/** What a JSON round trip does to an unsigned integer: it comes back as the nearest
    double, ties to even. `copyMemory` sends every State number through this. */
module JsonNumbers {

  const EXACT := 0x20_0000_0000_0000
  const HALF := 0x10_0000_0000_0000

  /** The spacing of doubles at this magnitude. */
  function Ulp(r: nat): (u: nat)
    ensures u > 0
    ensures r < EXACT ==> u == 1
    ensures r < EXACT * u
    ensures r >= EXACT ==> HALF * u <= r
  {
    if r < EXACT then 1 else 2 * Ulp(r / 2)
  }

  /** The multiple of the spacing that rounding picks. */
  function RoundedUnits(r: nat): nat {
    var u := Ulp(r);
    var q, rem := r / u, r % u;
    if 2 * rem < u || (2 * rem == u && q % 2 == 0) then q else q + 1
  }

  /** The value read back. */
  function JsonRevision(r: nat): nat {
    RoundedUnits(r) * Ulp(r)
  }

  lemma ExactBelow(r: nat)
    requires r <= EXACT
    ensures JsonRevision(r) == r
  {
    if r == EXACT {
      assert Ulp(EXACT / 2) == 1;
      assert Ulp(r) == 2;
      assert r / 2 * 2 == r;
    }
  }

  lemma {:induction false} UlpMonotone(r: nat, s: nat)
    requires r <= s
    ensures Ulp(r) <= Ulp(s)
    ensures Ulp(r) == Ulp(s) || 2 * Ulp(r) <= Ulp(s)
    decreases s
  {
    if r >= EXACT {
      UlpMonotone(r / 2, s / 2);
    } else if s >= EXACT {
      assert Ulp(s) == 2 * Ulp(s / 2);
    }
  }

  lemma UnitsBound(r: nat)
    ensures r / Ulp(r) <= RoundedUnits(r) <= r / Ulp(r) + 1
    ensures RoundedUnits(r) <= EXACT
    ensures r >= EXACT ==> HALF <= RoundedUnits(r)
  {
    var u := Ulp(r);
    DivBounds(r, u, EXACT);
    if r >= EXACT {
      DivAtLeast(r, u, HALF);
    }
  }

  lemma DivBounds(r: nat, u: nat, k: nat)
    requires u > 0 && r < k * u
    ensures r / u < k
  {
    var q := r / u;
    assert q * u <= r;
    if q >= k {
      MulMonotone(k, q, u);
    }
  }

  lemma DivAtLeast(r: nat, u: nat, k: nat)
    requires u > 0 && k * u <= r
    ensures k <= r / u
  {
    var q := r / u;
    assert r < (q + 1) * u;
    if q < k {
      MulMonotone(q + 1, k, u);
    }
  }

  lemma MulMonotone(a: nat, b: nat, u: nat)
    requires a <= b
    ensures a * u <= b * u
  {
  }

  lemma DivMonotone(r: nat, s: nat, u: nat)
    requires u > 0 && r <= s
    ensures r / u <= s / u
    ensures r / u == s / u ==> r % u <= s % u
  {
    var p, q := r / u, s / u;
    assert r == p * u + r % u && s == q * u + s % u;
    assert (q + 1) * u == q * u + u;
    if p > q {
      MulMonotone(q + 1, p, u);
    }
  }

  /** A larger number never comes back smaller. */
  lemma JsonMonotone(r: nat, s: nat)
    requires r <= s
    ensures JsonRevision(r) <= JsonRevision(s)
  {
    var u, v := Ulp(r), Ulp(s);
    UlpMonotone(r, s);
    UnitsBound(r);
    UnitsBound(s);
    if u == v {
      DivMonotone(r, s, u);
      assert RoundedUnits(r) <= RoundedUnits(s);
      MulMonotone(RoundedUnits(r), RoundedUnits(s), u);
    } else {
      MulMonotone(RoundedUnits(r), EXACT, u);
      assert s >= EXACT;
      MulMonotone(HALF, RoundedUnits(s), v);
      assert EXACT * u == HALF * (2 * u);
      assert HALF * (2 * u) <= HALF * v;
    }
  }

  lemma {:induction false} UlpOfMultiple(q: nat, u: nat, r: nat)
    requires r >= EXACT && u == Ulp(r) && HALF <= q < EXACT
    ensures Ulp(q * u) == u
    decreases r
  {
    var w := Ulp(r / 2);
    assert u == 2 * w;
    assert q * u == 2 * (q * w) by { assert q * (2 * w) == 2 * (q * w); }
    if r / 2 >= EXACT {
      UlpOfMultiple(q, w, r / 2);
      assert q * u >= EXACT by { MulMonotone(HALF, q, u); assert HALF * 2 <= HALF * u; }
      assert (q * u) / 2 == q * w;
    } else {
      assert w == 1;
      assert (q * u) / 2 == q;
    }
  }

  lemma {:induction false} UlpOfTop(u: nat, r: nat)
    requires r >= EXACT && u == Ulp(r)
    ensures Ulp(EXACT * u) == 2 * u
    decreases r
  {
    var w := Ulp(r / 2);
    assert EXACT * u == 2 * (EXACT * w);
    assert (EXACT * u) / 2 == EXACT * w;
    if r / 2 >= EXACT {
      UlpOfTop(w, r / 2);
    } else {
      assert w == 1;
      assert Ulp(EXACT) == 2;
    }
  }

  /** A value that was read back once is read back unchanged. */
  lemma JsonIdempotent(r: nat)
    ensures JsonRevision(JsonRevision(r)) == JsonRevision(r)
  {
    if r < EXACT {
      ExactBelow(r);
    } else {
      var u, q := Ulp(r), RoundedUnits(r);
      UnitsBound(r);
      if q == EXACT {
        UlpOfTop(u, r);
        assert EXACT * u == HALF * (2 * u);
        RoundMultiple(EXACT * u, HALF, 2 * u);
      } else {
        UlpOfMultiple(q, u, r);
        RoundMultiple(q * u, q, u);
      }
    }
  }

  lemma RoundMultiple(r: nat, q: nat, u: nat)
    requires u > 0 && r == q * u && Ulp(r) == u
    ensures JsonRevision(r) == r
  {
    assert (q + 1) * u == q * u + u;
    DivBounds(r, u, q + 1);
    DivAtLeast(r, u, q);
    assert r % u == r - r / u * u;
  }

  function Pow2(e: nat): nat {
    if e == 0 then 1 else 2 * Pow2(e - 1)
  }

  function Distance(a: nat, b: nat): nat {
    if a < b then b - a else a - b
  }

  lemma {:induction false} UlpIsPower(r: nat) returns (e: nat)
    ensures Ulp(r) == Pow2(e)
    decreases r
  {
    if r < EXACT {
      e := 0;
    } else {
      var f := UlpIsPower(r / 2);
      e := f + 1;
    }
  }

  lemma {:induction false} PowersDivide(e: nat, a: nat) returns (m: nat)
    requires a <= e
    ensures Pow2(e) == m * Pow2(a)
  {
    if a == e {
      m := 1;
    } else {
      var n := PowersDivide(e - 1, a);
      m := 2 * n;
      assert 2 * (n * Pow2(a)) == (2 * n) * Pow2(a);
    }
  }

  /** Between two multiples of the spacing, `below` and the next one, the nearer is picked. */
  lemma NearerOfTwo(r: nat, u: nat, below: nat, rem: nat, even: bool, other: nat)
    requires r == below + rem && rem < u
    requires other == below || other == below + u || other + u <= below || below + 2 * u <= other
    ensures var c := if 2 * rem < u || (2 * rem == u && even) then below else below + u;
            Distance(c, r) <= Distance(other, r) && (c != other && Distance(c, r) == Distance(other, r) ==> 2 * rem == u)
  {
  }

  lemma MulGap(a: nat, b: nat, u: nat)
    requires a < b
    ensures a * u + u <= b * u
  {
    MulMonotone(a + 1, b, u);
    assert (a + 1) * u == a * u + u;
  }

  lemma MultiplesApart(k: nat, q: nat, u: nat)
    ensures k * u == q * u || k * u == q * u + u || k * u + u <= q * u || q * u + 2 * u <= k * u
    ensures (q + 1) * u == q * u + u
  {
    if k < q {
      MulGap(k, q, u);
    } else if k == q + 1 {
      assert (q + 1) * u == q * u + u;
    } else if k > q + 1 {
      MulGap(q, q + 1, u);
      MulGap(q + 1, k, u);
    }
  }

  lemma OneMore(q: nat, u: nat)
    ensures (q + 1) * u == q * u + u
  {
  }

  lemma DivMod(r: nat, u: nat)
    requires u > 0
    ensures r == r / u * u + r % u && r % u < u
  {
  }

  /** The multiple below and what is left of the number decide what is read back. */
  lemma Picked(r: nat, u: nat) returns (q: nat, below: nat, rem: nat)
    requires u == Ulp(r)
    ensures below == q * u && r == below + rem && rem < u
    ensures JsonRevision(r) == if 2 * rem < u || (2 * rem == u && q % 2 == 0) then below else below + u
    ensures 2 * rem == u ==> RoundedUnits(r) % 2 == 0
  {
    q, rem := r / u, r % u;
    below := q * u;
    DivMod(r, u);
    OneMore(q, u);
    var c := RoundedUnits(r);
    assert c == if 2 * rem < u || (2 * rem == u && q % 2 == 0) then q else q + 1;
    UnitsTimes(r, u, c);
  }

  lemma UnitsTimes(r: nat, u: nat, c: nat)
    requires u == Ulp(r) && c == RoundedUnits(r)
    ensures JsonRevision(r) == c * u
  {
  }

  /** `c` is at least as near to the number as `x`, and if equally near the tie is to even. */
  ghost predicate Nearer(r: nat, c: nat, x: nat) {
    Distance(c, r) <= Distance(x, r) && (c != x && Distance(c, r) == Distance(x, r) ==> RoundedUnits(r) % 2 == 0)
  }

  /** No multiple of the spacing is nearer than the one that rounding picks. */
  lemma NearestMultiple(r: nat, u: nat, k: nat, x: nat)
    requires u == Ulp(r) && x == k * u
    ensures Nearer(r, JsonRevision(r), x)
  {
    var q, below, rem := Picked(r, u);
    MultiplesApart(k, q, u);
    NearerOfTwo(r, u, below, rem, q % 2 == 0, x);
  }

  /** What is read back is a double. */
  lemma ReadBackIsDouble(r: nat) returns (e: nat)
    ensures RoundedUnits(r) <= EXACT && JsonRevision(r) == RoundedUnits(r) * Pow2(e)
  {
    UnitsBound(r);
    e := UlpIsPower(r);
  }

  /** No double is nearer, and of two that are equally near the one read back has an even
      significand. The doubles that matter are the multiples k of a power of two, for k up to
      2^53; what is read back is one of them (`ReadBackIsDouble`). */
  lemma Nearest(r: nat, k: nat, e: nat)
    requires k <= EXACT
    ensures Distance(JsonRevision(r), r) <= Distance(k * Pow2(e), r)
    ensures JsonRevision(r) != k * Pow2(e) && Distance(JsonRevision(r), r) == Distance(k * Pow2(e), r) ==>
              RoundedUnits(r) % 2 == 0
  {
    var a := UlpIsPower(r);
    if e >= a {
      NearestCoarse(r, k, e, a, k * Pow2(e));
    } else {
      NearestFine(r, k, e, a, k * Pow2(e));
    }
    assert Nearer(r, JsonRevision(r), k * Pow2(e));
  }

  lemma NearestCoarse(r: nat, k: nat, e: nat, a: nat, x: nat)
    requires Ulp(r) == Pow2(a) && a <= e && x == k * Pow2(e)
    ensures Nearer(r, JsonRevision(r), x)
  {
    var n := CoarseIsMultiple(k, e, a, x);
    NearestMultiple(r, Ulp(r), n, x);
  }

  lemma CoarseIsMultiple(k: nat, e: nat, a: nat, x: nat) returns (n: nat)
    requires a <= e && x == k * Pow2(e)
    ensures x == n * Pow2(a)
  {
    var m := PowersDivide(e, a);
    n := k * m;
    MulThree(k, m, Pow2(a), Pow2(e), x);
  }

  lemma NearestFine(r: nat, k: nat, e: nat, a: nat, x: nat)
    requires k <= EXACT && Ulp(r) == Pow2(a) && e < a && x == k * Pow2(e)
    ensures Nearer(r, JsonRevision(r), x)
  {
    BelowRange(r, k, e, a);
    NearestMultiple(r, Ulp(r), HALF, HALF * Ulp(r));
    FartherBelow(r, JsonRevision(r), HALF * Ulp(r), x);
  }

  lemma FartherBelow(r: nat, c: nat, y: nat, x: nat)
    requires Nearer(r, c, y) && x <= y <= r
    ensures Nearer(r, c, x)
  {
  }

  lemma MulThree(k: nat, m: nat, u: nat, w: nat, x: nat)
    requires w == m * u && x == k * w
    ensures x == (k * m) * u
  {
  }

  /** A double with a finer spacing lies below the range of this one. */
  lemma BelowRange(r: nat, k: nat, e: nat, a: nat)
    requires k <= EXACT && Ulp(r) == Pow2(a) && e < a
    ensures k * Pow2(e) <= HALF * Ulp(r) <= r
  {
    var m := PowersDivide(a - 1, e);
    assert Pow2(a) == 2 * Pow2(a - 1);
    assert m >= 1 by { assert Pow2(a - 1) > 0 by { PowPositive(a - 1); } }
    MulMonotone(1, m, Pow2(e));
    MulMonotone(k, EXACT, Pow2(e));
    assert EXACT * Pow2(e) <= EXACT * Pow2(a - 1) == HALF * Pow2(a);
  }

  lemma {:induction false} PowPositive(e: nat)
    ensures Pow2(e) > 0
  {
    if e > 0 {
      PowPositive(e - 1);
    }
  }

  /** Above the exact range a number can come back smaller. */
  lemma RoundsDown()
    ensures JsonRevision(EXACT + 1) == EXACT
  {
    assert Ulp((EXACT + 1) / 2) == 1;
    assert Ulp(EXACT + 1) == 2;
    assert (EXACT + 1) / 2 == HALF && (EXACT + 1) % 2 == 1;
  }
}
