/** Fixed-width integers of <stdint.h> and the optional value used for nullable results. */
module StdInt {
  const TWO_TO_32: int := 0x1_0000_0000
  const UINT32_MAX: int := 0xFFFF_FFFF

  /** uint32_t */
  type u32 = x: int | 0 <= x < 0x1_0000_0000

  /** The value a uint32_t expression takes after C's modular wrap-around. */
  function Wrap32(x: int): (r: u32)
    ensures 0 <= x < TWO_TO_32 ==> r == x
  {
    x % TWO_TO_32
  }

  /** Euclidean division is determined by quotient and remainder. */
  lemma DivModUnique(d: int, q: int, e: int, r: int)
    requires e > 0 && 0 <= r < e && d == q * e + r
    ensures d / e == q && d % e == r
  {
    var q', r' := d / e, d % e;
    assert d == q' * e + r';
    if q' > q {
      MulLe(q + 1, q', e);
    } else if q' < q {
      MulLe(q' + 1, q, e);
    }
  }

  lemma MulDiv(i: nat, e: nat)
    requires e > 0
    ensures (i * e) % e == 0 && (i * e) / e == i
  {
    DivModUnique(i * e, i, e, 0);
  }

  lemma MulLe(a: int, b: int, e: nat)
    requires a <= b
    ensures a * e <= b * e
  {
  }

  lemma {:induction false} MulStrict(a: nat, b: nat, e: nat)
    requires a < b && e > 0
    ensures Mul(a, e) < Mul(b, e)
  {
    MulIsProduct(a, e);
    MulIsProduct(b, e);
    MulLe(a + 1, b, e);
  }

  /** Whole multiples of e divide back exactly. */
  lemma DivMul(i: nat, e: nat)
    requires e > 0
    ensures Div(Mul(i, e), e) == i && Mod(Mul(i, e), e) == 0
  {
    MulIsProduct(i, e);
    MulDiv(i, e);
    DivModIsEuclid(i * e, e);
  }

  /** An offset below n whole elements lies in one of the first n elements. */
  lemma DivBelow(d: nat, n: nat, e: nat)
    requires e > 0 && d < n * e
    ensures d / e < n
  {
    if d / e >= n {
      MulLe(n, d / e, e);
      assert false;
    }
  }

  /**
   * a * b as repeated addition. Contracts that mention a product of two variables use
   * this so the solver does not reason about it nonlinearly until MulIsProduct is called.
   */
  function Mul(a: nat, b: nat): nat
  {
    if b == 0 then 0 else Mul(a, b - 1) + a
  }

  lemma {:induction false} MulIsProduct(a: nat, b: nat)
    ensures Mul(a, b) == a * b
  {
    if b > 0 {
      MulIsProduct(a, b - 1);
    }
  }

  /** a / b by repeated subtraction, hidden from the solver like Mul. */
  function Div(a: nat, b: nat): nat
    requires b > 0
    decreases a
  {
    if a < b then 0 else 1 + Div(a - b, b)
  }

  /** a % b by repeated subtraction. */
  function Mod(a: nat, b: nat): nat
    requires b > 0
    decreases a
  {
    if a < b then a else Mod(a - b, b)
  }

  lemma {:induction false} DivAtMost(a: nat, b: nat)
    requires b > 0
    ensures Div(a, b) <= a
    decreases a
  {
    if a >= b {
      DivAtMost(a - b, b);
    }
  }

  lemma {:induction false} DivModIsEuclid(a: nat, b: nat)
    requires b > 0
    ensures Div(a, b) == a / b && Mod(a, b) == a % b
    decreases a
  {
    if a >= b {
      DivModIsEuclid(a - b, b);
      DivModUnique(a, (a - b) / b + 1, b, (a - b) % b);
    } else {
      DivModUnique(a, 0, b, a);
    }
  }

  /** An offset with no remainder is a whole number of elements. */
  lemma ExactMultiple(d: nat, e: nat)
    requires e > 0 && Mod(d, e) == 0
    ensures Mul(Div(d, e), e) == d
  {
    DivModIsEuclid(d, e);
    MulIsProduct(Div(d, e), e);
  }

  /** An offset below n whole elements lies in one of the first n elements. */
  lemma DivBelowMul(d: nat, n: nat, e: nat)
    requires e > 0 && d < Mul(n, e)
    ensures Div(d, e) < n
  {
    MulIsProduct(n, e);
    DivModIsEuclid(d, e);
    DivBelow(d, n, e);
  }

  /** The elements of a sequence. */
  function Elems(s: seq<u32>): set<u32>
  {
    set x | x in s
  }

  /** A sequence without repetitions has as many elements as its length. */
  lemma {:induction false} DistinctCard(s: seq<u32>)
    requires forall j, k :: 0 <= j < k < |s| ==> s[j] != s[k]
    ensures |Elems(s)| == |s|
  {
    if s != [] {
      DistinctCard(s[1..]);
      assert Elems(s) == Elems(s[1..]) + {s[0]};
      assert s[0] !in Elems(s[1..]);
    } else {
      assert Elems(s) == {};
    }
  }

  /** The indices 0 .. n-1. */
  function Slots(n: nat): (r: set<u32>)
    requires n <= TWO_TO_32
    ensures |r| == n
    ensures forall x: u32 :: x in r <==> x < n
  {
    if n == 0 then {} else Slots(n - 1) + {n - 1}
  }

  /** A subset is no larger than its superset. */
  lemma SubsetCard(a: set<u32>, b: set<u32>)
    requires a <= b
    ensures |a| <= |b|
  {
    if a != {} {
      var x :| x in a;
      SubsetCard(a - {x}, b - {x});
    }
  }

  /** A pointer-or-NULL result. */
  datatype Option<T> = None | Some(value: T)
}
