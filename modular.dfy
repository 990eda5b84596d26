/** Arithmetic in Z_o, the ring of discrete logarithms of the prime-order groups
    G1, G2 and GT. Every group element is represented by its exponent with respect
    to the fixed generator (g1 for G1, g2 for G2, e(g1, g2) for GT). */
module Modular {

  /** The group order. Most statements only need o > 1; primality is asked for
      explicitly where it matters. */
  type Order = o: int | o > 1 witness 2

  /** `a * P` for a scalar `a` and a point `P` whose exponent is `p`. */
  function Mul(o: Order, a: int, p: int): (r: int)
    ensures 0 <= r < o
  {
    (a * p) % o
  }

  /** `P + Q` in G1 or G2, and `X * Y` in GT. */
  function Add(o: Order, p: int, q: int): (r: int)
    ensures 0 <= r < o
  {
    (p + q) % o
  }

  /** The pairing `e(P, Q)` multiplies the exponents. */
  function Pair(o: Order, p: int, q: int): (r: int)
    ensures 0 <= r < o
  {
    (p * q) % o
  }

  /** `P.isinf()`: the point at infinity has exponent 0. */
  predicate IsIdentity(o: Order, p: int)
  {
    p % o == 0
  }

  /** `acc += t` for every term `t` of `ts` in order, starting from `start`:
      the shape of every accumulation loop of the protocol. */
  function Fold(o: Order, start: int, ts: seq<int>): (r: int)
    ensures ts != [] ==> 0 <= r < o
  {
    if ts == [] then start else Add(o, Fold(o, start, ts[..|ts| - 1]), ts[|ts| - 1])
  }

  /** The plain integer sum of `ts`, used to reason about `Fold`. */
  function RawSum(ts: seq<int>): int
  {
    if ts == [] then 0 else RawSum(ts[..|ts| - 1]) + ts[|ts| - 1]
  }

  /** `Σ_{i < |xs|} xs[i] * ys[i]`, the plain integer dot product. */
  function Dot(xs: seq<int>, ys: seq<int>): int
    requires |xs| <= |ys|
  {
    if xs == [] then 0 else Dot(xs[..|xs| - 1], ys) + xs[|xs| - 1] * ys[|xs| - 1]
  }

  /** `Dot` unfolded at the front. */
  lemma {:induction false} DotCons(xs: seq<int>, ys: seq<int>)
    requires 1 <= |xs| <= |ys|
    ensures Dot(xs, ys) == xs[0] * ys[0] + Dot(xs[1..], ys[1..])
  {
    var n := |xs| - 1;
    if n > 0 {
      DotCons(xs[..n], ys);
      assert xs[..n][1..] == xs[1..][..n - 1];
      assert xs[1..][n - 1] == xs[n] && ys[1..][n - 1] == ys[n];
    }
  }

  /** Congruence modulo `o`. */
  predicate Cong(o: Order, a: int, b: int)
  {
    a % o == b % o
  }

  /** `t` is congruent to the linear combination `a * u + b * v`. */
  predicate Affine(o: Order, t: int, a: int, u: int, b: int, v: int)
  {
    Cong(o, t, a * u + b * v)
  }

  /** `d` divides `n`. */
  predicate Divides(d: int, n: int)
    requires d > 0
  {
    n % d == 0
  }

  predicate IsPrime(p: int)
  {
    p > 1 && forall d :: 1 < d < p ==> !Divides(d, p)
  }

  // ---------------------------------------------------------------------------
  // Division with remainder

  lemma ModUnique(o: Order, n: int, q: int, r: int)
    requires n == q * o + r && 0 <= r < o
    ensures n % o == r && n / o == q
  {
    var q', r' := n / o, n % o;
    assert n == q' * o + r' && 0 <= r' < o;
    var d := q - q';
    assert d * o == q * o - q' * o;
    assert d * o == r' - r;
    if d > 0 {
      MulAtLeast(d, o);
    } else if d < 0 {
      assert (-d) * o == -(d * o);
      MulAtLeast(-d, o);
    }
  }

  lemma MulAtLeast(d: int, o: int)
    requires d >= 1 && o > 0
    ensures d * o >= o
  {
    assert d * o == (d - 1) * o + o;
    assert (d - 1) * o >= 0;
  }

  lemma ModShift(o: Order, a: int, k: int)
    ensures (a + k * o) % o == a % o
  {
    var q, r := a / o, a % o;
    assert a + k * o == (q + k) * o + r;
    ModUnique(o, a + k * o, q + k, r);
  }

  /** Congruent numbers differ by a multiple of `o`. */
  lemma CongWitness(o: Order, a: int, b: int) returns (k: int)
    requires Cong(o, a, b)
    ensures a == b + k * o
  {
    k := a / o - b / o;
    assert a == (a / o) * o + a % o;
    assert b == (b / o) * o + b % o;
  }

  lemma CongIntro(o: Order, a: int, b: int, k: int)
    requires a == b + k * o
    ensures Cong(o, a, b)
  {
    ModShift(o, b, k);
  }

  lemma CongReduce(o: Order, a: int)
    ensures Cong(o, a % o, a)
  {
    ModUnique(o, a % o, 0, a % o);
  }

  lemma CongAdd(o: Order, a: int, b: int, a': int, b': int)
    requires Cong(o, a, a') && Cong(o, b, b')
    ensures Cong(o, a + b, a' + b')
  {
    var k := CongWitness(o, a, a');
    var l := CongWitness(o, b, b');
    assert a + b == a' + b' + (k + l) * o;
    CongIntro(o, a + b, a' + b', k + l);
  }

  lemma CongMul(o: Order, a: int, b: int, a': int, b': int)
    requires Cong(o, a, a') && Cong(o, b, b')
    ensures Cong(o, a * b, a' * b')
  {
    var k := CongWitness(o, a, a');
    var l := CongWitness(o, b, b');
    var m := ProductShift(a', b', k, l, o);
    CongIntro(o, a * b, a' * b', m);
  }

  // Ring identities, kept apart so that no `%` is in sight when they are proved.

  lemma Distribute(a: int, u: int, b: int, v: int, p: int)
    ensures (a * u + b * v) * p == a * (u * p) + b * (v * p)
  {
  }

  lemma SplitProduct(c: int, x: int, y: int)
    ensures c * (x + y) == c * x + c * y
  {
  }

  lemma ScaleDifference(w: int, c: int, x: int, p: int)
    ensures (w - c * x) * p == w * p - c * (x * p)
  {
  }

  lemma Regroup(a: int, u: int, u': int, b: int, v: int, v': int)
    ensures a * (u + u') + b * (v + v') == (a * u + b * v) + (a * u' + b * v')
  {
  }

  lemma UnitDifference(w: int, c: int, x: int)
    ensures 1 * w + (-c) * x == w - c * x
  {
  }

  lemma NegateProduct(c: int, d: int)
    ensures (-c) * d == -(c * d)
  {
  }

  /** `(a + k * o) * (b + l * o)` is `a * b` plus a multiple of `o`. */
  lemma ProductShift(a: int, b: int, k: int, l: int, o: int) returns (m: int)
    ensures (a + k * o) * (b + l * o) == a * b + m * o
  {
    m := k * b + a * l + k * l * o;
  }

  /** Replacing the right-hand side by an equal number. */
  lemma CongEq(o: Order, x: int, a: int, b: int)
    requires Cong(o, x, a) && a == b
    ensures Cong(o, x, b)
  {
  }

  lemma CongTrans(o: Order, a: int, b: int, c: int)
    requires Cong(o, a, b) && Cong(o, b, c)
    ensures Cong(o, a, c)
  {
  }

  lemma CongSymm(o: Order, a: int, b: int)
    requires Cong(o, a, b)
    ensures Cong(o, b, a)
  {
  }

  /** Two reduced representatives of one class are equal. */
  lemma CongReduced(o: Order, a: int, b: int)
    requires 0 <= a < o && 0 <= b < o && Cong(o, a, b)
    ensures a == b
  {
    ModUnique(o, a, 0, a);
    ModUnique(o, b, 0, b);
  }

  /** For reduced values, equality and congruence coincide. */
  lemma ReducedEq(o: Order, a: int, b: int)
    requires 0 <= a < o && 0 <= b < o
    ensures a == b <==> Cong(o, a, b)
  {
    if Cong(o, a, b) {
      CongReduced(o, a, b);
    }
  }

  lemma NegCong(o: Order, a: int, b: int)
    requires Cong(o, a, b)
    ensures Cong(o, -a, -b)
  {
    var k := CongWitness(o, a, b);
    assert -a == -b + (-k) * o;
    CongIntro(o, -a, -b, -k);
  }

  lemma MulCong(o: Order, a: int, p: int)
    ensures Cong(o, Mul(o, a, p), a * p)
  {
    CongReduce(o, a * p);
  }

  lemma AddCong(o: Order, p: int, q: int, p': int, q': int)
    requires Cong(o, p, p') && Cong(o, q, q')
    ensures Cong(o, Add(o, p, q), p' + q')
  {
    CongAdd(o, p, q, p', q');
    CongReduce(o, p + q);
  }

  /** `a * P + Q` has exponent `a * p + q`, up to the order. */
  lemma AddMulCong(o: Order, a: int, p: int, q: int)
    ensures Cong(o, Add(o, Mul(o, a, p), q), a * p + q)
  {
    var ap := a * p;
    CongReduce(o, ap);
    CongAdd(o, ap % o, q, ap, q);
    CongReduce(o, ap % o + q);
  }

  // ---------------------------------------------------------------------------
  // Sums

  lemma {:induction false} FoldCong(o: Order, start: int, ts: seq<int>)
    ensures Cong(o, Fold(o, start, ts), start + RawSum(ts))
  {
    if ts != [] {
      var init, last := ts[..|ts| - 1], ts[|ts| - 1];
      FoldCong(o, start, init);
      CongReduce(o, Fold(o, start, init) + last);
      CongAdd(o, Fold(o, start, init), last, start + RawSum(init), last);
    }
  }

  /** Folding the same terms from congruent starting points gives the same result. */
  lemma FoldStartCong(o: Order, s: int, s': int, ts: seq<int>)
    requires Cong(o, s, s') && ts != []
    ensures Fold(o, s, ts) == Fold(o, s', ts)
  {
    FoldCong(o, s, ts);
    FoldCong(o, s', ts);
    CongAdd(o, s, RawSum(ts), s', RawSum(ts));
    CongReduced(o, Fold(o, s, ts), Fold(o, s', ts));
  }

  lemma FoldSnoc(o: Order, start: int, ts: seq<int>, x: int)
    ensures Fold(o, start, ts + [x]) == Add(o, Fold(o, start, ts), x)
  {
    assert (ts + [x])[..|ts|] == ts;
  }

  lemma RawSumSnoc(ts: seq<int>, x: int)
    ensures RawSum(ts + [x]) == RawSum(ts) + x
  {
    assert (ts + [x])[..|ts|] == ts;
  }

  lemma {:induction false} RawSumAppend(ts: seq<int>, us: seq<int>)
    ensures RawSum(ts + us) == RawSum(ts) + RawSum(us)
  {
    if us != [] {
      var n := |us| - 1;
      assert (ts + us)[..|ts + us| - 1] == ts + us[..n];
      assert (ts + us)[|ts + us| - 1] == us[n];
      RawSumAppend(ts, us[..n]);
      assert RawSum(ts + us) == RawSum(ts + us[..n]) + us[n];
      assert RawSum(us) == RawSum(us[..n]) + us[n];
    } else {
      assert ts + us == ts;
    }
  }

  // ---------------------------------------------------------------------------
  // Primality

  /** In Z_p for a prime p there are no zero divisors. */
  lemma {:induction false} NoZeroDivisors(p: int, a: int, b: int)
    requires IsPrime(p) && 0 < a < p && 0 < b < p
    ensures (a * b) % p != 0
    decreases b
  {
    if (a * b) % p == 0 && b > 1 {
      var q, r := p / b, p % b;
      assert p == q * b + r && 0 <= r < b;
      assert !Divides(b, p);
      var k := (a * b) / p;
      assert a * b == k * p;
      calc {
        a * r;
        a * (p - q * b);
        a * p - q * (a * b);
        a * p - q * (k * p);
        (a - q * k) * p;
      }
      ModUnique(p, a * r, a - q * k, 0);
      NoZeroDivisors(p, a, r);
    } else if b == 1 {
      ModUnique(p, a, 0, a);
    }
  }

  /** A product is the identity only when a factor is. */
  lemma ProductNonZero(p: int, a: int, b: int)
    requires IsPrime(p) && a % p != 0 && b % p != 0
    ensures (a * b) % p != 0
  {
    var o: Order := p;
    NoZeroDivisors(p, a % p, b % p);
    CongReduce(o, a);
    CongReduce(o, b);
    CongMul(o, a % p, b % p, a, b);
  }

  /** Multiplying by a non-zero scalar is injective in Z_p. */
  lemma Cancel(p: int, c: int, a: int, b: int)
    requires IsPrime(p) && c % p != 0 && Cong(p, c * a, c * b)
    ensures Cong(p, a, b)
  {
    var o: Order := p;
    var k := CongWitness(o, c * a, c * b);
    assert c * (a - b) == k * o;
    ModUnique(o, c * (a - b), k, 0);
    if (a - b) % p != 0 {
      ProductNonZero(p, c, a - b);
    }
    CongIntro(o, a, b, (a - b) / o);
  }
}
