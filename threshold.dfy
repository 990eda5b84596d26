/** Threshold bookkeeping shared by src/client.py and src/opener.py: dropping the
    missing (`None`) entries of a list of shares while remembering their 1-based
    positions, and the Lagrange weights of a set of positions. `Polynomial` itself
    is not part of this model; the weights use the standard formula for evaluation
    at zero. */
module Threshold {
  import opened Modular
  import opened Challenge

  /** The entries of `xs` that are present, in order. */
  function Kept<T>(xs: seq<Option<T>>): seq<T>
  {
    if xs == [] then []
    else
      var init, last := xs[..|xs| - 1], xs[|xs| - 1];
      Kept(init) + (if last.Some? then [last.value] else [])
  }

  /** The 1-based positions in `xs` of the entries that are present, in order. */
  function Positions<T>(xs: seq<Option<T>>): (p: seq<nat>)
    ensures |p| == |Kept(xs)|
  {
    if xs == [] then []
    else
      var init, last := xs[..|xs| - 1], xs[|xs| - 1];
      Positions(init) + (if last.Some? then [|xs|] else [])
  }

  predicate StrictlyIncreasing(ns: seq<nat>)
  {
    forall i, j :: 0 <= i < j < |ns| ==> ns[i] < ns[j]
  }

  /** One step of `Kept` and `Positions`: the last entry is appended when present. */
  lemma KeptPositionsStep<T>(xs: seq<Option<T>>)
    requires xs != []
    ensures Kept(xs) == Kept(xs[..|xs| - 1]) + (if xs[|xs| - 1].Some? then [xs[|xs| - 1].value] else [])
    ensures Positions(xs) == Positions(xs[..|xs| - 1]) + (if xs[|xs| - 1].Some? then [|xs|] else [])
  {
  }

  lemma {:induction false} PositionsBounded<T>(xs: seq<Option<T>>)
    ensures |Kept(xs)| == |Positions(xs)|
    ensures forall j :: 0 <= j < |Positions(xs)| ==> 1 <= Positions(xs)[j] <= |xs|
  {
    if xs != [] {
      var init := xs[..|xs| - 1];
      PositionsBounded(init);
      KeptPositionsStep(xs);
    }
  }

  lemma {:induction false} PositionsIncreasing<T>(xs: seq<Option<T>>)
    ensures StrictlyIncreasing(Positions(xs))
  {
    if xs != [] {
      var init := xs[..|xs| - 1];
      PositionsIncreasing(init);
      PositionsBounded(init);
      KeptPositionsStep(xs);
    }
  }

  /** `Kept` and `Positions` describe the same entries: positions stay within `xs`
      and rise strictly, and the j-th kept share sits at position `Positions(xs)[j]`. */
  lemma {:induction false} KeptPositions<T>(xs: seq<Option<T>>)
    ensures |Kept(xs)| == |Positions(xs)|
    ensures forall j :: 0 <= j < |Positions(xs)| ==> 1 <= Positions(xs)[j] <= |xs|
    ensures StrictlyIncreasing(Positions(xs))
    ensures forall j :: 0 <= j < |Positions(xs)| ==> xs[Positions(xs)[j] - 1] == Some(Kept(xs)[j])
  {
    PositionsBounded(xs);
    PositionsIncreasing(xs);
    if xs != [] {
      var n := |xs| - 1;
      var init := xs[..n];
      KeptPositions(init);
      KeptPositionsStep(xs);
      var ps, ks := Positions(init), Kept(init);
      forall j | 0 <= j < |Positions(xs)|
        ensures xs[Positions(xs)[j] - 1] == Some(Kept(xs)[j])
      {
        if j < |ps| {
          assert Positions(xs)[j] == ps[j] && Kept(xs)[j] == ks[j];
          assert xs[ps[j] - 1] == init[ps[j] - 1];
        }
      }
    }
  }

  /** Every present entry is kept. */
  lemma {:induction false} PositionsComplete<T>(xs: seq<Option<T>>)
    ensures forall i :: 0 <= i < |xs| && xs[i].Some? ==> i + 1 in Positions(xs)
  {
    if xs != [] {
      var n := |xs| - 1;
      var init := xs[..n];
      PositionsComplete(init);
      assert Positions(xs) == Positions(init) + (if xs[n].Some? then [n + 1] else []);
      forall i | 0 <= i < |xs| && xs[i].Some? ensures i + 1 in Positions(xs) {
        if i < n {
          assert init[i] == xs[i];
        }
      }
    }
  }

  /** When nothing is missing every entry is kept and the positions are 1, 2, ... */
  lemma {:induction false} KeptAllPresent<T>(xs: seq<Option<T>>)
    requires forall i :: 0 <= i < |xs| ==> xs[i].Some?
    ensures |Kept(xs)| == |xs| && forall i :: 0 <= i < |xs| ==> Some(Kept(xs)[i]) == xs[i]
    ensures |Positions(xs)| == |xs| && forall i :: 0 <= i < |xs| ==> Positions(xs)[i] == i + 1
  {
    if xs != [] {
      KeptAllPresent(xs[..|xs| - 1]);
    }
  }

  /** The filtering loop of `agg_cred`, `check_sig` and `create_revoked_sig`. */
  method Filter<T>(xs: seq<Option<T>>) returns (kept: seq<T>, indexes: seq<nat>)
    ensures kept == Kept(xs) && indexes == Positions(xs)
  {
    kept, indexes := [], [];
    var i := 0;
    while i < |xs|
      invariant 0 <= i <= |xs|
      invariant kept == Kept(xs[..i]) && indexes == Positions(xs[..i])
    {
      assert xs[..i + 1][..i] == xs[..i];
      if xs[i].Some? {
        kept := kept + [xs[i].value];
        indexes := indexes + [i + 1];
      }
      i := i + 1;
    }
    assert xs[..|xs|] == xs;
  }

  // ---------------------------------------------------------------------------
  // Lagrange weights

  function Pow(x: int, n: nat): int
  {
    if n == 0 then 1 else x * Pow(x, n - 1)
  }

  /** The inverse in Z_o by Fermat's little theorem (meaningful for a prime `o`). */
  function Inverse(o: Order, x: int): (r: int)
    ensures 0 <= r < o
  {
    Pow(x % o, o - 2) % o
  }

  /** The product over the first `n` indices `j` other than the `i`-th of
      `idx[j] / (idx[j] - idx[i])`. */
  function WeightUpTo(o: Order, idx: seq<nat>, i: nat, n: nat): (r: int)
    requires i < |idx| && n <= |idx|
    ensures 0 <= r < o
  {
    if n == 0 then 1 % o
    else if n - 1 == i then WeightUpTo(o, idx, i, n - 1)
    else Mul(o, WeightUpTo(o, idx, i, n - 1), idx[n - 1] * Inverse(o, idx[n - 1] as int - idx[i]))
  }

  /** `Polynomial.lagrange_interpolation(indexes)`: the weight of every index for
      interpolating at zero, `λ_i = Π_{j≠i} j / (j - i) mod o`. */
  function Lagrange(o: Order, idx: seq<nat>): (l: seq<int>)
    ensures |l| == |idx|
    ensures forall i :: 0 <= i < |idx| ==> l[i] == WeightUpTo(o, idx, i, |idx|)
  {
    seq(|idx|, i requires 0 <= i < |idx| => WeightUpTo(o, idx, i, |idx|))
  }

  /** A single share is taken as it is: its weight is 1. */
  lemma LagrangeSingle(o: Order, i: nat)
    ensures Lagrange(o, [i]) == [1]
  {
    assert WeightUpTo(o, [i], 0, 1) == WeightUpTo(o, [i], 0, 0) == 1 % o;
  }
}
