/** The constraint formulator of optimize_mix: the objective, the two
    cleared-denominator inequalities per constrained element and the
    availability cap per lot, as the `ineq` constraints handed to the solver.
    The specification functions take the element list as a parameter
    (`fields`); the code instantiates it with ELEMENT_FIELDS. */
module Formulation {
  import opened Layout
  import opened Composition

  /** Σ x_i (np.sum(x)). */
  function Sum(x: seq<real>): real
  {
    if x == [] then 0.0 else x[0] + Sum(x[1..])
  }

  /** Σ x_i·y_i; with y the prices this is the objective, np.sum(x * prices). */
  function Dot(x: seq<real>, y: seq<real>): real
    requires |x| == |y|
  {
    if x == [] then 0.0 else x[0] * y[0] + Dot(x[1..], y[1..])
  }

  /** Σ x_i·m[i][k]: the weight of element k in the blend x. */
  function ColumnDot(x: seq<real>, m: seq<seq<real>>, k: nat): real
    requires IsFractionMatrix(m, |x|) && k < ELEMENT_COUNT
  {
    if x == [] then 0.0 else x[0] * m[0][k] + ColumnDot(x[1..], m[1..], k)
  }

  /** One inequality `fun(x) >= 0` of the formulation. */
  datatype Constraint =
    | AtLeast(column: nat, fraction: real)   // Σx·f − min·Σx ≥ 0
    | AtMost(column: nat, fraction: real)    // max·Σx − Σx·f ≥ 0
    | Capacity(lot: nat, available: real)    // weight_i − x_i ≥ 0

  /** The constraint refers to an existing element column or lot. */
  predicate Fits(c: Constraint, n: nat)
  {
    match c
    case AtLeast(k, _) => k < ELEMENT_COUNT
    case AtMost(k, _) => k < ELEMENT_COUNT
    case Capacity(i, _) => i < n
  }

  /** The value of the constraint function at x. */
  function Eval(c: Constraint, x: seq<real>, m: seq<seq<real>>): real
    requires IsFractionMatrix(m, |x|) && Fits(c, |x|)
  {
    match c
    case AtLeast(k, lo) => ColumnDot(x, m, k) - lo * Sum(x)
    case AtMost(k, hi) => hi * Sum(x) - ColumnDot(x, m, k)
    case Capacity(i, w) => w - x[i]
  }

  predicate AllFit(cs: seq<Constraint>, n: nat)
  {
    forall j :: 0 <= j < |cs| ==> Fits(cs[j], n)
  }

  /** Every inequality holds at x. */
  predicate Satisfied(cs: seq<Constraint>, x: seq<real>, m: seq<seq<real>>)
    requires IsFractionMatrix(m, |x|) && AllFit(cs, |x|)
  {
    forall j :: 0 <= j < |cs| ==> Eval(cs[j], x, m) >= 0.0
  }

  /** Every listed column is an element column the standard names. */
  predicate ValidColumns(ranges: map<string, Range>, fields: seq<string>, cols: seq<nat>)
  {
    forall j :: 0 <= j < |cols| ==> cols[j] < |fields| && fields[cols[j]] in ranges
  }

  /** The element columns among the first `upTo` that the standard constrains,
      in column order. */
  function ConstrainedColumns(ranges: map<string, Range>, fields: seq<string>, upTo: nat): (cols: seq<nat>)
    requires upTo <= |fields|
    ensures |cols| <= upTo
    ensures ValidColumns(ranges, fields, cols)
  {
    if upTo == 0 then []
    else
      var before := ConstrainedColumns(ranges, fields, upTo - 1);
      if fields[upTo - 1] in ranges then before + [upTo - 1] else before
  }

  /** The constrained columns are exactly the element columns whose symbol the
      standard names, each once, in increasing order; symbols of the standard
      that are not element columns contribute nothing. */
  lemma {:induction false} ConstrainedColumnsExact(ranges: map<string, Range>, fields: seq<string>, upTo: nat)
    requires upTo <= |fields|
    ensures forall k :: 0 <= k < upTo && fields[k] in ranges <==> k in ConstrainedColumns(ranges, fields, upTo)
    ensures forall i, j :: 0 <= i < j < |ConstrainedColumns(ranges, fields, upTo)| ==>
              ConstrainedColumns(ranges, fields, upTo)[i] < ConstrainedColumns(ranges, fields, upTo)[j]
    ensures forall j :: 0 <= j < |ConstrainedColumns(ranges, fields, upTo)| ==>
              ConstrainedColumns(ranges, fields, upTo)[j] < upTo
  {
    if upTo > 0 {
      ConstrainedColumnsExact(ranges, fields, upTo - 1);
    }
  }

  /** The bound pair of one constrained column, percentages turned into fractions. */
  function WindowPair(ranges: map<string, Range>, fields: seq<string>, k: nat): seq<Constraint>
    requires k < |fields| && fields[k] in ranges
  {
    [AtLeast(k, ranges[fields[k]].min / 100.0), AtMost(k, ranges[fields[k]].max / 100.0)]
  }

  /** The element inequalities for the given columns, two per column. */
  function ElementConstraints(ranges: map<string, Range>, fields: seq<string>, cols: seq<nat>): (cs: seq<Constraint>)
    requires ValidColumns(ranges, fields, cols)
    ensures |cs| == 2 * |cols|
  {
    if cols == [] then []
    else ElementConstraints(ranges, fields, cols[..|cols| - 1]) + WindowPair(ranges, fields, cols[|cols| - 1])
  }

  /** The availability caps x_i ≤ weight_i of the first `upTo` lots. */
  function CapacityConstraints(weights: seq<real>, upTo: nat): (cs: seq<Constraint>)
    requires upTo <= |weights|
    ensures |cs| == upTo
    ensures AllFit(cs, upTo)
  {
    if upTo == 0 then [] else CapacityConstraints(weights, upTo - 1) + [Capacity(upTo - 1, weights[upTo - 1])]
  }

  /** The whole inequality list of optimize_mix: the element windows in column
      order, then one cap per lot. */
  function ConstraintsFor(ranges: map<string, Range>, fields: seq<string>, weights: seq<real>): seq<Constraint>
  {
    ElementConstraints(ranges, fields, ConstrainedColumns(ranges, fields, |fields|))
      + CapacityConstraints(weights, |weights|)
  }

  /** Building the list: two inequalities per element of `fields` present in
      the standard, then a cap per lot (optimize_mix passes ELEMENT_FIELDS). */
  method BuildConstraints(ranges: map<string, Range>, fields: seq<string>, weights: seq<real>)
    returns (cs: seq<Constraint>)
    requires |fields| == ELEMENT_COUNT
    ensures cs == ConstraintsFor(ranges, fields, weights)
    ensures |cs| == 2 * |ConstrainedColumns(ranges, fields, |fields|)| + |weights|
    ensures AllFit(cs, |weights|)
  {
    cs := ElementWindows(ranges, fields);
    var i := 0;
    ghost var elementPart := cs;
    while i < |weights|
      invariant 0 <= i <= |weights|
      invariant cs == elementPart + CapacityConstraints(weights, i)
    {
      assert elementPart + CapacityConstraints(weights, i) + [Capacity(i, weights[i])]
          == elementPart + CapacityConstraints(weights, i + 1);
      cs := cs + [Capacity(i, weights[i])];
      i := i + 1;
    }
    ConstraintsFit(ranges, fields, weights);
  }

  /** The element loop: the min and max inequality of every column whose
      symbol the standard names, in column order. */
  method ElementWindows(ranges: map<string, Range>, fields: seq<string>) returns (cs: seq<Constraint>)
    ensures cs == ElementConstraints(ranges, fields, ConstrainedColumns(ranges, fields, |fields|))
  {
    cs := [];
    var k := 0;
    ghost var cols: seq<nat> := [];
    while k < |fields|
      invariant 0 <= k <= |fields|
      invariant cols == ConstrainedColumns(ranges, fields, k)
      invariant cs == ElementConstraints(ranges, fields, cols)
    {
      var element := fields[k];
      if element in ranges {
        var minVal := ranges[element].min / 100.0;
        var maxVal := ranges[element].max / 100.0;
        AppendWindow(ranges, fields, cols, k);
        cs := cs + [AtLeast(k, minVal), AtMost(k, maxVal)];
        cols := cols + [k];
      }
      k := k + 1;
    }
  }

  /** One step of the element loop: a constrained column appends its pair. */
  lemma AppendWindow(ranges: map<string, Range>, fields: seq<string>, cols: seq<nat>, k: nat)
    requires ValidColumns(ranges, fields, cols)
    requires k < |fields| && fields[k] in ranges
    ensures ValidColumns(ranges, fields, cols + [k])
    ensures ElementConstraints(ranges, fields, cols + [k])
         == ElementConstraints(ranges, fields, cols) + WindowPair(ranges, fields, k)
  {
    assert (cols + [k])[..|cols|] == cols;
  }

  lemma ConstraintsFit(ranges: map<string, Range>, fields: seq<string>, weights: seq<real>)
    requires |fields| == ELEMENT_COUNT
    ensures AllFit(ConstraintsFor(ranges, fields, weights), |weights|)
  {
    var a := ElementConstraints(ranges, fields, ConstrainedColumns(ranges, fields, |fields|));
    var b := CapacityConstraints(weights, |weights|);
    ElementPartFits(ranges, fields, ConstrainedColumns(ranges, fields, |fields|), |weights|);
    assert forall j :: |a| <= j < |a + b| ==> (a + b)[j] == b[j - |a|];
  }

  /** Both cleared-denominator inequalities of column k hold at x. */
  predicate WindowHolds(ranges: map<string, Range>, fields: seq<string>, k: nat, x: seq<real>, m: seq<seq<real>>)
    requires k < |fields| && fields[k] in ranges
    requires IsFractionMatrix(m, |x|) && k < ELEMENT_COUNT
  {
    && ColumnDot(x, m, k) - ranges[fields[k]].min / 100.0 * Sum(x) >= 0.0
    && ranges[fields[k]].max / 100.0 * Sum(x) - ColumnDot(x, m, k) >= 0.0
  }

  /** No lot is drawn beyond its available weight. */
  predicate WithinCapacity(x: seq<real>, weights: seq<real>)
    requires |x| == |weights|
  {
    forall i :: 0 <= i < |x| ==> x[i] <= weights[i]
  }

  lemma SatisfiedConcat(a: seq<Constraint>, b: seq<Constraint>, x: seq<real>, m: seq<seq<real>>)
    requires IsFractionMatrix(m, |x|) && AllFit(a, |x|) && AllFit(b, |x|)
    ensures AllFit(a + b, |x|)
    ensures Satisfied(a + b, x, m) <==> Satisfied(a, x, m) && Satisfied(b, x, m)
  {
    var c := a + b;
    assert forall j :: 0 <= j < |a| ==> c[j] == a[j];
    assert forall j :: 0 <= j < |b| ==> c[|a| + j] == b[j];
    if Satisfied(c, x, m) {
      forall j | 0 <= j < |a| ensures Eval(a[j], x, m) >= 0.0 {
        assert c[j] == a[j];
      }
      forall j | 0 <= j < |b| ensures Eval(b[j], x, m) >= 0.0 {
        assert c[|a| + j] == b[j];
      }
    }
    if Satisfied(a, x, m) && Satisfied(b, x, m) {
      forall j | 0 <= j < |c| ensures Eval(c[j], x, m) >= 0.0 {
        if j >= |a| {
          assert c[j] == b[j - |a|];
        }
      }
    }
  }

  /** The element part of the list holds exactly when each listed column's
      pair holds. */
  lemma {:induction false} ElementPartIff(ranges: map<string, Range>, fields: seq<string>, cols: seq<nat>,
                                          x: seq<real>, m: seq<seq<real>>)
    requires |fields| == ELEMENT_COUNT && ValidColumns(ranges, fields, cols) && IsFractionMatrix(m, |x|)
    ensures AllFit(ElementConstraints(ranges, fields, cols), |x|)
    ensures Satisfied(ElementConstraints(ranges, fields, cols), x, m) <==>
              forall j :: 0 <= j < |cols| ==> WindowHolds(ranges, fields, cols[j], x, m)
    decreases |cols|
  {
    ElementPartFits(ranges, fields, cols, |x|);
    if cols != [] {
      var init, k := cols[..|cols| - 1], cols[|cols| - 1];
      var pair := WindowPair(ranges, fields, k);
      ElementPartIff(ranges, fields, init, x, m);
      SatisfiedConcat(ElementConstraints(ranges, fields, init), pair, x, m);
      PairIff(ranges, fields, k, x, m);
      assert forall j :: 0 <= j < |init| ==> init[j] == cols[j];
    }
  }

  /** The pair of one column holds exactly when its window inequalities do. */
  lemma PairIff(ranges: map<string, Range>, fields: seq<string>, k: nat, x: seq<real>, m: seq<seq<real>>)
    requires |fields| == ELEMENT_COUNT && k < |fields| && fields[k] in ranges && IsFractionMatrix(m, |x|)
    ensures AllFit(WindowPair(ranges, fields, k), |x|)
    ensures Satisfied(WindowPair(ranges, fields, k), x, m) <==> WindowHolds(ranges, fields, k, x, m)
  {
    var pair := WindowPair(ranges, fields, k);
    var lo, hi := Eval(pair[0], x, m), Eval(pair[1], x, m);
    var r := ranges[fields[k]];
    assert lo == ColumnDot(x, m, k) - r.min / 100.0 * Sum(x);
    assert hi == r.max / 100.0 * Sum(x) - ColumnDot(x, m, k);
    assert WindowHolds(ranges, fields, k, x, m) <==> lo >= 0.0 && hi >= 0.0;
    if lo >= 0.0 && hi >= 0.0 {
      forall j | 0 <= j < 2 ensures Eval(pair[j], x, m) >= 0.0 {
        if j == 1 { assert pair[j] == pair[1]; } else { assert pair[j] == pair[0]; }
      }
    }
  }

  lemma {:induction false} ElementPartFits(ranges: map<string, Range>, fields: seq<string>, cols: seq<nat>, n: nat)
    requires |fields| == ELEMENT_COUNT && ValidColumns(ranges, fields, cols)
    ensures AllFit(ElementConstraints(ranges, fields, cols), n)
    decreases |cols|
  {
    if cols != [] {
      ElementPartFits(ranges, fields, cols[..|cols| - 1], n);
      var a := ElementConstraints(ranges, fields, cols[..|cols| - 1]);
      var b := WindowPair(ranges, fields, cols[|cols| - 1]);
      assert forall j :: |a| <= j < |a + b| ==> (a + b)[j] == b[j - |a|];
    }
  }

  /** The cap part of the list holds exactly when no lot is over-drawn. */
  lemma {:induction false} CapacityPartIff(weights: seq<real>, upTo: nat, x: seq<real>, m: seq<seq<real>>)
    requires upTo <= |weights| == |x| && IsFractionMatrix(m, |x|)
    ensures AllFit(CapacityConstraints(weights, upTo), |x|)
    ensures Satisfied(CapacityConstraints(weights, upTo), x, m) <==> forall i :: 0 <= i < upTo ==> x[i] <= weights[i]
    decreases upTo
  {
    if upTo > 0 {
      CapacityPartIff(weights, upTo - 1, x, m);
      var last := [Capacity(upTo - 1, weights[upTo - 1])];
      SatisfiedConcat(CapacityConstraints(weights, upTo - 1), last, x, m);
      assert Satisfied(last, x, m) <==> x[upTo - 1] <= weights[upTo - 1] by {
        assert Eval(last[0], x, m) == weights[upTo - 1] - x[upTo - 1];
      }
    }
  }

  /** The formulation means what it was written for: x satisfies the list
      exactly when every constrained element's pair holds and no cap is
      exceeded. */
  lemma SatisfiedIff(ranges: map<string, Range>, fields: seq<string>, weights: seq<real>, x: seq<real>, m: seq<seq<real>>)
    requires |fields| == ELEMENT_COUNT && |weights| == |x| && IsFractionMatrix(m, |x|)
    ensures AllFit(ConstraintsFor(ranges, fields, weights), |x|)
    ensures Satisfied(ConstraintsFor(ranges, fields, weights), x, m) <==>
              (forall k :: 0 <= k < |fields| && fields[k] in ranges ==> WindowHolds(ranges, fields, k, x, m))
              && WithinCapacity(x, weights)
  {
    var cols := ConstrainedColumns(ranges, fields, |fields|);
    ConstrainedColumnsExact(ranges, fields, |fields|);
    ElementPartIff(ranges, fields, cols, x, m);
    CapacityPartIff(weights, |weights|, x, m);
    SatisfiedConcat(ElementConstraints(ranges, fields, cols), CapacityConstraints(weights, |weights|), x, m);
    if forall j :: 0 <= j < |cols| ==> WindowHolds(ranges, fields, cols[j], x, m) {
      forall k | 0 <= k < |fields| && fields[k] in ranges ensures WindowHolds(ranges, fields, k, x, m) {
        var j :| 0 <= j < |cols| && cols[j] == k;
      }
    }
  }

  /** The achieved percentage of an element: its weight over the total, ×100. */
  function Percentage(weighted: real, total: real): real
    requires total != 0.0
  {
    weighted / total * 100.0
  }

  /** The linearisation: with a positive total weight, the two
      cleared-denominator inequalities hold exactly when the blended
      percentage lies in [min, max]. */
  lemma Linearisation(weighted: real, total: real, lo: real, hi: real)
    requires total > 0.0
    ensures (weighted - lo / 100.0 * total >= 0.0 && hi / 100.0 * total - weighted >= 0.0)
        <==> (lo <= Percentage(weighted, total) <= hi)
  {
    var p := Percentage(weighted, total);
    assert p * total == weighted * 100.0;
    assert weighted - lo / 100.0 * total == (p - lo) * total / 100.0;
    assert hi / 100.0 * total - weighted == (hi - p) * total / 100.0;
  }

  /** The blended percentage of column k lies inside its element's window. */
  predicate InWindow(ranges: map<string, Range>, fields: seq<string>, k: nat, x: seq<real>, m: seq<seq<real>>)
    requires k < |fields| && fields[k] in ranges
    requires IsFractionMatrix(m, |x|) && k < ELEMENT_COUNT && Sum(x) != 0.0
  {
    ranges[fields[k]].min <= Percentage(ColumnDot(x, m, k), Sum(x)) <= ranges[fields[k]].max
  }

  /** Every element the standard constrains has its blended percentage inside
      its window. */
  predicate InWindows(ranges: map<string, Range>, fields: seq<string>, x: seq<real>, m: seq<seq<real>>)
    requires |fields| == ELEMENT_COUNT && IsFractionMatrix(m, |x|) && Sum(x) != 0.0
  {
    forall k :: 0 <= k < |fields| && fields[k] in ranges ==> InWindow(ranges, fields, k, x, m)
  }

  /** One element: its two inequalities hold iff its percentage is in its
      window. */
  lemma WindowIffInWindow(ranges: map<string, Range>, fields: seq<string>, k: nat, x: seq<real>, m: seq<seq<real>>)
    requires k < |fields| && fields[k] in ranges
    requires IsFractionMatrix(m, |x|) && k < ELEMENT_COUNT && Sum(x) > 0.0
    ensures WindowHolds(ranges, fields, k, x, m) <==> InWindow(ranges, fields, k, x, m)
  {
    Linearisation(ColumnDot(x, m, k), Sum(x), ranges[fields[k]].min, ranges[fields[k]].max);
  }

  /** For a blend of positive total weight, satisfying the formulation is the
      same as meeting every element window and every availability cap. */
  lemma FeasibleIffInWindows(ranges: map<string, Range>, fields: seq<string>, weights: seq<real>,
                             x: seq<real>, m: seq<seq<real>>)
    requires |fields| == ELEMENT_COUNT && |weights| == |x| && IsFractionMatrix(m, |x|)
    requires Sum(x) > 0.0
    ensures AllFit(ConstraintsFor(ranges, fields, weights), |x|)
    ensures Satisfied(ConstraintsFor(ranges, fields, weights), x, m) <==>
              InWindows(ranges, fields, x, m) && WithinCapacity(x, weights)
  {
    SatisfiedIff(ranges, fields, weights, x, m);
    forall k | 0 <= k < |fields| && fields[k] in ranges
      ensures WindowHolds(ranges, fields, k, x, m) <==> InWindow(ranges, fields, k, x, m)
    {
      WindowIffInWindow(ranges, fields, k, x, m);
    }
  }

  /** The all-zero vector of length n. */
  function Zeros(n: nat): (z: seq<real>)
    ensures |z| == n && forall i :: 0 <= i < n ==> z[i] == 0.0
  {
    seq(n, i => 0.0)
  }

  lemma {:induction false} ZeroSums(n: nat, m: seq<seq<real>>, prices: seq<real>)
    requires IsFractionMatrix(m, n) && |prices| == n
    ensures Sum(Zeros(n)) == 0.0 && Dot(Zeros(n), prices) == 0.0
    ensures forall k :: 0 <= k < ELEMENT_COUNT ==> ColumnDot(Zeros(n), m, k) == 0.0
  {
    if n > 0 {
      assert Zeros(n)[1..] == Zeros(n - 1);
      ZeroSums(n - 1, m[1..], prices[1..]);
    }
  }

  lemma {:induction false} CostNonNegative(x: seq<real>, prices: seq<real>)
    requires |x| == |prices|
    requires forall i :: 0 <= i < |x| ==> x[i] >= 0.0 && prices[i] >= 0.0
    ensures Dot(x, prices) >= 0.0
  {
    if x != [] {
      CostNonNegative(x[1..], prices[1..]);
    }
  }

  /** The formulation has no lower bound on the total weight: the empty blend
      x = 0 meets every inequality whenever the caps are non-negative, and with
      non-negative prices no admissible blend costs less, so it is a minimum
      of the stated problem. */
  lemma EmptyBlendIsOptimal(ranges: map<string, Range>, fields: seq<string>, weights: seq<real>,
                            prices: seq<real>, m: seq<seq<real>>)
    requires |fields| == ELEMENT_COUNT && |weights| == |prices| && IsFractionMatrix(m, |weights|)
    requires forall i :: 0 <= i < |weights| ==> weights[i] >= 0.0
    ensures AllFit(ConstraintsFor(ranges, fields, weights), |weights|)
    ensures Satisfied(ConstraintsFor(ranges, fields, weights), Zeros(|weights|), m)
    ensures Dot(Zeros(|weights|), prices) == 0.0
    ensures (forall i :: 0 <= i < |prices| ==> prices[i] >= 0.0) ==>
              forall x :: |x| == |weights| && (forall i :: 0 <= i < |x| ==> x[i] >= 0.0) ==>
                Dot(Zeros(|weights|), prices) <= Dot(x, prices)
  {
    var z := Zeros(|weights|);
    ZeroSums(|weights|, m, prices);
    SatisfiedIff(ranges, fields, weights, z, m);
    if forall i :: 0 <= i < |prices| ==> prices[i] >= 0.0 {
      forall x | |x| == |weights| && (forall i :: 0 <= i < |x| ==> x[i] >= 0.0)
        ensures Dot(z, prices) <= Dot(x, prices)
      {
        CostNonNegative(x, prices);
      }
    }
  }
}
