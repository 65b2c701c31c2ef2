/** The blend optimiser (waste.py, WasteManager.optimize_mix) and the entry
    point that picks the standard (WasteManager.calculate_optimization). The
    numeric solver is an oracle: a function from the stated problem to a
    success flag and a weight vector. */
module Optimizer {
  import opened Wrappers
  import opened Layout
  import opened Areas
  import opened Composition
  import opened Formulation
  import opened Analysis

  /** The iteration cap handed to the solver. */
  const MAX_ITERATIONS: nat := 1000
  /** The starting point: this share of every lot's available weight. */
  const INITIAL_SHARE: real := 0.1

  /** What the solver is given: minimise Σ x_i·prices_i subject to every
      constraint function being ≥ 0 and x_i ≥ lowerBounds_i, starting from
      initialGuess. */
  datatype Problem = Problem(
    prices: seq<real>,
    constraints: seq<Constraint>,
    matrix: seq<seq<real>>,
    lowerBounds: seq<real>,
    initialGuess: seq<real>,
    maxIterations: nat)

  /** What the solver reports back: its success flag and the final vector. */
  datatype SolverOutcome = SolverOutcome(success: bool, x: seq<real>)

  type Solver = Problem -> SolverOutcome

  /** Why no blend is reported. */
  datatype Failure =
    | NoLotsInArea(area: string)   // "在区域 … 中没有找到废料数据"
    | NoFeasibleSolution           // "无法找到可行解"
    | ComputeError                 // "计算错误: …", any exception raised on the way

  /** The dictionary optimize_mix returns. */
  datatype BlendResult =
    | Feasible(totalWeight: real, totalCost: real, avgPrice: real,
               mix: map<string, MixEntry>, analysis: map<string, ElementReport>)
    | Infeasible(reason: Failure)

  /** x lies in the region the solver is asked to search. */
  predicate Admissible(p: Problem, x: seq<real>)
    requires IsFractionMatrix(p.matrix, |p.prices|) && AllFit(p.constraints, |p.prices|) && |p.lowerBounds| == |p.prices|
  {
    && |x| == |p.prices|
    && (forall i :: 0 <= i < |x| ==> p.lowerBounds[i] <= x[i])
    && Satisfied(p.constraints, x, p.matrix)
  }

  /** The lots, numbers and problem optimize_mix builds before it calls the
      solver; None where it never gets that far. */
  datatype Prepared = Prepared(lots: seq<Row>, weights: seq<real>, problem: Problem)

  function Prepare(catalogue: seq<Row>, standard: Standard, area: string, parse: Parser): (r: Option<Prepared>)
    ensures r.Some? ==> |r.value.lots| > 0
    ensures r.Some? ==> |r.value.weights| == |r.value.problem.prices| == |r.value.lots|
    ensures r.Some? ==> forall i :: 0 <= i < |r.value.lots| ==> |r.value.lots[i]| > PRICE_COLUMN
  {
    match FilterByArea(catalogue, area)
    case None => None
    case Some(lots) =>
      if lots == [] then None
      else
        match (ParseColumn(lots, WEIGHT_COLUMN, parse), ParseColumn(lots, PRICE_COLUMN, parse))
        case (Some(weights), Some(prices)) =>
          var n := |lots|;
          Some(Prepared(lots, weights, Problem(
            prices,
            ConstraintsFor(standard.ranges, ELEMENT_FIELDS, weights),
            FractionMatrix(lots, parse),
            Zeros(n),
            seq(n, i requires 0 <= i < n => weights[i] * INITIAL_SHARE),
            MAX_ITERATIONS)))
        case _ => None
  }

  /** The result of optimize_mix for the given inputs and solver. */
  function Blend(catalogue: seq<Row>, standard: Standard, area: string, parse: Parser, solve: Solver): BlendResult
  {
    match FilterByArea(catalogue, area)
    case None => Infeasible(ComputeError)
    case Some(lots) =>
      if lots == [] then Infeasible(NoLotsInArea(area))
      else
        match Prepare(catalogue, standard, area, parse)
        case None => Infeasible(ComputeError)
        case Some(prep) =>
          var p := prep.problem;
          var outcome := solve(p);
          var x := outcome.x;
          var n := |prep.lots|;
          if !outcome.success then Infeasible(NoFeasibleSolution)
          else if |x| != n then Infeasible(ComputeError)
          else
            var names := seq(n, i requires 0 <= i < n => prep.lots[i][NAME_COLUMN]);
            var areas := seq(n, i requires 0 <= i < n => prep.lots[i][AREA_COLUMN]);
            Feasible(Sum(x), Dot(x, p.prices), AveragePrice(Dot(x, p.prices), Sum(x)),
                     MixUpTo(names, areas, x, n),
                     AnalysisUpTo(standard.ranges, ELEMENT_FIELDS, x, p.matrix, ELEMENT_COUNT))
  }

  /** optimize_mix: filter, convert, formulate, solve, analyse. */
  method OptimizeMix(catalogue: seq<Row>, standard: Standard, area: string, parse: Parser, solve: Solver)
    returns (result: BlendResult)
    ensures result == Blend(catalogue, standard, area, parse, solve)
  {
    var filtered := FilterByArea(catalogue, area);
    if filtered.None? {
      return Infeasible(ComputeError);
    }
    var lots := filtered.value;
    if |lots| == 0 {
      return Infeasible(NoLotsInArea(area));
    }
    var parsedWeights := ParseColumn(lots, WEIGHT_COLUMN, parse);
    var parsedPrices := ParseColumn(lots, PRICE_COLUMN, parse);
    if parsedWeights.None? || parsedPrices.None? {
      return Infeasible(ComputeError);
    }
    var n := |lots|;
    var names := seq(n, i requires 0 <= i < n => lots[i][NAME_COLUMN]);
    var areas := seq(n, i requires 0 <= i < n => lots[i][AREA_COLUMN]);
    var weights, prices := parsedWeights.value, parsedPrices.value;
    var matrix := BuildElementMatrix(lots, parse);
    var constraints := BuildConstraints(standard.ranges, ELEMENT_FIELDS, weights);
    var x0 := seq(n, i requires 0 <= i < n => weights[i] * INITIAL_SHARE);
    var problem := Problem(prices, constraints, matrix, Zeros(n), x0, MAX_ITERATIONS);
    assert Prepare(catalogue, standard, area, parse) == Some(Prepared(lots, weights, problem));
    var outcome := solve(problem);
    if !outcome.success {
      return Infeasible(NoFeasibleSolution);
    }
    var x := outcome.x;
    if |x| != n {
      return Infeasible(ComputeError);
    }
    var totalWeight := Sum(x);
    var totalCost := Dot(x, prices);
    var avgPrice := AveragePrice(totalCost, totalWeight);
    var analysis := AnalyzeElements(standard.ranges, ELEMENT_FIELDS, x, matrix);
    var mix := BuildMix(names, areas, x);
    result := Feasible(totalWeight, totalCost, avgPrice, mix, analysis);
  }

  /** An area without lots is reported as such, and the solver plays no part
      in that answer. */
  lemma EmptyAreaReported(catalogue: seq<Row>, standard: Standard, area: string, parse: Parser,
                          solve: Solver, otherSolve: Solver)
    ensures Blend(catalogue, standard, area, parse, solve) == Infeasible(NoLotsInArea(area))
        <==> FilterByArea(catalogue, area) == Some([])
    ensures FilterByArea(catalogue, area) == Some([]) ==>
              Blend(catalogue, standard, area, parse, solve) == Blend(catalogue, standard, area, parse, otherSolve)
  {
  }

  /** A weight or price that does not convert, in a lot of the chosen area,
      ends the computation with the error message; element columns never do. */
  lemma BadNumberIsComputeError(catalogue: seq<Row>, standard: Standard, area: string, parse: Parser,
                                solve: Solver, i: nat)
    requires FilterByArea(catalogue, area).Some?
    requires i < |FilterByArea(catalogue, area).value|
    requires var row := FilterByArea(catalogue, area).value[i];
             |row| <= PRICE_COLUMN || parse(row[WEIGHT_COLUMN]).None? || parse(row[PRICE_COLUMN]).None?
    ensures Blend(catalogue, standard, area, parse, solve) == Infeasible(ComputeError)
  {
    var lots := FilterByArea(catalogue, area).value;
    var row := lots[i];
    if |row| <= WEIGHT_COLUMN || parse(row[WEIGHT_COLUMN]).None? {
      assert ParseColumn(lots, WEIGHT_COLUMN, parse).None?;
    } else {
      assert ParseColumn(lots, PRICE_COLUMN, parse).None?;
    }
  }

  /** The problem handed to the solver: one variable per lot of the chosen
      area, prices and caps read from the weight and price columns, two
      inequalities per element of the layout that the standard names, bounds
      x ≥ 0, a start at 10% of every lot and an iteration cap of 1000. */
  lemma ProblemShape(catalogue: seq<Row>, standard: Standard, area: string, parse: Parser)
    requires Prepare(catalogue, standard, area, parse).Some?
    ensures var prep := Prepare(catalogue, standard, area, parse).value;
            var p := prep.problem;
            var n := |prep.lots|;
            var cols := ConstrainedColumns(standard.ranges, ELEMENT_FIELDS, ELEMENT_COUNT);
            && FilterByArea(catalogue, area) == Some(prep.lots)
            && (forall i :: 0 <= i < n ==> parse(prep.lots[i][WEIGHT_COLUMN]) == Some(prep.weights[i]))
            && (forall i :: 0 <= i < n ==> parse(prep.lots[i][PRICE_COLUMN]) == Some(p.prices[i]))
            && p.matrix == FractionMatrix(prep.lots, parse)
            && |p.constraints| == 2 * |cols| + n
            && (forall k :: 0 <= k < ELEMENT_COUNT && ELEMENT_FIELDS[k] in standard.ranges <==> k in cols)
            && |p.lowerBounds| == n && (forall i :: 0 <= i < n ==> p.lowerBounds[i] == 0.0)
            && |p.initialGuess| == n && (forall i :: 0 <= i < n ==> p.initialGuess[i] == prep.weights[i] * INITIAL_SHARE)
            && p.maxIterations == MAX_ITERATIONS
  {
    var prep := Prepare(catalogue, standard, area, parse).value;
    ConstrainedColumnsExact(standard.ranges, ELEMENT_FIELDS, ELEMENT_COUNT);
    ConstraintsFit(standard.ranges, ELEMENT_FIELDS, prep.weights);
  }

  /** The value of a reported blend, spelled out from the solver's vector. */
  lemma FeasibleValue(catalogue: seq<Row>, standard: Standard, area: string, parse: Parser, solve: Solver)
    returns (prep: Prepared, names: seq<string>, areas: seq<string>)
    requires Blend(catalogue, standard, area, parse, solve).Feasible?
    ensures Prepare(catalogue, standard, area, parse) == Some(prep)
    ensures solve(prep.problem).success && |solve(prep.problem).x| == |prep.lots|
    ensures |names| == |areas| == |prep.lots|
    ensures forall i :: 0 <= i < |prep.lots| ==> names[i] == prep.lots[i][NAME_COLUMN]
    ensures forall i :: 0 <= i < |prep.lots| ==> areas[i] == prep.lots[i][AREA_COLUMN]
    ensures var x := solve(prep.problem).x;
            Blend(catalogue, standard, area, parse, solve) ==
              Feasible(Sum(x), Dot(x, prep.problem.prices), AveragePrice(Dot(x, prep.problem.prices), Sum(x)),
                       MixUpTo(names, areas, x, |x|),
                       AnalysisUpTo(standard.ranges, ELEMENT_FIELDS, x, prep.problem.matrix, ELEMENT_COUNT))
  {
    prep := Prepare(catalogue, standard, area, parse).value;
    var n := |prep.lots|;
    names := seq(n, i requires 0 <= i < n => prep.lots[i][NAME_COLUMN]);
    areas := seq(n, i requires 0 <= i < n => prep.lots[i][AREA_COLUMN]);
  }

  /** What a reported blend holds: the total and the cost of the solver's
      vector and the guarded average price. */
  lemma FeasibleReport(catalogue: seq<Row>, standard: Standard, area: string, parse: Parser, solve: Solver)
    requires Blend(catalogue, standard, area, parse, solve).Feasible?
    ensures Prepare(catalogue, standard, area, parse).Some?
    ensures var r := Blend(catalogue, standard, area, parse, solve);
            var prep := Prepare(catalogue, standard, area, parse).value;
            var x := solve(prep.problem).x;
            && solve(prep.problem).success
            && |x| == |prep.lots|
            && r.totalWeight == Sum(x)
            && r.totalCost == Dot(x, prep.problem.prices)
            && (r.totalWeight > 0.0 ==> r.avgPrice * r.totalWeight == r.totalCost)
            && (r.totalWeight <= 0.0 ==> r.avgPrice == 0.0)
  {
    var prep, names, areas := FeasibleValue(catalogue, standard, area, parse, solve);
  }

  /** A reported blend analyses exactly the elements of the layout that the
      standard names. */
  lemma FeasibleAnalysisKeys(catalogue: seq<Row>, standard: Standard, area: string, parse: Parser, solve: Solver)
    requires Blend(catalogue, standard, area, parse, solve).Feasible?
    ensures forall e :: e in Blend(catalogue, standard, area, parse, solve).analysis <==>
              e in standard.ranges && e in ELEMENT_FIELDS
  {
    var prep, names, areas := FeasibleValue(catalogue, standard, area, parse, solve);
    AnalysisKeys(standard.ranges, ELEMENT_FIELDS, solve(prep.problem).x, prep.problem.matrix, ELEMENT_COUNT);
    assert ELEMENT_FIELDS[..ELEMENT_COUNT] == ELEMENT_FIELDS;
  }

  /** A reported blend lists exactly the names of the lots the solver drew
      above the threshold. */
  lemma FeasibleMix(catalogue: seq<Row>, standard: Standard, area: string, parse: Parser, solve: Solver)
    requires Blend(catalogue, standard, area, parse, solve).Feasible?
    ensures Prepare(catalogue, standard, area, parse).Some?
    ensures var prep := Prepare(catalogue, standard, area, parse).value;
            var x := solve(prep.problem).x;
            |x| == |prep.lots| &&
            forall name :: name in Blend(catalogue, standard, area, parse, solve).mix <==>
              exists i :: 0 <= i < |x| && prep.lots[i][NAME_COLUMN] == name && x[i] > NEGLIGIBLE
  {
    var prep, names, areas := FeasibleValue(catalogue, standard, area, parse, solve);
    var x := solve(prep.problem).x;
    MixKeys(names, areas, x, |x|);
  }

  /** A lot the solver drew above the threshold, and no later lot of the same
      name was, has an entry in the reported blend carrying its own weight
      and area. */
  lemma FeasibleMixEntry(catalogue: seq<Row>, standard: Standard, area: string, parse: Parser, solve: Solver, i: nat)
    requires Blend(catalogue, standard, area, parse, solve).Feasible?
    requires Prepare(catalogue, standard, area, parse).Some?
    requires var prep := Prepare(catalogue, standard, area, parse).value;
             var x := solve(prep.problem).x;
             && |x| == |prep.lots| && i < |x| && x[i] > NEGLIGIBLE
             && forall j :: i < j < |x| && prep.lots[j][NAME_COLUMN] == prep.lots[i][NAME_COLUMN] ==> x[j] <= NEGLIGIBLE
    ensures var prep := Prepare(catalogue, standard, area, parse).value;
            var x := solve(prep.problem).x;
            var mix := Blend(catalogue, standard, area, parse, solve).mix;
            && prep.lots[i][NAME_COLUMN] in mix
            && mix[prep.lots[i][NAME_COLUMN]] == MixEntry(x[i], prep.lots[i][AREA_COLUMN])
  {
    var prep, names, areas := FeasibleValue(catalogue, standard, area, parse, solve);
    var x := solve(prep.problem).x;
    MixLastWins(names, areas, x, |x|, i);
  }

  /** The linearisation at work: when the solver's vector has positive total
      weight, the blend is reported with every analysed element in range
      exactly when the vector meets the inequality list and no cap is
      exceeded. */
  lemma InRangeIffSolverVectorSatisfies(catalogue: seq<Row>, standard: Standard, area: string, parse: Parser,
                                        solve: Solver)
    requires Prepare(catalogue, standard, area, parse).Some?
    requires var p := Prepare(catalogue, standard, area, parse).value.problem;
             solve(p).success && |solve(p).x| == |p.prices| && Sum(solve(p).x) > 0.0
    ensures var prep := Prepare(catalogue, standard, area, parse).value;
            var p := prep.problem;
            var x := solve(p).x;
            var r := Blend(catalogue, standard, area, parse, solve);
            && r.Feasible?
            && AllFit(p.constraints, |x|)
            && (Satisfied(p.constraints, x, p.matrix) <==>
                  (forall e :: e in r.analysis ==> r.analysis[e].inRange) && WithinCapacity(x, prep.weights))
  {
    var prep := Prepare(catalogue, standard, area, parse).value;
    var x := solve(prep.problem).x;
    ProblemShape(catalogue, standard, area, parse);
    assert prep.problem.constraints == ConstraintsFor(standard.ranges, ELEMENT_FIELDS, prep.weights);
    assert Blend(catalogue, standard, area, parse, solve).analysis
        == AnalysisUpTo(standard.ranges, ELEMENT_FIELDS, x, prep.problem.matrix, |ELEMENT_FIELDS|);
    ElementFieldsDistinct();
    InRangeIffSatisfied(standard.ranges, ELEMENT_FIELDS, prep.weights, x, prep.problem.matrix);
  }

  /** A reported blend of zero total weight has average price 0 and no
      element in range (its contents are not numbers). */
  lemma ZeroWeightReport(catalogue: seq<Row>, standard: Standard, area: string, parse: Parser, solve: Solver)
    requires Blend(catalogue, standard, area, parse, solve).Feasible?
    requires Blend(catalogue, standard, area, parse, solve).totalWeight == 0.0
    ensures Blend(catalogue, standard, area, parse, solve).avgPrice == 0.0
    ensures forall e :: e in Blend(catalogue, standard, area, parse, solve).analysis ==>
              !Blend(catalogue, standard, area, parse, solve).analysis[e].inRange
  {
    var prep := Prepare(catalogue, standard, area, parse).value;
    ZeroTotalNothingInRange(standard.ranges, ELEMENT_FIELDS, solve(prep.problem).x, prep.problem.matrix, ELEMENT_COUNT);
  }

  /** The stated problem puts no floor under the total weight: with
      non-negative caps the empty blend is admissible at cost 0, and with
      non-negative prices no admissible vector is cheaper. An exact solver
      may therefore answer with the empty blend, which the analysis then
      reports with every element out of range. */
  lemma EmptyBlendAdmissible(catalogue: seq<Row>, standard: Standard, area: string, parse: Parser)
    requires Prepare(catalogue, standard, area, parse).Some?
    requires forall i :: 0 <= i < |Prepare(catalogue, standard, area, parse).value.weights| ==>
               Prepare(catalogue, standard, area, parse).value.weights[i] >= 0.0
    ensures var p := Prepare(catalogue, standard, area, parse).value.problem;
            && AllFit(p.constraints, |p.prices|)
            && Admissible(p, Zeros(|p.prices|))
            && Dot(Zeros(|p.prices|), p.prices) == 0.0
            && ((forall i :: 0 <= i < |p.prices| ==> p.prices[i] >= 0.0) ==>
                  forall x :: Admissible(p, x) ==> Dot(Zeros(|p.prices|), p.prices) <= Dot(x, p.prices))
  {
    var prep := Prepare(catalogue, standard, area, parse).value;
    var p := prep.problem;
    EmptyBlendIsOptimal(standard.ranges, ELEMENT_FIELDS, prep.weights, p.prices, p.matrix);
  }

  /** What calculate_optimization shows. */
  datatype Outcome =
    | NoWasteData          // "没有废料数据"
    | NoStandardChosen     // "请选择产品标准"
    | StandardDataError    // "产品标准数据错误"
    | Shown(result: BlendResult)

  /** The first standard carrying the chosen name, if any. */
  method FindStandard(standards: seq<Standard>, name: string) returns (found: Option<Standard>)
    ensures found.None? <==> forall i :: 0 <= i < |standards| ==> standards[i].name != name
    ensures found.Some? ==>
              exists i :: (0 <= i < |standards| && standards[i] == found.value && standards[i].name == name &&
                           forall j :: 0 <= j < i ==> standards[j].name != name)
  {
    found := None;
    var i := 0;
    while i < |standards|
      invariant 0 <= i <= |standards|
      invariant forall j :: 0 <= j < i ==> standards[j].name != name
    {
      if standards[i].name == name {
        found := Some(standards[i]);
        return;
      }
      i := i + 1;
    }
  }

  /** calculate_optimization: refuse an empty catalogue or an empty choice,
      look the standard up by name, then run the optimiser on it. */
  method CalculateOptimization(catalogue: seq<Row>, standards: seq<Standard>, chosenName: string, area: string,
                               parse: Parser, solve: Solver) returns (outcome: Outcome)
    ensures |catalogue| == 0 ==> outcome == NoWasteData
    ensures |catalogue| > 0 && chosenName == "" ==> outcome == NoStandardChosen
    ensures |catalogue| > 0 && chosenName != "" ==>
              (outcome == StandardDataError <==> forall i :: 0 <= i < |standards| ==> standards[i].name != chosenName)
    ensures (|catalogue| > 0 && chosenName != "" &&
             exists i :: 0 <= i < |standards| && standards[i].name == chosenName) ==> outcome.Shown?
    ensures outcome.Shown? ==>
              exists i :: (0 <= i < |standards| && standards[i].name == chosenName &&
                           (forall j :: 0 <= j < i ==> standards[j].name != chosenName) &&
                           outcome.result == Blend(catalogue, standards[i], area, parse, solve))
  {
    if |catalogue| == 0 {
      return NoWasteData;
    }
    if chosenName == "" {
      return NoStandardChosen;
    }
    var selected := FindStandard(standards, chosenName);
    if selected.None? {
      return StandardDataError;
    }
    var result := OptimizeMix(catalogue, selected.value, area, parse, solve);
    outcome := Shown(result);
  }
}
