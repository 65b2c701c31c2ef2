/** The result analyser of optimize_mix: totals, the per-element achieved
    content against the standard, and the reported mix. */
module Analysis {
  import opened Layout
  import opened Composition
  import opened Formulation

  /** Allocations at or below this weight (kg) are dropped from the mix. */
  const NEGLIGIBLE: real := 0.001

  /** An achieved percentage. Dividing by a zero total weight gives NaN or
      ±inf in numpy; all of these are NonFinite and compare false. */
  datatype Content = Finite(value: real) | NonFinite

  /** One row of element_analysis. */
  datatype ElementReport = ElementReport(content: Content, targetMin: real, targetMax: real, inRange: bool)

  /** One row of waste_mix. */
  datatype MixEntry = MixEntry(weight: real, area: string)

  /** avg_price: the cost per kilogram when the total weight is positive,
      0 otherwise (the guard against dividing by zero). */
  function AveragePrice(totalCost: real, totalWeight: real): (avg: real)
    ensures totalWeight > 0.0 ==> avg * totalWeight == totalCost
    ensures totalWeight <= 0.0 ==> avg == 0.0
  {
    if totalWeight > 0.0 then totalCost / totalWeight else 0.0
  }

  /** The achieved content of element column k in blend x, in percent. */
  function ContentOf(x: seq<real>, m: seq<seq<real>>, k: nat): Content
    requires IsFractionMatrix(m, |x|) && k < ELEMENT_COUNT
  {
    if Sum(x) == 0.0 then NonFinite else Finite(Percentage(ColumnDot(x, m, k), Sum(x)))
  }

  /** The report of one element: achieved content, target window and whether
      `target_min <= content <= target_max` holds. */
  function ReportOf(window: Range, content: Content): (r: ElementReport)
    ensures r.content == content && r.targetMin == window.min && r.targetMax == window.max
    ensures r.inRange <==> content.Finite? && window.min <= content.value <= window.max
  {
    ElementReport(content, window.min, window.max,
                  content.Finite? && window.min <= content.value && content.value <= window.max)
  }

  /** element_analysis after the first `upTo` columns of the element loop. */
  function AnalysisUpTo(ranges: map<string, Range>, fields: seq<string>, x: seq<real>, m: seq<seq<real>>,
                        upTo: nat): map<string, ElementReport>
    requires |fields| == ELEMENT_COUNT && IsFractionMatrix(m, |x|) && upTo <= |fields|
  {
    if upTo == 0 then map[]
    else
      var before := AnalysisUpTo(ranges, fields, x, m, upTo - 1);
      var e := fields[upTo - 1];
      if e in ranges then before[e := ReportOf(ranges[e], ContentOf(x, m, upTo - 1))] else before
  }

  /** The element loop of the analysis: one report per element of `fields`
      that the standard names (optimize_mix passes ELEMENT_FIELDS). */
  method AnalyzeElements(ranges: map<string, Range>, fields: seq<string>, x: seq<real>, m: seq<seq<real>>)
    returns (analysis: map<string, ElementReport>)
    requires |fields| == ELEMENT_COUNT && IsFractionMatrix(m, |x|)
    ensures analysis == AnalysisUpTo(ranges, fields, x, m, |fields|)
  {
    analysis := map[];
    var totalWeight := Sum(x);
    var k := 0;
    while k < |fields|
      invariant 0 <= k <= |fields|
      invariant analysis == AnalysisUpTo(ranges, fields, x, m, k)
    {
      var element := fields[k];
      if element in ranges {
        var content := if totalWeight == 0.0 then NonFinite
                       else Finite(ColumnDot(x, m, k) / totalWeight * 100.0);
        var targetMin := ranges[element].min;
        var targetMax := ranges[element].max;
        var inRange := content.Finite? && targetMin <= content.value && content.value <= targetMax;
        analysis := analysis[element := ElementReport(content, targetMin, targetMax, inRange)];
      }
      k := k + 1;
    }
  }

  /** element_analysis has exactly one entry per element that is both in the
      layout and in the standard. */
  lemma {:induction false} AnalysisKeys(ranges: map<string, Range>, fields: seq<string>, x: seq<real>,
                                        m: seq<seq<real>>, upTo: nat)
    requires |fields| == ELEMENT_COUNT && IsFractionMatrix(m, |x|) && upTo <= |fields|
    ensures forall e :: e in AnalysisUpTo(ranges, fields, x, m, upTo) <==> e in ranges && e in fields[..upTo]
  {
    if upTo > 0 {
      AnalysisKeys(ranges, fields, x, m, upTo - 1);
      assert fields[..upTo] == fields[..upTo - 1] + [fields[upTo - 1]];
    }
  }

  /** With distinct element symbols, the entry of a constrained element
      reports its own column's content and its own target window. */
  lemma {:induction false} AnalysisEntry(ranges: map<string, Range>, fields: seq<string>, x: seq<real>,
                                         m: seq<seq<real>>, upTo: nat, k: nat)
    requires |fields| == ELEMENT_COUNT && IsFractionMatrix(m, |x|) && upTo <= |fields|
    requires forall i, j :: 0 <= i < j < |fields| ==> fields[i] != fields[j]
    requires k < upTo && fields[k] in ranges
    ensures fields[k] in AnalysisUpTo(ranges, fields, x, m, upTo)
    ensures AnalysisUpTo(ranges, fields, x, m, upTo)[fields[k]] == ReportOf(ranges[fields[k]], ContentOf(x, m, k))
  {
    if k < upTo - 1 {
      AnalysisEntry(ranges, fields, x, m, upTo - 1, k);
    }
  }

  /** The point of the linearisation: for a blend of positive total weight
      that meets the formulation, every analysed element is reported in range;
      and conversely, all elements in range plus no over-drawn lot means the
      blend meets the formulation. */
  lemma InRangeIffSatisfied(ranges: map<string, Range>, fields: seq<string>, weights: seq<real>,
                            x: seq<real>, m: seq<seq<real>>)
    requires |fields| == ELEMENT_COUNT && |weights| == |x| && IsFractionMatrix(m, |x|)
    requires forall i, j :: 0 <= i < j < |fields| ==> fields[i] != fields[j]
    requires Sum(x) > 0.0
    ensures AllFit(ConstraintsFor(ranges, fields, weights), |x|)
    ensures Satisfied(ConstraintsFor(ranges, fields, weights), x, m) <==>
              (forall e :: e in AnalysisUpTo(ranges, fields, x, m, |fields|) ==>
                 AnalysisUpTo(ranges, fields, x, m, |fields|)[e].inRange)
              && WithinCapacity(x, weights)
  {
    FeasibleIffInWindows(ranges, fields, weights, x, m);
    AllInRangeIffInWindows(ranges, fields, x, m);
  }

  /** For a blend of positive total weight, one element's in_range flag is
      exactly its window check. */
  lemma EntryInRangeIffInWindow(ranges: map<string, Range>, fields: seq<string>, x: seq<real>,
                                m: seq<seq<real>>, k: nat)
    requires |fields| == ELEMENT_COUNT && IsFractionMatrix(m, |x|)
    requires forall i, j :: 0 <= i < j < |fields| ==> fields[i] != fields[j]
    requires Sum(x) > 0.0
    requires k < |fields| && fields[k] in ranges
    ensures fields[k] in AnalysisUpTo(ranges, fields, x, m, |fields|)
    ensures AnalysisUpTo(ranges, fields, x, m, |fields|)[fields[k]].inRange <==> InWindow(ranges, fields, k, x, m)
  {
    AnalysisEntry(ranges, fields, x, m, |fields|, k);
  }

  /** Every entry of an analysis reports its element in range. */
  predicate AllInRange(analysis: map<string, ElementReport>)
  {
    forall e :: e in analysis ==> analysis[e].inRange
  }

  /** Every window met: every analysed element is in range. */
  lemma InWindowsAllInRange(ranges: map<string, Range>, fields: seq<string>, x: seq<real>, m: seq<seq<real>>)
    requires |fields| == ELEMENT_COUNT && IsFractionMatrix(m, |x|)
    requires forall i, j :: 0 <= i < j < |fields| ==> fields[i] != fields[j]
    requires Sum(x) > 0.0
    requires InWindows(ranges, fields, x, m)
    ensures AllInRange(AnalysisUpTo(ranges, fields, x, m, |fields|))
  {
    var analysis := AnalysisUpTo(ranges, fields, x, m, |fields|);
    AnalysisKeys(ranges, fields, x, m, |fields|);
    assert fields[..|fields|] == fields;
    forall e | e in analysis ensures analysis[e].inRange {
      var k :| 0 <= k < |fields| && fields[k] == e;
      EntryInRangeIffInWindow(ranges, fields, x, m, k);
    }
  }

  /** Every analysed element in range: every window met. */
  lemma AllInRangeInWindows(ranges: map<string, Range>, fields: seq<string>, x: seq<real>, m: seq<seq<real>>)
    requires |fields| == ELEMENT_COUNT && IsFractionMatrix(m, |x|)
    requires forall i, j :: 0 <= i < j < |fields| ==> fields[i] != fields[j]
    requires Sum(x) > 0.0
    requires AllInRange(AnalysisUpTo(ranges, fields, x, m, |fields|))
    ensures InWindows(ranges, fields, x, m)
  {
    forall k | 0 <= k < |fields| && fields[k] in ranges
      ensures InWindow(ranges, fields, k, x, m)
    {
      EntryInRangeIffInWindow(ranges, fields, x, m, k);
    }
  }

  /** For a blend of positive total weight, all in_range flags are true iff
      every constrained element's percentage is inside its window. */
  lemma AllInRangeIffInWindows(ranges: map<string, Range>, fields: seq<string>, x: seq<real>, m: seq<seq<real>>)
    requires |fields| == ELEMENT_COUNT && IsFractionMatrix(m, |x|)
    requires forall i, j :: 0 <= i < j < |fields| ==> fields[i] != fields[j]
    requires Sum(x) > 0.0
    ensures InWindows(ranges, fields, x, m) <==> AllInRange(AnalysisUpTo(ranges, fields, x, m, |fields|))
  {
    if InWindows(ranges, fields, x, m) {
      InWindowsAllInRange(ranges, fields, x, m);
    }
    if AllInRange(AnalysisUpTo(ranges, fields, x, m, |fields|)) {
      AllInRangeInWindows(ranges, fields, x, m);
    }
  }

  /** A blend of zero total weight has no finite content, so no analysed
      element is reported in range. */
  lemma ZeroTotalNothingInRange(ranges: map<string, Range>, fields: seq<string>, x: seq<real>,
                                m: seq<seq<real>>, upTo: nat)
    requires |fields| == ELEMENT_COUNT && IsFractionMatrix(m, |x|) && upTo <= |fields|
    requires Sum(x) == 0.0
    ensures forall e :: e in AnalysisUpTo(ranges, fields, x, m, upTo) ==>
              !AnalysisUpTo(ranges, fields, x, m, upTo)[e].inRange
  {
    if upTo > 0 {
      ZeroTotalNothingInRange(ranges, fields, x, m, upTo - 1);
    }
  }

  /** waste_mix after the first `upTo` lots: every lot above the threshold is
      entered under its name, a later lot overwriting an earlier one. */
  function MixUpTo(names: seq<string>, areas: seq<string>, x: seq<real>, upTo: nat): map<string, MixEntry>
    requires |names| == |areas| == |x| && upTo <= |x|
  {
    if upTo == 0 then map[]
    else
      var i := upTo - 1;
      var before := MixUpTo(names, areas, x, i);
      if x[i] > NEGLIGIBLE then before[names[i] := MixEntry(x[i], areas[i])] else before
  }

  /** The mix loop of optimize_mix. */
  method BuildMix(names: seq<string>, areas: seq<string>, x: seq<real>) returns (mix: map<string, MixEntry>)
    requires |names| == |areas| == |x|
    ensures mix == MixUpTo(names, areas, x, |x|)
  {
    mix := map[];
    var i := 0;
    while i < |names|
      invariant 0 <= i <= |names|
      invariant mix == MixUpTo(names, areas, x, i)
    {
      if x[i] > NEGLIGIBLE {
        mix := mix[names[i] := MixEntry(x[i], areas[i])];
      }
      i := i + 1;
    }
  }

  /** A name is in the mix exactly when some lot of that name has an
      allocation above the threshold. */
  lemma {:induction false} MixKeys(names: seq<string>, areas: seq<string>, x: seq<real>, upTo: nat)
    requires |names| == |areas| == |x| && upTo <= |x|
    ensures forall name :: name in MixUpTo(names, areas, x, upTo) <==>
              exists i :: 0 <= i < upTo && names[i] == name && x[i] > NEGLIGIBLE
  {
    if upTo > 0 {
      MixKeys(names, areas, x, upTo - 1);
    }
  }

  /** A name none of whose lots is above the threshold is not in the mix. */
  lemma {:induction false} MixOmits(names: seq<string>, areas: seq<string>, x: seq<real>, upTo: nat, name: string)
    requires |names| == |areas| == |x| && upTo <= |x|
    requires forall i :: 0 <= i < upTo && names[i] == name ==> x[i] <= NEGLIGIBLE
    ensures name !in MixUpTo(names, areas, x, upTo)
  {
    if upTo > 0 {
      MixOmits(names, areas, x, upTo - 1, name);
    }
  }

  /** The entry of a name holds the weight and area of the last lot of that
      name above the threshold. */
  lemma {:induction false} MixLastWins(names: seq<string>, areas: seq<string>, x: seq<real>, upTo: nat, i: nat)
    requires |names| == |areas| == |x| && upTo <= |x|
    requires i < upTo && x[i] > NEGLIGIBLE
    requires forall j :: i < j < upTo && names[j] == names[i] ==> x[j] <= NEGLIGIBLE
    ensures names[i] in MixUpTo(names, areas, x, upTo)
    ensures MixUpTo(names, areas, x, upTo)[names[i]] == MixEntry(x[i], areas[i])
  {
    if i < upTo - 1 {
      MixLastWins(names, areas, x, upTo - 1, i);
    }
  }

  /** With distinct names, every lot above the threshold appears with its own
      weight and area, and nothing else appears. */
  lemma MixWithDistinctNames(names: seq<string>, areas: seq<string>, x: seq<real>)
    requires |names| == |areas| == |x|
    requires forall i, j :: 0 <= i < j < |names| ==> names[i] != names[j]
    ensures forall i :: 0 <= i < |x| && x[i] > NEGLIGIBLE ==>
              names[i] in MixUpTo(names, areas, x, |x|) && MixUpTo(names, areas, x, |x|)[names[i]] == MixEntry(x[i], areas[i])
    ensures forall i :: 0 <= i < |x| && x[i] <= NEGLIGIBLE ==> names[i] !in MixUpTo(names, areas, x, |x|)
  {
    forall i | 0 <= i < |x|
      ensures x[i] > NEGLIGIBLE ==>
                names[i] in MixUpTo(names, areas, x, |x|) && MixUpTo(names, areas, x, |x|)[names[i]] == MixEntry(x[i], areas[i])
      ensures x[i] <= NEGLIGIBLE ==> names[i] !in MixUpTo(names, areas, x, |x|)
    {
      assert forall j :: 0 <= j < |x| && j != i ==> names[j] != names[i];
      if x[i] > NEGLIGIBLE {
        MixLastWins(names, areas, x, |x|, i);
      } else {
        MixOmits(names, areas, x, |x|, names[i]);
      }
    }
  }
}
