/** Area handling of the blend optimiser: the filter applied before the
    optimisation (waste.py, optimize_mix) and the list offered by the area
    selector (waste.py, update_area_combo). */
module Areas {
  import opened Wrappers
  import opened Layout
  import opened StringOrder

  /** Every row has an area column. */
  predicate AllHaveArea(rows: seq<Row>)
  {
    forall i :: 0 <= i < |rows| ==> |rows[i]| > AREA_COLUMN
  }

  /** The rows whose area column equals `area`, in catalogue order. */
  function Matching(rows: seq<Row>, area: string): (r: seq<Row>)
    requires AllHaveArea(rows)
    ensures |r| <= |rows|
    ensures forall row :: row in r ==> row in rows && row[AREA_COLUMN] == area
    ensures forall row :: row in rows && row[AREA_COLUMN] == area ==> row in r
  {
    if rows == [] then []
    else (if rows[0][AREA_COLUMN] == area then [rows[0]] else []) + Matching(rows[1..], area)
  }

  /** Filtering keeps the catalogue order: it distributes over concatenation. */
  lemma {:induction false} MatchingConcat(a: seq<Row>, b: seq<Row>, area: string)
    requires AllHaveArea(a) && AllHaveArea(b)
    ensures AllHaveArea(a + b)
    ensures Matching(a + b, area) == Matching(a, area) + Matching(b, area)
    decreases |a|
  {
    if a != [] {
      assert (a + b)[1..] == a[1..] + b;
      MatchingConcat(a[1..], b, area);
    } else {
      assert a + b == b;
    }
  }

  /** When every row lies in the chosen area, nothing is dropped. */
  lemma {:induction false} MatchingKeepsAll(rows: seq<Row>, area: string)
    requires AllHaveArea(rows)
    requires forall i :: 0 <= i < |rows| ==> rows[i][AREA_COLUMN] == area
    ensures Matching(rows, area) == rows
    decreases |rows|
  {
    if rows != [] {
      MatchingKeepsAll(rows[1..], area);
    }
  }

  /** The area filter of optimize_mix. The sentinel keeps the whole catalogue;
      any other area keeps the rows of that area, and a row too short to have an
      area column raises an indexing error (None). */
  function FilterByArea(catalogue: seq<Row>, area: string): (r: Option<seq<Row>>)
    ensures area == ALL_AREAS ==> r == Some(catalogue)
    ensures area != ALL_AREAS ==> (r.None? <==> !AllHaveArea(catalogue))
    ensures area != ALL_AREAS && r.Some? ==>
              forall row :: row in r.value <==> row in catalogue && row[AREA_COLUMN] == area
  {
    if area == ALL_AREAS then Some(catalogue)
    else if !AllHaveArea(catalogue) then None
    else Some(Matching(catalogue, area))
  }

  /** The distinct areas named by the rows that have an area column. */
  function AreasOf(rows: seq<Row>): set<string>
  {
    set i | 0 <= i < |rows| && |rows[i]| > AREA_COLUMN :: rows[i][AREA_COLUMN]
  }

  /** update_area_combo: the sentinel first, then every distinct area of the
      catalogue exactly once, in Python's string order. */
  method AreaOptions(catalogue: seq<Row>) returns (items: seq<string>)
    ensures |items| >= 1 && items[0] == ALL_AREAS
    ensures StrictlySorted(items[1..])
    ensures forall a :: a in items[1..] <==> a in AreasOf(catalogue)
    ensures |items| == 1 + |AreasOf(catalogue)|
  {
    items := [ALL_AREAS];
    var areas: set<string> := {};
    var i := 0;
    while i < |catalogue|
      invariant 0 <= i <= |catalogue|
      invariant areas == AreasOf(catalogue[..i])
    {
      if |catalogue[i]| > AREA_COLUMN {
        areas := areas + {catalogue[i][AREA_COLUMN]};
      }
      assert catalogue[..i + 1][..i] == catalogue[..i];
      i := i + 1;
    }
    assert catalogue[..i] == catalogue;
    var sorted := SortSet(areas);
    items := items + sorted;
    assert items[1..] == sorted;
  }

  /** Every area the selector lists (besides the sentinel) selects at least one
      lot, provided every row carries an area column, as loaded rows do. */
  lemma ListedAreaSelectsLots(catalogue: seq<Row>, area: string)
    requires AllHaveArea(catalogue)
    requires area in AreasOf(catalogue)
    ensures FilterByArea(catalogue, area).Some?
    ensures |FilterByArea(catalogue, area).value| > 0
  {
    var i :| 0 <= i < |catalogue| && |catalogue[i]| > AREA_COLUMN && catalogue[i][AREA_COLUMN] == area;
    assert catalogue[i] in catalogue;
  }
}
