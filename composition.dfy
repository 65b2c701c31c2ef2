/** The composition matrix builder of optimize_mix: weights, prices and the
    lot-by-element fraction matrix, read from the text columns of the rows. */
module Composition {
  import opened Wrappers
  import opened Layout

  /** A text-to-number conversion (Python's `float` applied to a column):
      Some(v) on success, None where `float` raises. */
  type Parser = string -> Option<real>

  /** Fraction by weight of element k in a row: the column's percentage over
      100, or 0.0 where the column is missing or does not parse. */
  function Fraction(row: Row, k: nat, parse: Parser): (f: real)
    requires k < ELEMENT_COUNT
    ensures FIRST_ELEMENT_COLUMN + k < |row| && parse(row[FIRST_ELEMENT_COLUMN + k]).Some? ==>
              f * 100.0 == parse(row[FIRST_ELEMENT_COLUMN + k]).value
    ensures FIRST_ELEMENT_COLUMN + k >= |row| || parse(row[FIRST_ELEMENT_COLUMN + k]).None? ==> f == 0.0
  {
    var column := FIRST_ELEMENT_COLUMN + k;
    if column < |row| && parse(row[column]).Some? then parse(row[column]).value / 100.0 else 0.0
  }

  /** A numeric column converted row by row (the weight and price lists);
      None when some row lacks the column or its text does not parse. */
  function ParseColumn(rows: seq<Row>, column: nat, parse: Parser): (r: Option<seq<real>>)
    ensures r.None? <==> exists i :: 0 <= i < |rows| && (|rows[i]| <= column || parse(rows[i][column]).None?)
    ensures r.Some? ==> |r.value| == |rows|
    ensures r.Some? ==> forall i :: 0 <= i < |rows| ==> column < |rows[i]|
    ensures r.Some? ==> forall i :: 0 <= i < |rows| ==> parse(rows[i][column]) == Some(r.value[i])
  {
    if rows == [] then Some([])
    else if |rows[0]| <= column || parse(rows[0][column]).None? then None
    else
      match ParseColumn(rows[1..], column, parse)
      case None =>
        assert forall i :: 0 < i < |rows| ==> rows[i] == rows[1..][i - 1];
        None
      case Some(tail) =>
        assert forall i :: 0 < i < |rows| ==> rows[i] == rows[1..][i - 1];
        Some([parse(rows[0][column]).value] + tail)
  }

  /** A matrix with one row per lot and one column per element. */
  predicate IsFractionMatrix(m: seq<seq<real>>, n: nat)
  {
    |m| == n && forall i :: 0 <= i < |m| ==> |m[i]| == ELEMENT_COUNT
  }

  /** The fraction matrix of a list of lots, entry by entry. */
  function FractionMatrix(rows: seq<Row>, parse: Parser): (m: seq<seq<real>>)
    ensures IsFractionMatrix(m, |rows|)
  {
    seq(|rows|, i requires 0 <= i < |rows| => seq(ELEMENT_COUNT, k requires 0 <= k < ELEMENT_COUNT => Fraction(rows[i], k, parse)))
  }

  /** The element matrix of optimize_mix: row i, column k holds element k's
      fraction in lot i, with the 0.0 fallback for text that does not parse. */
  method BuildElementMatrix(rows: seq<Row>, parse: Parser) returns (m: seq<seq<real>>)
    ensures IsFractionMatrix(m, |rows|)
    ensures forall i, k :: 0 <= i < |rows| && 0 <= k < ELEMENT_COUNT ==> m[i][k] == Fraction(rows[i], k, parse)
    ensures m == FractionMatrix(rows, parse)
  {
    m := [];
    var i := 0;
    while i < |rows|
      invariant 0 <= i <= |rows|
      invariant IsFractionMatrix(m, i)
      invariant forall j, k :: 0 <= j < i && 0 <= k < ELEMENT_COUNT ==> m[j][k] == Fraction(rows[j], k, parse)
    {
      var elementRow: seq<real> := [];
      var k := 0;
      while k < ELEMENT_COUNT
        invariant 0 <= k <= ELEMENT_COUNT
        invariant |elementRow| == k
        invariant forall c :: 0 <= c < k ==> elementRow[c] == Fraction(rows[i], c, parse)
      {
        var column := FIRST_ELEMENT_COLUMN + k;
        var value := if column < |rows[i]| then parse(rows[i][column]) else None;
        if value.Some? {
          elementRow := elementRow + [value.value / 100.0];
        } else {
          elementRow := elementRow + [0.0];
        }
        k := k + 1;
      }
      m := m + [elementRow];
      i := i + 1;
    }
    assert forall j :: 0 <= j < |rows| ==> m[j] == FractionMatrix(rows, parse)[j];
  }
}
