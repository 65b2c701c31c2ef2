/** The column layout of a scrap-lot row and of a product standard
    (waste.py, WASTE_FIELDS and ELEMENT_FIELDS). */
module Layout {

  /** One catalogue row: every column rendered as text, as the loader stores it. */
  type Row = seq<string>

  /** The column headers of a catalogue row. */
  const WASTE_FIELDS: seq<string> := [
    "名称", "区域", "Si(%)", "Fe(%)", "Cu(%)", "Mn(%)", "Mg(%)", "Zn(%)", "Ti(%)", "Cr(%)", "Ni(%)",
    "Zr(%)", "Sr(%)", "Bi(%)", "Na(%)", "Al(%)", "重量(kg)", "单价(元/kg)"
  ]

  /** The fourteen tracked elements, in column order. */
  const ELEMENT_FIELDS: seq<string> := ["Si", "Fe", "Cu", "Mn", "Mg", "Zn", "Ti", "Cr", "Ni", "Zr", "Sr", "Bi", "Na", "Al"]

  const ELEMENT_COUNT: nat := 14
  const NAME_COLUMN: nat := 0
  const AREA_COLUMN: nat := 1
  /** Column of the first element percentage; element k sits at FIRST_ELEMENT_COLUMN + k. */
  const FIRST_ELEMENT_COLUMN: nat := 2
  const WEIGHT_COLUMN: nat := 16
  const PRICE_COLUMN: nat := 17

  /** The area-filter sentinel that selects every lot. */
  const ALL_AREAS: string := "全部区域"

  /** A target percentage window for one element. */
  datatype Range = Range(min: real, max: real)

  /** A product standard: a name and the windows of the elements it constrains. */
  datatype Standard = Standard(name: string, ranges: map<string, Range>)

  /** The element columns sit between the area and the weight, in the order of
      ELEMENT_FIELDS, each headed by its element symbol followed by "(%)";
      weight and price close the row. */
  lemma ColumnLayout()
    ensures |ELEMENT_FIELDS| == ELEMENT_COUNT
    ensures |WASTE_FIELDS| == PRICE_COLUMN + 1
    ensures FIRST_ELEMENT_COLUMN + ELEMENT_COUNT == WEIGHT_COLUMN
    ensures forall k :: 0 <= k < ELEMENT_COUNT ==>
              WASTE_FIELDS[FIRST_ELEMENT_COLUMN + k] == ELEMENT_FIELDS[k] + "(%)"
    ensures WASTE_FIELDS[NAME_COLUMN] == "名称" && WASTE_FIELDS[AREA_COLUMN] == "区域"
    ensures WASTE_FIELDS[WEIGHT_COLUMN] == "重量(kg)" && WASTE_FIELDS[PRICE_COLUMN] == "单价(元/kg)"
  {
  }

  /** No element symbol is listed twice, so a symbol names exactly one column. */
  lemma ElementFieldsDistinct()
    ensures forall i, j :: 0 <= i < j < |ELEMENT_FIELDS| ==> ELEMENT_FIELDS[i] != ELEMENT_FIELDS[j]
  {
  }
}
