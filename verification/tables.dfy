/** The rows of an output file and the two table operations applied to
    them before saving: `sort_values` over the configured column order
    and `dropna`.
 */
module Tables {

  import opened Results
  import opened Strings
  import opened Sorting

  /** One output row: the indicator, its value and description, and the
      country metadata without the filename. */
  datatype Row = Row(indicatorName: string, value: Option<real>, description: string,
                     code: string, level: int, name: Option<string>)

  /** The columns of a row, for the configured sort order. */
  datatype Column = IndicatorName | IndicatorValue | IndicatorDescription | CtryCode | Level | Name

  /** A cell as pandas sees it: a number, a string, or a missing value. */
  datatype Cell = Missing | Number(x: real) | Text(s: string)

  function CellOf(row: Row, c: Column): Cell
  {
    match c
    case IndicatorName => Text(row.indicatorName)
    case IndicatorValue => if row.value.Some? then Number(row.value.value) else Missing
    case IndicatorDescription => Text(row.description)
    case CtryCode => Text(row.code)
    case Level => Number(row.level as real)
    case Name => if row.name.Some? then Text(row.name.value) else Missing
  }

  /** Ascending order of cells with missing values placed last, as
      `sort_values` does by default. A column never mixes numbers and
      strings; numbers are put first only to make the order total. */
  function CellCmp(a: Cell, b: Cell): (c: int)
    ensures -1 <= c <= 1
    ensures c == 0 <==> a == b
  {
    match (a, b)
    case (Missing, Missing) => 0
    case (Missing, _) => 1
    case (_, Missing) => -1
    case (Number(x), Number(y)) => if x < y then -1 else if x == y then 0 else 1
    case (Number(_), Text(_)) => -1
    case (Text(_), Number(_)) => 1
    case (Text(s), Text(t)) => StrCmp(s, t)
  }

  lemma CellCmpAntisymmetric(a: Cell, b: Cell)
    ensures CellCmp(a, b) == -CellCmp(b, a)
  {
    if a.Text? && b.Text? {
      StrCmpAntisymmetric(a.s, b.s);
    }
  }

  lemma CellCmpTransitive(a: Cell, b: Cell, c: Cell)
    requires CellCmp(a, b) <= 0 && CellCmp(b, c) <= 0
    ensures CellCmp(a, c) <= 0
  {
    if a.Text? && b.Text? && c.Text? {
      StrCmpTransitive(a.s, b.s, c.s);
    }
  }

  /** Lexicographic comparison over the columns of `order`. */
  function LexCmp(order: seq<Column>, a: Row, b: Row): (c: int)
    ensures -1 <= c <= 1
  {
    if |order| == 0 then 0
    else
      var c := CellCmp(CellOf(a, order[0]), CellOf(b, order[0]));
      if c != 0 then c else LexCmp(order[1..], a, b)
  }

  lemma {:induction false} LexCmpAntisymmetric(order: seq<Column>, a: Row, b: Row)
    ensures LexCmp(order, a, b) == -LexCmp(order, b, a)
  {
    if |order| > 0 {
      CellCmpAntisymmetric(CellOf(a, order[0]), CellOf(b, order[0]));
      LexCmpAntisymmetric(order[1..], a, b);
    }
  }

  lemma {:induction false} LexCmpTransitive(order: seq<Column>, a: Row, b: Row, c: Row)
    requires LexCmp(order, a, b) <= 0 && LexCmp(order, b, c) <= 0
    ensures LexCmp(order, a, c) <= 0
  {
    if |order| > 0 {
      var x, y, z := CellOf(a, order[0]), CellOf(b, order[0]), CellOf(c, order[0]);
      CellCmpTransitive(x, y, z);
      if CellCmp(x, y) == 0 && CellCmp(y, z) == 0 {
        LexCmpTransitive(order[1..], a, b, c);
      } else if CellCmp(x, z) == 0 {
        CellCmpAntisymmetric(x, y);
      }
    }
  }

  /** `a` does not sort after `b` in the configured order. */
  function RowLe(order: seq<Column>): (le: (Row, Row) -> bool)
  {
    (a: Row, b: Row) => LexCmp(order, a, b) <= 0
  }

  /** Any configured column order is a total preorder on rows, so sorting
      by it is well defined. */
  lemma RowLeTotalPreorder(order: seq<Column>)
    ensures TotalPreorder(RowLe(order))
  {
    var le := RowLe(order);
    forall a, b
      ensures le(a, b) || le(b, a)
    {
      LexCmpAntisymmetric(order, a, b);
    }
    forall a, b, c | le(a, b) && le(b, c)
      ensures le(a, c)
    {
      LexCmpTransitive(order, a, b, c);
    }
  }

  /** `df.sort_values(by=order)`. */
  function SortRows(order: seq<Column>, rows: seq<Row>): (r: seq<Row>)
    ensures |r| == |rows|
    ensures multiset(r) == multiset(rows)
    ensures SortedBy(RowLe(order), r)
  {
    RowLeTotalPreorder(order);
    SortBySpec(RowLe(order), rows);
    SortBy(RowLe(order), rows)
  }

  /** No missing value in any column. */
  predicate Complete(row: Row)
  {
    row.value.Some? && row.name.Some?
  }

  /** `df.dropna(axis=0)`: the complete rows, in order. */
  function DropNa(rows: seq<Row>): seq<Row>
  {
    Filter(Complete, rows)
  }
}
