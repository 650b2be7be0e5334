/**
 * What CHTMLTable builds, as functions of its inputs: the header titles, the body
 * cells and the footer cells, and the markup of the `<thead>`, `<tbody>` and
 * `<tfoot>` sections and of the whole table.
 *
 * With no column specifications the columns are inferred from the data (the keys of
 * the first row, the values of every row); otherwise the non-footer columns drive
 * the header and the body, and the footer columns the footer. The functions that
 * mirror a building loop skip footer or non-footer columns one at a time, from the
 * last column back; `NonFooterColumns` and `FooterColumns` are the plain filters
 * they are proved against.
 */
module TableMarkup {
  import opened Wrappers
  import opened TableModel

  /** One `<td>`: its colspan, if the column sets one, and its content. */
  datatype Cell = Cell(colspan: Option<string>, content: string)

  // ---------------------------------------------------------------------------
  // Reference filters over the column specifications

  /** The non-footer columns, in specification order. */
  function NonFooterColumns(cols: seq<Column>): (r: seq<Column>)
    ensures |r| <= |cols|
    ensures forall i :: 0 <= i < |r| ==> !IsTableFooter(r[i].spec)
  {
    if cols == [] then []
    else (if IsTableFooter(cols[0].spec) then [] else [cols[0]]) + NonFooterColumns(cols[1..])
  }

  /** The footer columns, in specification order; none exactly when no column is a footer. */
  function FooterColumns(cols: seq<Column>): (r: seq<Column>)
    ensures |r| <= |cols|
    ensures forall i :: 0 <= i < |r| ==> IsTableFooter(r[i].spec)
    ensures |r| == 0 <==> forall i :: 0 <= i < |cols| ==> !IsTableFooter(cols[i].spec)
  {
    if cols == [] then []
    else (if IsTableFooter(cols[0].spec) then [cols[0]] else []) + FooterColumns(cols[1..])
  }

  /** The caller may only give footer columns a function `getFooterData` can call. */
  predicate FooterCallbacksCallable(cols: seq<Column>) {
    forall i :: 0 <= i < |cols| && IsTableFooter(cols[i].spec) ==> FooterCallable(cols[i].spec)
  }

  // ---------------------------------------------------------------------------
  // Header

  /** The titles `setColumnTitlesFromColumnSpecifications` writes: one per non-footer column. */
  function SpecifiedTitles(cols: seq<Column>): (titles: seq<string>)
    ensures |titles| <= |cols|
  {
    if cols == [] then []
    else
      var last := cols[|cols| - 1];
      SpecifiedTitles(cols[..|cols| - 1])
        + (if IsTableFooter(last.spec) then [] else [GetTitle(last.key, last.spec)])
  }

  /** The first row of the data, or the empty row when there is none. */
  function FirstRow(data: seq<Row>): Row {
    if |data| > 0 then data[0] else []
  }

  /** The keys of a row, in order. */
  function Keys(row: Row): seq<string> {
    seq(|row|, i requires 0 <= i < |row| => row[i].0)
  }

  /** The header titles in either mode: the first row's keys, or the specified titles. */
  function HeadTitles(data: seq<Row>, cols: seq<Column>): seq<string> {
    if |cols| == 0 then Keys(FirstRow(data)) else SpecifiedTitles(cols)
  }

  /** One `<th>`, on a new line. */
  function ThHtml(title: string): string {
    "\n<th>" + title + "</th>"
  }

  /** One `<th>` per title, in order. */
  function ThCells(titles: seq<string>): string {
    if titles == [] then ""
    else ThCells(titles[..|titles| - 1]) + ThHtml(titles[|titles| - 1])
  }

  /** The `<thead>` section; its wrapper is there even when it has no cells. */
  function HeadHtml(data: seq<Row>, cols: seq<Column>): string {
    "\n<thead>" + "\n<tr>" + ThCells(HeadTitles(data, cols)) + "\n</tr>" + "\n</thead>"
  }

  // ---------------------------------------------------------------------------
  // Body

  /** The cells of one row in inferred mode: every value, verbatim, without colspan. */
  function InferredCells(row: Row): seq<Cell> {
    seq(|row|, i requires 0 <= i < |row| => Cell(None, row[i].1))
  }

  /** The body cell of a non-footer column for one row: its colspan and `getValue`. */
  function BodyCell(row: Row, c: Column): Cell {
    Cell(c.spec.colspan, GetValue(row, c.key, c.spec))
  }

  /** The cells `setTableDataAsSpecified` writes for one row: one per non-footer column. */
  function SpecifiedCells(row: Row, cols: seq<Column>): (cells: seq<Cell>)
    ensures |cells| <= |cols|
  {
    if cols == [] then []
    else
      var last := cols[|cols| - 1];
      SpecifiedCells(row, cols[..|cols| - 1])
        + (if IsTableFooter(last.spec) then [] else [BodyCell(row, last)])
  }

  /** The inferred body: one row of cells per data row, in data order. */
  function InferredGrid(data: seq<Row>): seq<seq<Cell>> {
    seq(|data|, k requires 0 <= k < |data| => InferredCells(data[k]))
  }

  /** The specified body: one row of cells per data row, in data order. */
  function SpecifiedGrid(data: seq<Row>, cols: seq<Column>): seq<seq<Cell>> {
    seq(|data|, k requires 0 <= k < |data| => SpecifiedCells(data[k], cols))
  }

  /** The body grid in either mode. */
  function BodyGrid(data: seq<Row>, cols: seq<Column>): seq<seq<Cell>> {
    if |cols| == 0 then InferredGrid(data) else SpecifiedGrid(data, cols)
  }

  /** One `<td>`, with the colspan attribute only when the column sets one. */
  function TdHtml(c: Cell): string {
    "\n<td" + GetColspan(c.colspan) + ">" + c.content + "</td>"
  }

  /** The `<td>` elements of a row of cells, in order. */
  function TdCells(cells: seq<Cell>): string {
    if cells == [] then ""
    else TdCells(cells[..|cells| - 1]) + TdHtml(cells[|cells| - 1])
  }

  /** One `<tr>` holding the given cells. */
  function TrHtml(cells: seq<Cell>): string {
    "\n<tr>" + TdCells(cells) + "\n</tr>"
  }

  /** One `<tr>` per row of the grid, in order. */
  function TrRows(grid: seq<seq<Cell>>): string {
    if grid == [] then ""
    else TrRows(grid[..|grid| - 1]) + TrHtml(grid[|grid| - 1])
  }

  /** The `<tbody>` section. */
  function BodyHtml(data: seq<Row>, cols: seq<Column>): string {
    "\n<tbody>" + TrRows(BodyGrid(data, cols)) + "\n</tbody>"
  }

  // ---------------------------------------------------------------------------
  // Footer

  /** The footer cell of a footer column: its colspan and `getFooterData`. */
  function FooterCell(c: Column): Cell
    requires FooterCallable(c.spec)
  {
    Cell(c.spec.colspan, GetFooterData(c.spec))
  }

  /** The cells `createTableFooter` writes: one per footer column. */
  function FooterCells(cols: seq<Column>): (cells: seq<Cell>)
    requires FooterCallbacksCallable(cols)
    ensures |cells| <= |cols|
  {
    if cols == [] then []
    else
      var last := cols[|cols| - 1];
      FooterCells(cols[..|cols| - 1])
        + (if IsTableFooter(last.spec) then [FooterCell(last)] else [])
  }

  /** The `<tfoot>` section, or none when no footer cell was written. */
  function FootHtml(cols: seq<Column>): Option<string>
    requires FooterCallbacksCallable(cols)
  {
    var cells := FooterCells(cols);
    if |cells| == 0 then None
    else Some("\n<tfoot>" + "\n<tr>" + TdCells(cells) + "\n</tr>" + "\n</tfoot>")
  }

  // ---------------------------------------------------------------------------
  // The whole table

  /** `getHTMLTable`: opening tag, caption, head, body, foot if any, closing tag. */
  function Assemble(spec: TableSpec, head: string, body: string, foot: Option<string>): string {
    OpeningTag(spec) + CaptionHtml(spec) + head + body + foot.GetOr("") + "\n</table>"
  }

  /** The table `create` followed by `getHTMLTable` produces. */
  function Render(t: TableSpec, data: seq<Row>, cols: seq<Column>): string
    requires FooterCallbacksCallable(cols)
  {
    Assemble(ResolvedTableSpec(t), HeadHtml(data, cols), BodyHtml(data, cols), FootHtml(cols))
  }

  // ---------------------------------------------------------------------------
  // One more column, cell or row: how the building functions grow

  lemma ThCellsSnoc(titles: seq<string>, t: string)
    ensures ThCells(titles + [t]) == ThCells(titles) + ThHtml(t)
  {
    assert (titles + [t])[..|titles|] == titles;
  }

  lemma TdCellsSnoc(cells: seq<Cell>, c: Cell)
    ensures TdCells(cells + [c]) == TdCells(cells) + TdHtml(c)
  {
    assert (cells + [c])[..|cells|] == cells;
  }

  lemma TrRowsSnoc(grid: seq<seq<Cell>>, cells: seq<Cell>)
    ensures TrRows(grid + [cells]) == TrRows(grid) + TrHtml(cells)
  {
    assert (grid + [cells])[..|grid|] == grid;
  }

  lemma KeysSnoc(row: Row, e: (string, string))
    ensures Keys(row + [e]) == Keys(row) + [e.0]
  {
  }

  lemma InferredCellsSnoc(row: Row, e: (string, string))
    ensures InferredCells(row + [e]) == InferredCells(row) + [Cell(None, e.1)]
  {
  }

  lemma InferredGridSnoc(data: seq<Row>, row: Row)
    ensures InferredGrid(data + [row]) == InferredGrid(data) + [InferredCells(row)]
  {
  }

  lemma SpecifiedGridSnoc(data: seq<Row>, row: Row, cols: seq<Column>)
    ensures SpecifiedGrid(data + [row], cols) == SpecifiedGrid(data, cols) + [SpecifiedCells(row, cols)]
  {
  }

  lemma SpecifiedTitlesSnoc(cols: seq<Column>, c: Column)
    ensures SpecifiedTitles(cols + [c])
      == SpecifiedTitles(cols) + (if IsTableFooter(c.spec) then [] else [GetTitle(c.key, c.spec)])
  {
    assert (cols + [c])[..|cols|] == cols;
  }

  lemma SpecifiedCellsSnoc(row: Row, cols: seq<Column>, c: Column)
    ensures SpecifiedCells(row, cols + [c]) == SpecifiedCells(row, cols)
      + (if IsTableFooter(c.spec) then [] else [BodyCell(row, c)])
  {
    assert (cols + [c])[..|cols|] == cols;
  }

  lemma FooterCellsSnoc(cols: seq<Column>, c: Column)
    requires FooterCallbacksCallable(cols + [c])
    ensures IsTableFooter(c.spec) ==> FooterCallable(c.spec)
    ensures FooterCallbacksCallable(cols)
    ensures FooterCells(cols + [c]) == FooterCells(cols)
      + (if IsTableFooter(c.spec) then [FooterCell(c)] else [])
  {
    assert (cols + [c])[..|cols|] == cols;
    assert (cols + [c])[|cols|] == c;
    forall i | 0 <= i < |cols| && IsTableFooter(cols[i].spec)
      ensures FooterCallable(cols[i].spec)
    {
      assert (cols + [c])[i] == cols[i];
    }
  }

  // ---------------------------------------------------------------------------
  // Lemmas

  /** Filtering out footers distributes over concatenation, so it keeps the order. */
  lemma {:induction false} NonFooterColumnsAppend(a: seq<Column>, b: seq<Column>)
    ensures NonFooterColumns(a + b) == NonFooterColumns(a) + NonFooterColumns(b)
  {
    if a == [] {
      assert a + b == b;
    } else {
      assert (a + b)[1..] == a[1..] + b;
      NonFooterColumnsAppend(a[1..], b);
    }
  }

  /** Keeping only footers distributes over concatenation, so it keeps the order. */
  lemma {:induction false} FooterColumnsAppend(a: seq<Column>, b: seq<Column>)
    ensures FooterColumns(a + b) == FooterColumns(a) + FooterColumns(b)
  {
    if a == [] {
      assert a + b == b;
    } else {
      assert (a + b)[1..] == a[1..] + b;
      FooterColumnsAppend(a[1..], b);
    }
  }

  /** Every column is either a footer column or a non-footer column. */
  lemma {:induction false} ColumnsPartition(cols: seq<Column>)
    ensures |NonFooterColumns(cols)| + |FooterColumns(cols)| == |cols|
  {
    if cols != [] {
      ColumnsPartition(cols[1..]);
    }
  }

  /**
   * The specified header has one title per non-footer column, in specification
   * order: the column's title if set, else its key.
   */
  lemma {:induction false} HeaderFollowsColumns(cols: seq<Column>)
    ensures |SpecifiedTitles(cols)| == |NonFooterColumns(cols)|
    ensures forall i :: 0 <= i < |NonFooterColumns(cols)| ==>
      SpecifiedTitles(cols)[i] == GetTitle(NonFooterColumns(cols)[i].key, NonFooterColumns(cols)[i].spec)
  {
    if cols != [] {
      var init, last := cols[..|cols| - 1], cols[|cols| - 1];
      assert cols == init + [last];
      HeaderFollowsColumns(init);
      NonFooterColumnsAppend(init, [last]);
      assert NonFooterColumns([last]) == (if IsTableFooter(last.spec) then [] else [last]);
    }
  }

  /**
   * In specified mode a body row has one cell per non-footer column, in
   * specification order; each carries the column's colspan and the value `getValue`
   * gives for the row.
   */
  lemma {:induction false} BodyRowFollowsColumns(row: Row, cols: seq<Column>)
    ensures |SpecifiedCells(row, cols)| == |NonFooterColumns(cols)|
    ensures forall i :: 0 <= i < |NonFooterColumns(cols)| ==>
      var c := NonFooterColumns(cols)[i];
      SpecifiedCells(row, cols)[i] == Cell(c.spec.colspan, GetValue(row, c.key, c.spec))
  {
    if cols != [] {
      var init, last := cols[..|cols| - 1], cols[|cols| - 1];
      assert cols == init + [last];
      BodyRowFollowsColumns(row, init);
      NonFooterColumnsAppend(init, [last]);
      assert NonFooterColumns([last]) == (if IsTableFooter(last.spec) then [] else [last]);
    }
  }

  /**
   * The footer has one cell per footer column, in specification order; each carries
   * the column's colspan and the value `getFooterData` gives.
   */
  lemma {:induction false} FooterFollowsColumns(cols: seq<Column>)
    requires FooterCallbacksCallable(cols)
    ensures |FooterCells(cols)| == |FooterColumns(cols)|
    ensures forall i :: 0 <= i < |FooterColumns(cols)| ==>
      var c := FooterColumns(cols)[i];
      FooterCallable(c.spec) && FooterCells(cols)[i] == Cell(c.spec.colspan, GetFooterData(c.spec))
  {
    if cols != [] {
      var init, last := cols[..|cols| - 1], cols[|cols| - 1];
      assert cols == init + [last];
      FooterFollowsColumns(init);
      FooterColumnsAppend(init, [last]);
      assert FooterColumns([last]) == (if IsTableFooter(last.spec) then [last] else []);
    }
  }

  /**
   * In specified mode every body row has as many cells as the header has titles,
   * and each title sits above the cell of the same column.
   */
  lemma SpecifiedRowsMatchHeader(data: seq<Row>, cols: seq<Column>, k: nat)
    requires |cols| > 0 && k < |data|
    ensures |BodyGrid(data, cols)| == |data|
    ensures |BodyGrid(data, cols)[k]| == |HeadTitles(data, cols)| == |NonFooterColumns(cols)|
    ensures forall i :: 0 <= i < |HeadTitles(data, cols)| ==>
      var c := NonFooterColumns(cols)[i];
      HeadTitles(data, cols)[i] == GetTitle(c.key, c.spec)
      && BodyGrid(data, cols)[k][i] == Cell(c.spec.colspan, GetValue(data[k], c.key, c.spec))
  {
    HeaderFollowsColumns(cols);
    BodyRowFollowsColumns(data[k], cols);
  }

  /** There is no `<tfoot>` exactly when no column is a footer column. */
  lemma FootAbsentIff(cols: seq<Column>)
    requires FooterCallbacksCallable(cols)
    ensures FootHtml(cols).None? <==> forall i :: 0 <= i < |cols| ==> !IsTableFooter(cols[i].spec)
  {
    FooterFollowsColumns(cols);
  }

  /**
   * With no column specifications the header is the first row's keys (none without
   * rows), every body row is that row's values verbatim, and there is no footer.
   */
  lemma InferredMode(data: seq<Row>)
    ensures |data| == 0 ==> HeadTitles(data, []) == []
    ensures |data| > 0 ==> |HeadTitles(data, [])| == |data[0]|
    ensures |data| > 0 ==> forall i :: 0 <= i < |data[0]| ==> HeadTitles(data, [])[i] == data[0][i].0
    ensures |BodyGrid(data, [])| == |data|
    ensures forall k :: 0 <= k < |data| ==> |BodyGrid(data, [])[k]| == |data[k]|
    ensures forall k, i :: 0 <= k < |data| && 0 <= i < |data[k]| ==>
      BodyGrid(data, [])[k][i] == Cell(None, data[k][i].1)
    ensures FootHtml([]) == None
  {
  }

  /** A cell carries exactly ` colspan='v'` when its colspan is set, and no attribute otherwise. */
  lemma ColspanAttribute(c: Cell)
    ensures c.colspan.Some? ==> TdHtml(c) == "\n<td colspan='" + c.colspan.value + "'>" + c.content + "</td>"
    ensures c.colspan.None? ==> TdHtml(c) == "\n<td>" + c.content + "</td>"
  {
  }

  /**
   * The table is the opening tag, the caption only if one is set, the head, the
   * body, the foot only if there is one, and the closing tag; without footer
   * columns the closing tag follows the body directly.
   */
  lemma RenderLayout(t: TableSpec, data: seq<Row>, cols: seq<Column>)
    requires FooterCallbacksCallable(cols)
    ensures Render(t, data, cols) ==
      OpeningTag(ResolvedTableSpec(t))
      + (if t.caption.IsSet() then "<caption>" + t.caption.s + "</caption>" else "")
      + HeadHtml(data, cols) + BodyHtml(data, cols)
      + (if FootHtml(cols).Some? then FootHtml(cols).value else "")
      + "\n</table>"
    ensures (forall i :: 0 <= i < |cols| ==> !IsTableFooter(cols[i].spec)) ==>
      Render(t, data, cols) ==
        OpeningTag(ResolvedTableSpec(t)) + CaptionHtml(t) + HeadHtml(data, cols) + BodyHtml(data, cols) + "\n</table>"
  {
    FootAbsentIff(cols);
  }
}
