/**
 * The class CHTMLTable: `create` resets the three section fields, stores the
 * resolved table specification, and builds the `<thead>`, `<tbody>` and optional
 * `<tfoot>` markup into fields by appending inside loops; `getHTMLTable` puts them
 * together. Each building method is proved to leave in its field the markup the
 * functions of TableMarkup describe.
 */
module HTMLTable {
  import opened Wrappers
  import opened TableModel
  import opened TableMarkup

  /** Appending two strings one after the other appends their concatenation. */
  lemma AppendTwo(s: string, a: string, b: string)
    ensures s + a + b == s + (a + b)
  {
  }

  /** Appending three strings one after the other appends their concatenation. */
  lemma AppendThree(s: string, a: string, b: string, c: string)
    ensures s + a + b + c == s + (a + b + c)
  {
  }

  /** Writing the `<td>` of body column `j` extends the row by exactly that column's cell. */
  lemma BodyCellAppended(rowStart: string, row: Row, cols: seq<Column>, j: nat, colspan: string, value: string)
    requires j < |cols| && !IsTableFooter(cols[j].spec)
    requires colspan == GetColspan(cols[j].spec.colspan)
    requires value == GetValue(row, cols[j].key, cols[j].spec)
    ensures rowStart + TdCells(SpecifiedCells(row, cols[..j])) + ("\n<td" + colspan + ">") + value + "</td>"
      == rowStart + TdCells(SpecifiedCells(row, cols[..j + 1]))
  {
    assert cols[..j + 1] == cols[..j] + [cols[j]];
    var done := SpecifiedCells(row, cols[..j]);
    var cell := BodyCell(row, cols[j]);
    SpecifiedCellsSnoc(row, cols[..j], cols[j]);
    TdCellsSnoc(done, cell);
    AppendThree(rowStart + TdCells(done), "\n<td" + colspan + ">", value, "</td>");
    AppendTwo(rowStart, TdCells(done), TdHtml(cell));
  }

  /** Footer column `j` adds no cell to a body row. */
  lemma FooterColumnSkipped(row: Row, cols: seq<Column>, j: nat)
    requires j < |cols| && IsTableFooter(cols[j].spec)
    ensures SpecifiedCells(row, cols[..j + 1]) == SpecifiedCells(row, cols[..j])
  {
    assert cols[..j + 1] == cols[..j] + [cols[j]];
    SpecifiedCellsSnoc(row, cols[..j], cols[j]);
    assert SpecifiedCells(row, cols[..j]) + [] == SpecifiedCells(row, cols[..j]);
  }

  /** Closing the `<tr>` of row `k` extends the body by exactly that row. */
  lemma SpecifiedRowAppended(start: string, data: seq<Row>, k: nat, cols: seq<Column>)
    requires k < |data|
    ensures start + TrRows(SpecifiedGrid(data[..k], cols)) + "\n<tr>" + TdCells(SpecifiedCells(data[k], cols)) + "\n</tr>"
      == start + TrRows(SpecifiedGrid(data[..k + 1], cols))
  {
    var cells := SpecifiedCells(data[k], cols);
    var grid := SpecifiedGrid(data[..k], cols);
    assert data[..k + 1] == data[..k] + [data[k]];
    SpecifiedGridSnoc(data[..k], data[k], cols);
    TrRowsSnoc(grid, cells);
    AppendThree(start + TrRows(grid), "\n<tr>", TdCells(cells), "\n</tr>");
    AppendTwo(start, TrRows(grid), TrHtml(cells));
  }

  class CHTMLTable {
    var tableSpec: TableSpec
    /** The head markup; PHP resets it to null, which concatenates as "". */
    var tableHead: string
    /** The body markup; PHP resets it to null, which concatenates as "". */
    var tableBody: string
    /** The foot markup, or none (PHP's null) when no column is a footer. */
    var tableFoot: Option<string>

    /** `__construct`: builds the table at once. */
    constructor (tableSpecs: TableSpec, data: seq<Row>, columnSpecs: seq<Column>)
      requires FooterCallbacksCallable(columnSpecs)
      ensures tableSpec == ResolvedTableSpec(tableSpecs)
      ensures tableHead == HeadHtml(data, columnSpecs)
      ensures tableBody == BodyHtml(data, columnSpecs)
      ensures tableFoot == FootHtml(columnSpecs)
    {
      tableSpec := NoTableSpec;
      tableHead, tableBody, tableFoot := "", "", None;
      new;
      Create(tableSpecs, data, columnSpecs);
    }

    /**
     * `create`: the new state depends only on the arguments, never on the table
     * built before.
     */
    method Create(tableSpecs: TableSpec, data: seq<Row>, columnSpecs: seq<Column>)
      requires FooterCallbacksCallable(columnSpecs)
      modifies this
      ensures tableSpec == ResolvedTableSpec(tableSpecs)
      ensures tableHead == HeadHtml(data, columnSpecs)
      ensures tableBody == BodyHtml(data, columnSpecs)
      ensures tableFoot == FootHtml(columnSpecs)
    {
      ResetTableTags();
      SetTableSpecifications(tableSpecs);

      CreateTableHead(data, columnSpecs);
      CreateTableBody(data, columnSpecs);
      CreateTableFooter(columnSpecs);
    }

    /** `resetTableTags`: clears the head, the body and the foot. */
    method ResetTableTags()
      modifies this`tableHead, this`tableBody, this`tableFoot
      ensures tableHead == "" && tableBody == "" && tableFoot == None
    {
      tableHead := "";
      tableBody := "";
      tableFoot := None;
    }

    /** `setTableSpecifications`: drops the id when a class is set, then merges over the defaults. */
    method SetTableSpecifications(tableSpecs: TableSpec)
      modifies this`tableSpec
      ensures tableSpec == ResolvedTableSpec(tableSpecs)
    {
      var spec := tableSpecs;
      if IsClassPresent(spec) {
        spec := RemoveId(spec);
      }
      tableSpec := MergeOverDefaults(spec);
    }

    /** `createTableHead`: the header row, from the data or from the column specifications. */
    method CreateTableHead(data: seq<Row>, columnSpecs: seq<Column>)
      modifies this`tableHead
      ensures tableHead == HeadHtml(data, columnSpecs)
    {
      tableHead := "\n<thead>";
      tableHead := tableHead + "\n<tr>";

      if |columnSpecs| == 0 {
        SetColumnTitlesFromData(data);
      } else {
        SetColumnTitlesFromColumnSpecifications(columnSpecs);
      }

      tableHead := tableHead + "\n</tr>";
      tableHead := tableHead + "\n</thead>";
    }

    /** `setColumnTitlesFromData`: one `<th>` per key of the first row. */
    method SetColumnTitlesFromData(data: seq<Row>)
      modifies this`tableHead
      ensures tableHead == old(tableHead) + ThCells(Keys(FirstRow(data)))
    {
      var firstRow := FirstRow(data);
      for i := 0 to |firstRow|
        invariant tableHead == old(tableHead) + ThCells(Keys(firstRow[..i]))
      {
        var key := firstRow[i].0;
        ghost var done := Keys(firstRow[..i]);
        ghost var prev := tableHead;
        tableHead := tableHead + "\n<th>";
        tableHead := tableHead + key;
        tableHead := tableHead + "</th>";
        AppendThree(prev, "\n<th>", key, "</th>");
        AppendTwo(old(tableHead), ThCells(done), ThHtml(key));
        assert firstRow[..i + 1] == firstRow[..i] + [firstRow[i]];
        KeysSnoc(firstRow[..i], firstRow[i]);
        ThCellsSnoc(done, key);
      }
      assert firstRow[..|firstRow|] == firstRow;
    }

    /** `setColumnTitlesFromColumnSpecifications`: one `<th>` per non-footer column. */
    method SetColumnTitlesFromColumnSpecifications(columnSpecs: seq<Column>)
      modifies this`tableHead
      ensures tableHead == old(tableHead) + ThCells(SpecifiedTitles(columnSpecs))
    {
      for i := 0 to |columnSpecs|
        invariant tableHead == old(tableHead) + ThCells(SpecifiedTitles(columnSpecs[..i]))
      {
        var column := columnSpecs[i];
        ghost var done := SpecifiedTitles(columnSpecs[..i]);
        assert columnSpecs[..i + 1] == columnSpecs[..i] + [column];
        SpecifiedTitlesSnoc(columnSpecs[..i], column);
        if !IsTableFooter(column.spec) {
          var title := GetTitle(column.key, column.spec);
          ghost var prev := tableHead;
          tableHead := tableHead + "\n<th>";
          tableHead := tableHead + title;
          tableHead := tableHead + "</th>";
          AppendThree(prev, "\n<th>", title, "</th>");
          AppendTwo(old(tableHead), ThCells(done), ThHtml(title));
          ThCellsSnoc(done, title);
        } else {
          assert done + [] == done;
        }
      }
      assert columnSpecs[..|columnSpecs|] == columnSpecs;
    }

    /** `createTableBody`: the body rows between `<tbody>` tags. */
    method CreateTableBody(data: seq<Row>, columnSpecs: seq<Column>)
      modifies this`tableBody
      ensures tableBody == BodyHtml(data, columnSpecs)
    {
      tableBody := "\n<tbody>";
      SetTableData(data, columnSpecs);
      tableBody := tableBody + "\n</tbody>";
    }

    /** `setTableData`: the rows as inferred from the data or as specified. */
    method SetTableData(data: seq<Row>, columnSpecs: seq<Column>)
      modifies this`tableBody
      ensures tableBody == old(tableBody) + TrRows(BodyGrid(data, columnSpecs))
    {
      if |columnSpecs| == 0 {
        SetTableDataFromData(data);
      } else {
        SetTableDataAsSpecified(data, columnSpecs);
      }
    }

    /** `setTableDataFromData`: one `<tr>` per row holding one `<td>` per value. */
    method SetTableDataFromData(data: seq<Row>)
      modifies this`tableBody
      ensures tableBody == old(tableBody) + TrRows(InferredGrid(data))
    {
      for k := 0 to |data|
        invariant tableBody == old(tableBody) + TrRows(InferredGrid(data[..k]))
      {
        var row := data[k];
        ghost var before := tableBody;
        tableBody := tableBody + "\n<tr>";
        ghost var rowStart := tableBody;
        for j := 0 to |row|
          invariant tableBody == rowStart + TdCells(InferredCells(row[..j]))
        {
          var value := row[j].1;
          ghost var done := InferredCells(row[..j]);
          ghost var prev := tableBody;
          tableBody := tableBody + "\n<td>";
          tableBody := tableBody + value;
          tableBody := tableBody + "</td>";
          AppendThree(prev, "\n<td>", value, "</td>");
          ColspanAttribute(Cell(None, value));
          AppendTwo(rowStart, TdCells(done), TdHtml(Cell(None, value)));
          assert row[..j + 1] == row[..j] + [row[j]];
          InferredCellsSnoc(row[..j], row[j]);
          TdCellsSnoc(done, Cell(None, value));
        }
        tableBody := tableBody + "\n</tr>";
        assert row[..|row|] == row;
        ghost var cells := InferredCells(row);
        AppendThree(before, "\n<tr>", TdCells(cells), "\n</tr>");
        ghost var grid := InferredGrid(data[..k]);
        AppendTwo(old(tableBody), TrRows(grid), TrHtml(cells));
        assert data[..k + 1] == data[..k] + [row];
        InferredGridSnoc(data[..k], row);
        TrRowsSnoc(grid, cells);
      }
      assert data[..|data|] == data;
    }

    /** `setTableDataAsSpecified`: one `<tr>` per row holding one `<td>` per non-footer column. */
    method SetTableDataAsSpecified(data: seq<Row>, columnSpecs: seq<Column>)
      modifies this`tableBody
      ensures tableBody == old(tableBody) + TrRows(SpecifiedGrid(data, columnSpecs))
    {
      for k := 0 to |data|
        invariant tableBody == old(tableBody) + TrRows(SpecifiedGrid(data[..k], columnSpecs))
      {
        var row := data[k];
        tableBody := tableBody + "\n<tr>";
        ghost var rowStart := tableBody;
        for j := 0 to |columnSpecs|
          invariant tableBody == rowStart + TdCells(SpecifiedCells(row, columnSpecs[..j]))
        {
          var column := columnSpecs[j];
          if !IsTableFooter(column.spec) {
            var colspan := GetColspan(column.spec.colspan);
            var value := GetValue(row, column.key, column.spec);
            tableBody := tableBody + ("\n<td" + colspan + ">");
            tableBody := tableBody + value;
            tableBody := tableBody + "</td>";
            BodyCellAppended(rowStart, row, columnSpecs, j, colspan, value);
          } else {
            FooterColumnSkipped(row, columnSpecs, j);
          }
        }
        tableBody := tableBody + "\n</tr>";
        assert columnSpecs[..|columnSpecs|] == columnSpecs;
        SpecifiedRowAppended(old(tableBody), data, k, columnSpecs);
      }
      assert data[..|data|] == data;
    }

    /**
     * `createTableFooter`: one `<tr>` with one `<td>` per footer column, or no foot at
     * all when no column is a footer.
     */
    method CreateTableFooter(columnSpecs: seq<Column>)
      requires FooterCallbacksCallable(columnSpecs)
      modifies this`tableFoot
      ensures tableFoot == FootHtml(columnSpecs)
    {
      var isFooterDataAdded := false;

      tableFoot := Some("\n<tfoot>");
      tableFoot := Some(tableFoot.value + "\n<tr>");
      ghost var footStart := tableFoot.value;
      assert columnSpecs[..|columnSpecs|] == columnSpecs;
      assert columnSpecs[..0] == [];
      assert FooterCells(columnSpecs[..0]) == [];
      assert footStart + TdCells([]) == footStart;
      for j := 0 to |columnSpecs|
        invariant FooterCallbacksCallable(columnSpecs[..j])
        invariant tableFoot == Some(footStart + TdCells(FooterCells(columnSpecs[..j])))
        invariant isFooterDataAdded <==> |FooterCells(columnSpecs[..j])| > 0
      {
        var column := columnSpecs[j];
        ghost var done := FooterCells(columnSpecs[..j]);
        assert columnSpecs[..j + 1] == columnSpecs[..j] + [column];
        FooterCellsSnoc(columnSpecs[..j], column);
        if IsTableFooter(column.spec) {
          var colspan := GetColspan(column.spec.colspan);
          var value := GetFooterData(column.spec);
          ghost var prev := tableFoot.value;
          tableFoot := Some(tableFoot.value + ("\n<td" + colspan + ">"));
          tableFoot := Some(tableFoot.value + value);
          tableFoot := Some(tableFoot.value + "</td>");
          isFooterDataAdded := true;
          ghost var cell := Cell(column.spec.colspan, value);
          AppendThree(prev, "\n<td" + colspan + ">", value, "</td>");
          AppendTwo(footStart, TdCells(done), TdHtml(cell));
          TdCellsSnoc(done, cell);
        } else {
          assert done + [] == done;
        }
      }

      if isFooterDataAdded {
        tableFoot := Some(tableFoot.value + "\n</tr>");
        tableFoot := Some(tableFoot.value + "\n</tfoot>");
      } else {
        tableFoot := None;
      }
    }

    /** `getHTMLTable`: the table put together from the stored parts. */
    method GetHTMLTable() returns (htmlTable: string)
      ensures htmlTable == Assemble(tableSpec, tableHead, tableBody, tableFoot)
    {
      var id := if tableSpec.id.IsSet() then " id='" + tableSpec.id.s + "'" else "";
      var cssClass := if tableSpec.cssClass.IsSet() then " class='" + tableSpec.cssClass.s + "'" else "";
      var caption := if tableSpec.caption.IsSet() then "<caption>" + tableSpec.caption.s + "</caption>" else "";

      htmlTable := "<table" + id + cssClass + ">";
      htmlTable := htmlTable + caption;
      htmlTable := htmlTable + tableHead;
      htmlTable := htmlTable + tableBody;
      htmlTable := htmlTable + tableFoot.GetOr("");
      htmlTable := htmlTable + "\n</table>";
    }
  }

  /** Constructing a table and asking for its markup gives the rendered table. */
  method RenderTable(tableSpecs: TableSpec, data: seq<Row>, columnSpecs: seq<Column>)
    returns (html: string)
    requires FooterCallbacksCallable(columnSpecs)
    ensures html == Render(tableSpecs, data, columnSpecs)
  {
    var table := new CHTMLTable(tableSpecs, data, columnSpecs);
    html := table.GetHTMLTable();
  }

  /**
   * `create` starts from scratch: after building any other table first, building
   * the same inputs twice gives the same markup both times.
   */
  method CreateIsRepeatable(
    table: CHTMLTable,
    otherSpecs: TableSpec, otherData: seq<Row>, otherColumns: seq<Column>,
    tableSpecs: TableSpec, data: seq<Row>, columnSpecs: seq<Column>)
    returns (first: string, second: string)
    requires FooterCallbacksCallable(otherColumns) && FooterCallbacksCallable(columnSpecs)
    modifies table
    ensures first == second == Render(tableSpecs, data, columnSpecs)
  {
    table.Create(otherSpecs, otherData, otherColumns);
    table.Create(tableSpecs, data, columnSpecs);
    first := table.GetHTMLTable();
    table.Create(tableSpecs, data, columnSpecs);
    second := table.GetHTMLTable();
  }
}
