# CHTMLTable in Dafny

A model of the PHP class `Guer\HTMLTable\CHTMLTable`, which turns three inputs into
one HTML `<table>` string:

- a table specification with an optional CSS `id`, CSS `class` and `caption`;
- the table data, an ordered list of rows, each an ordered key/value list;
- the column specifications, an ordered key/spec list whose specs may set `title`,
  `type`, `colspan`, `function` and `value`.

`create` clears the three section fields and resolves the table specification, so
that a class always suppresses the id and `html-table` is the default id. It then
builds the `<thead>`, `<tbody>` and optional `<tfoot>` markup into those fields.
`getHTMLTable` joins the opening tag, the caption, the three sections and the
closing tag.

The header and the body work in one of two modes:

- **Inferred mode** (no column specifications): the header is the first row's keys
  and every row is written out value by value.
- **Specified mode**: every column that is not a footer column gives one header
  title and one cell per row. Every footer column gives one cell of the single
  footer row.

The project has four modules:

- `Wrappers` (`wrappers.dfy`): the `Option` type.
- `TableModel` (`table_model.dfy`): the inputs and the pure per-cell helpers of the
  class. These are `isClassPresent` (`IsClassPresent`), `removeId`,
  `isTableFooter` (`IsTableFooter`), `getTitle` (`GetTitle`), `getColspan`
  (`GetColspan`), `getValue`, `isFunctionSpecified` (`IsFunctionSpecified`),
  `getValueThroughFunction` (`GetValueThroughFunction`) and `getFooterData`.
  - The table specification's keys are three-state (`Slot`: absent, null or a
    string). `array_merge` lets an explicit null override a default, while `isset`
    treats it as unset.
  - A column's `function` entry is unset, set to an empty value, a function of the
    cell value, or a function of nothing.
- `TableMarkup` (`table_markup.dfy`): what the class builds, as recursive functions
  of the inputs (`HeadHtml`, `BodyHtml`, `FootHtml`, `Assemble`, `Render`). It also
  holds lemmas relating them to independent column filters (`NonFooterColumns`,
  `FooterColumns`).
- `HTMLTable` (`chtml_table.dfy`): the class `CHTMLTable` with its fields
  `tableSpec`, `tableHead`, `tableBody` and `tableFoot`. Each building method
  appends to its field in the same loops as the PHP code. Each is proved to leave
  exactly the markup the `TableMarkup` functions describe.
- `TestExpectations` (`test_expectations.dfy`): the expected outputs of the PHPUnit
  tests of the class, proved about `Render`. They hold for any three distinct
  column keys and any six cell values, which includes the tests' own rows.

## Model

| member | source | states |
|---|---|---|
| TableModel.RemoveId | src/HTMLTable/CHTMLTable.php:130-134 | the copy has its id set to null and keeps the class and the caption |
| TableModel.MergeOverDefaults | src/HTMLTable/CHTMLTable.php:95-103 | the merged id is `html-table` only when the caller's array has no id key (an explicit null wins over the default); class and caption are the caller's |
| TableModel.ResolvedTableSpec | src/HTMLTable/CHTMLTable.php:92-119 | a set class (`isClassPresent`, `IsClassPresent`) leaves no id set; without a class the id is the caller's (absent becomes `html-table`); class and caption are unchanged |
| TableModel.OpeningTagResolution | src/HTMLTable/CHTMLTable.php:467-473 | the opening tag is `<table class='C'>` when a class is set, else `<table id='X'>` with the caller's id or `html-table`, and `<table>` only for an explicit null id |
| TableModel.Lookup | src/HTMLTable/CHTMLTable.php:361-364 | a found value is stored under the key in the row; nothing is found exactly when no entry has the key |
| TableModel.LookupFindsEntry | src/HTMLTable/CHTMLTable.php:361-364 | with unique keys, the lookup yields `v` if and only if the row holds the entry (key, v) |
| TableModel.GetValue | src/HTMLTable/CHTMLTable.php:358-402 | with `isFunctionSpecified` (`IsFunctionSpecified`) and `getValueThroughFunction` (`GetValueThroughFunction`): a non-empty function receives the row's value (or "" when the key is missing) and its result is the cell; a function entry that is set but empty, or not set at all, leaves that value unchanged |
| TableModel.GetFooterData | src/HTMLTable/CHTMLTable.php:451-458 | a set function is called with no argument; otherwise the cell is the `value` entry, or "" when that is unset |
| TableMarkup.ColumnsPartition | src/HTMLTable/CHTMLTable.php:216-226 | every column is either a footer column or a body column, never both |
| TableMarkup.HeaderFollowsColumns | src/HTMLTable/CHTMLTable.php:195-244 | the specified header has exactly one title per column that is not a footer column (`isTableFooter`, `IsTableFooter`: type exactly "footer"), in column order; each is the column's `title` entry when set, else its key (`getTitle`, `GetTitle`) |
| TableMarkup.BodyRowFollowsColumns | src/HTMLTable/CHTMLTable.php:317-331 | a specified body row has exactly one cell per non-footer column, in column order, with that column's colspan and `getValue` for the row |
| TableMarkup.FooterFollowsColumns | src/HTMLTable/CHTMLTable.php:415-437 | the footer row has exactly one cell per footer column, in column order, with that column's colspan and `getFooterData` |
| TableMarkup.SpecifiedRowsMatchHeader | src/HTMLTable/CHTMLTable.php:317-331 | `HeadHtml` and `BodyHtml` in specified mode: one body row per data row, each with as many cells as the header has titles; title i and cell i of every row come from the same non-footer column, the title by `getTitle` and the cell by its colspan and `getValue` |
| TableMarkup.FootAbsentIff | src/HTMLTable/CHTMLTable.php:415-437 | `FootHtml`: there is no `<tfoot>` if and only if no column is a footer column |
| TableMarkup.InferredMode | src/HTMLTable/CHTMLTable.php:148-183 | without column specs the header titles are exactly the first row's keys in order (none without rows); each body row holds that row's values verbatim, without colspan; there is no footer |
| TableMarkup.ColspanAttribute | src/HTMLTable/CHTMLTable.php:341-344 | `getColspan` (`GetColspan`): a `<td>` carries exactly ` colspan='v'` when a colspan is set, and no attribute otherwise |
| TableMarkup.RenderLayout | src/HTMLTable/CHTMLTable.php:467-481 | `Render` and `Assemble`: the table is the opening tag, the caller's caption only when set (`CaptionHtml`), head, body, the foot only when present, and `\n</table>`; without footer columns the closing tag follows the body directly |
| HTMLTable.CHTMLTable.constructor | src/HTMLTable/CHTMLTable.php:38-41 | a new table holds the resolved specification and the head, body and foot markup of its inputs |
| HTMLTable.CHTMLTable.Create | src/HTMLTable/CHTMLTable.php:56-66 | afterwards the four fields are the resolved specification and the head, body and foot of the new inputs, whatever they held before |
| HTMLTable.CHTMLTable.ResetTableTags | src/HTMLTable/CHTMLTable.php:75-80 | head and body are empty and there is no foot |
| HTMLTable.CHTMLTable.SetTableSpecifications | src/HTMLTable/CHTMLTable.php:92-104 | the stored specification is the resolved one |
| HTMLTable.CHTMLTable.CreateTableHead | src/HTMLTable/CHTMLTable.php:148-162 | the head is the `<thead><tr>` wrapper around the inferred or specified titles |
| HTMLTable.CHTMLTable.SetColumnTitlesFromData | src/HTMLTable/CHTMLTable.php:175-183 | appends one `<th>` per key of the first row, in order |
| HTMLTable.CHTMLTable.SetColumnTitlesFromColumnSpecifications | src/HTMLTable/CHTMLTable.php:195-204 | appends one `<th>` per non-footer column, carrying its title |
| HTMLTable.CHTMLTable.CreateTableBody | src/HTMLTable/CHTMLTable.php:256-261 | the body is the `<tbody>` wrapper around the rows |
| HTMLTable.CHTMLTable.SetTableData | src/HTMLTable/CHTMLTable.php:274-281 | appends the inferred rows when there are no column specs, otherwise the specified rows |
| HTMLTable.CHTMLTable.SetTableDataFromData | src/HTMLTable/CHTMLTable.php:292-303 | appends one `<tr>` per row with one `<td>` per value, in order |
| HTMLTable.CHTMLTable.SetTableDataAsSpecified | src/HTMLTable/CHTMLTable.php:317-331 | appends one `<tr>` per row with one `<td>` per non-footer column, carrying its colspan and value |
| HTMLTable.CHTMLTable.CreateTableFooter | src/HTMLTable/CHTMLTable.php:415-437 | the foot is the `<tfoot><tr>` wrapper around the footer cells when at least one was written, and absent otherwise |
| HTMLTable.CHTMLTable.GetHTMLTable | src/HTMLTable/CHTMLTable.php:467-481 | the result is the stored parts assembled in order |
| HTMLTable.RenderTable | src/HTMLTable/CHTMLTable.php:38-41 | constructing a table and asking for its markup yields `Render` of the inputs |
| HTMLTable.CreateIsRepeatable | src/HTMLTable/CHTMLTable.php:56-80 | after any earlier table, two `create` calls with the same inputs give the same markup, that of the inputs alone |
| TestExpectations.NotSpecifiedTable | test/HTMLTable/CHTMLTableTest.php:30-40 | no specs give the default id, the key header and the value rows |
| TestExpectations.UnitTestNotSpecifiedTable | test/HTMLTable/CHTMLTableTest.php:9-16 | on the tests' own keys and cell values, the not-specified table is the default header above the default body |
| TestExpectations.TableIdSpecified | test/HTMLTable/CHTMLTableTest.php:47-58 | a given id replaces `html-table` |
| TestExpectations.TableClassSpecified | test/HTMLTable/CHTMLTableTest.php:65-76 | a given class replaces the id |
| TestExpectations.TableCaptionSpecified | test/HTMLTable/CHTMLTableTest.php:83-94 | a caption follows the opening tag |
| TestExpectations.ColumnOneAndThreeSpecified | test/HTMLTable/CHTMLTableTest.php:102-113 | specifying columns 1 and 3 keeps only those columns in header and body |
| TestExpectations.ColumnTitlesSpecified | test/HTMLTable/CHTMLTableTest.php:120-131 | titles replace the keys in the header |
| TestExpectations.FunctionSpecifiedForColumn3 | test/HTMLTable/CHTMLTableTest.php:139-150 | the column-3 function replaces each non-empty value with "Present" |
| TestExpectations.EmptyFunctionSpecifiedForColumn3 | test/HTMLTable/CHTMLTableTest.php:158-169 | an empty function leaves the values as they are |
| TestExpectations.FootersSpecified | test/HTMLTable/CHTMLTableTest.php:177-188 | three value footers give one footer row of three cells after the body |
| TestExpectations.FooterColspanSpecified | test/HTMLTable/CHTMLTableTest.php:196-207 | a function footer with a colspan gives one `<td colspan='v'>` footer cell |

## Left out

- Null entries in a data row are not modelled as such: a null entry is the entry
  `(key, "")`. It behaves the same in both modes. In inferred mode the loops still
  write its key as a title and an empty `<td></td>`, because PHP concatenates null
  as "". In specified mode `getValue` turns an unset value into "".
- PHP's dynamic typing is not modelled. All values, titles and colspans are strings
  (a colspan of `3` is the string "3"); integer-to-string conversion is left out.
- Object rows are not modelled. A row is an ordered key/value list, which is also
  how `foreach` sees an object's public properties in inferred mode; specified mode
  only indexes arrays.
- Data given with non-sequential keys is not modelled: the first row is the first
  element of the list.
- TableMarkup.Render: requires every footer column's `function` to be unset or a
  function of no argument. With an empty value or a function that needs an argument,
  `getFooterData` ends in a PHP runtime error; that error is not modelled. The
  constructor, `Create`, `CreateTableFooter`, `RenderTable` and `CreateIsRepeatable`
  carry the same precondition.
- Callbacks are pure, total functions. Their side effects and exceptions are not
  modelled. A function of no argument in a body column ignores the value PHP passes it.
- PHP's `empty` on strings ("" and "0") appears only in the closure of the function
  test. A column's `function` entry that PHP would consider empty is the `Empty` case.
- There is no HTML escaping in the class, so there is none in the model.
- `create` returning the object itself (for chaining) is not modelled; `Create`
  changes the object in place.
- The constructor's default arguments are not modelled; callers pass all three inputs.
- TestExpectations: the expected strings are proved for any fixture with three
  distinct keys. For the function test, the values must be non-empty in PHP's
  sense, as the tests' values are.
- The example pages under `webroot/` only call the class and echo its output; they
  are not part of this model.
