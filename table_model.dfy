/**
 * The inputs of CHTMLTable and the per-cell helpers that read them.
 *
 * A PHP table specification is an associative array with the keys `id`, `class`
 * and `caption`; a row is an ordered key/value list; a column specification is an
 * ordered key/spec list whose specs may set `title`, `type`, `colspan`, `function`
 * and `value`. Every helper here is an expression over its arguments.
 */
module TableModel {
  import opened Wrappers

  /** The value of `CHTMLTable::FOOTER`, the only recognised column type. */
  const Footer: string := "footer"

  /** The CSS id the table gets when the caller sets neither an id nor a class. */
  const DefaultId: string := "html-table"

  /**
   * One entry of a PHP associative array: the key may be absent, present with
   * the value null, or present with a string. `isset` holds only for `Value`, while
   * `array_merge` lets a present key (even a null one) override the default.
   */
  datatype Slot = Missing | Null | Value(s: string) {
    predicate IsSet() { Value? }
  }

  /** The table specification: the CSS id, the CSS class and the caption. */
  datatype TableSpec = TableSpec(id: Slot, cssClass: Slot, caption: Slot)

  /** The empty table specification `[]`. */
  const NoTableSpec: TableSpec := TableSpec(Missing, Missing, Missing)

  /**
   * The `function` entry of a column specification: not set (or null), set to an
   * empty value such as `""`, a callable taking the cell value (body columns), or a
   * callable taking nothing (footer columns; in the body PHP passes it the cell value,
   * which a closure without parameters ignores).
   */
  datatype Callback = Unset | Empty | Unary(apply: string -> string) | Nullary(call: () -> string)

  /** The settings of one column; every field is optional. */
  datatype ColumnSpec = ColumnSpec(
    title: Option<string>,
    kind: Option<string>,
    colspan: Option<string>,
    callback: Callback,
    value: Option<string>)

  /** The empty column specification `[]`. */
  const NoColumnSpec: ColumnSpec := ColumnSpec(None, None, None, Unset, None)

  /** One entry of the column specifications: the data key it names and its settings. */
  datatype Column = Column(key: string, spec: ColumnSpec)

  /** One row of table data: its entries in their natural order. */
  type Row = seq<(string, string)>

  /** A PHP array never holds a key twice. */
  ghost predicate UniqueKeys(row: Row) {
    forall i, j :: 0 <= i < j < |row| ==> row[i].0 != row[j].0
  }

  // ---------------------------------------------------------------------------
  // Table specification

  /** `isClassPresent`: whether the caller set a CSS class. */
  predicate IsClassPresent(t: TableSpec) {
    t.cssClass.IsSet()
  }

  /** `removeId`: a copy of the specification whose id is set to null. */
  function RemoveId(t: TableSpec): (r: TableSpec)
    ensures r.id == Null
    ensures r.cssClass == t.cssClass && r.caption == t.caption
  {
    t.(id := Null)
  }

  /**
   * `array_merge($defaults, $tableSpec)` with `$defaults = ['id' => 'html-table']`:
   * every key the caller's array holds, even with the value null, wins over the default.
   */
  function MergeOverDefaults(t: TableSpec): (r: TableSpec)
    ensures r.id == (if t.id.Missing? then Value(DefaultId) else t.id)
    ensures r.cssClass == t.cssClass && r.caption == t.caption
  {
    var defaults := TableSpec(Value(DefaultId), Missing, Missing);
    TableSpec(
      if t.id.Missing? then defaults.id else t.id,
      if t.cssClass.Missing? then defaults.cssClass else t.cssClass,
      if t.caption.Missing? then defaults.caption else t.caption)
  }

  /**
   * The table specification `setTableSpecifications` stores: a set class clears the id
   * before the merge, so a class and an id are never both emitted, and the default id
   * is used only when the caller named neither.
   */
  function ResolvedTableSpec(t: TableSpec): (r: TableSpec)
    ensures t.cssClass.IsSet() ==> !r.id.IsSet()
    ensures !t.cssClass.IsSet() && t.id.Missing? ==> r.id == Value(DefaultId)
    ensures !t.cssClass.IsSet() && !t.id.Missing? ==> r.id == t.id
    ensures r.cssClass == t.cssClass && r.caption == t.caption
  {
    MergeOverDefaults(if IsClassPresent(t) then RemoveId(t) else t)
  }

  /** The opening tag `getHTMLTable` writes: `<table`, the id, the class, `>`. */
  function OpeningTag(spec: TableSpec): string {
    var id := if spec.id.IsSet() then " id='" + spec.id.s + "'" else "";
    var cssClass := if spec.cssClass.IsSet() then " class='" + spec.cssClass.s + "'" else "";
    "<table" + id + cssClass + ">"
  }

  /** The caption element, or nothing when no caption is set. */
  function CaptionHtml(spec: TableSpec): string {
    if spec.caption.IsSet() then "<caption>" + spec.caption.s + "</caption>" else ""
  }

  // ---------------------------------------------------------------------------
  // Column specification

  /** `isTableFooter`: the type is set and equals "footer" exactly. */
  predicate IsTableFooter(spec: ColumnSpec) {
    spec.kind.Some? && spec.kind.value == Footer
  }

  /** `getTitle`: the title if set, else the column's key. */
  function GetTitle(key: string, spec: ColumnSpec): string {
    spec.title.GetOr(key)
  }

  /** `getColspan`: the attribute text for a set colspan, else nothing. */
  function GetColspan(colspan: Option<string>): string {
    match colspan
    case Some(v) => " colspan='" + v + "'"
    case None => ""
  }

  /** `isFunctionSpecified`: the `function` entry is set (possibly to an empty value). */
  predicate IsFunctionSpecified(spec: ColumnSpec) {
    !spec.callback.Unset?
  }

  /** PHP's `!empty($columnSpec['function'])`: a callable is there to be called. */
  predicate HasCallable(spec: ColumnSpec) {
    spec.callback.Unary? || spec.callback.Nullary?
  }

  // ---------------------------------------------------------------------------
  // Cell values

  /** `$row[$key]` when it is set. */
  function Lookup(row: Row, key: string): (r: Option<string>)
    ensures r.Some? ==> exists i :: 0 <= i < |row| && row[i] == (key, r.value)
    ensures r.None? <==> forall i :: 0 <= i < |row| ==> row[i].0 != key
  {
    if row == [] then None
    else if row[0].0 == key then Some(row[0].1)
    else Lookup(row[1..], key)
  }

  /** `isset($row[$key]) ? $row[$key] : ""`. */
  function DataValue(row: Row, key: string): string {
    Lookup(row, key).GetOr("")
  }

  /** `getValueThroughFunction`: call a non-empty function on the value, else keep it. */
  function GetValueThroughFunction(spec: ColumnSpec, dataValue: string): string {
    if HasCallable(spec) then
      match spec.callback
      case Unary(f) => f(dataValue)
      case Nullary(g) => g()
    else dataValue
  }

  /**
   * `getValue`: the content of a body cell. The base value is the row's entry at the
   * key, or "" when missing; a non-empty function transforms it, an empty or absent
   * function leaves it unchanged.
   */
  function GetValue(row: Row, key: string, spec: ColumnSpec): (r: string)
    ensures spec.callback.Unary? ==> r == spec.callback.apply(DataValue(row, key))
    ensures spec.callback.Nullary? ==> r == spec.callback.call()
    ensures spec.callback.Unset? || spec.callback.Empty? ==> r == DataValue(row, key)
  {
    if IsFunctionSpecified(spec) then
      var dataValue := DataValue(row, key);
      GetValueThroughFunction(spec, dataValue)
    else
      DataValue(row, key)
  }

  /**
   * What `getFooterData` can evaluate: it calls a set function with no arguments, so
   * an empty function, or one that needs an argument, would be a PHP runtime error.
   */
  predicate FooterCallable(spec: ColumnSpec) {
    spec.callback.Unset? || spec.callback.Nullary?
  }

  /** `getFooterData`: the function's result if one is set, else the value, else "". */
  function GetFooterData(spec: ColumnSpec): (r: string)
    requires FooterCallable(spec)
    ensures spec.callback.Nullary? ==> r == spec.callback.call()
    ensures spec.callback.Unset? && spec.value.None? ==> r == ""
    ensures spec.callback.Unset? && spec.value.Some? ==> r == spec.value.value
  {
    if IsFunctionSpecified(spec) then spec.callback.call()
    else spec.value.GetOr("")
  }

  // ---------------------------------------------------------------------------
  // Lemmas

  /** With unique keys, the lookup finds exactly the value stored under the key. */
  lemma LookupFindsEntry(row: Row, key: string, v: string)
    requires UniqueKeys(row)
    ensures Lookup(row, key) == Some(v) <==> exists i :: 0 <= i < |row| && row[i] == (key, v)
  {
    if r :| 0 <= r < |row| && row[r] == (key, v) {
      var found := Lookup(row, key);
      assert found.Some?;
      var w :| 0 <= w < |row| && row[w] == (key, found.value);
      assert w == r;
    }
  }

  /**
   * The opening tag carries the caller's class alone; without a class it carries the
   * caller's id, or the default id when none was given, and no id at all only when the
   * caller set the id to null explicitly.
   */
  lemma OpeningTagResolution(t: TableSpec)
    ensures t.cssClass.IsSet() ==>
      OpeningTag(ResolvedTableSpec(t)) == "<table class='" + t.cssClass.s + "'>"
    ensures !t.cssClass.IsSet() && t.id != Null ==>
      OpeningTag(ResolvedTableSpec(t)) == "<table id='" + (if t.id.IsSet() then t.id.s else DefaultId) + "'>"
    ensures !t.cssClass.IsSet() && t.id == Null ==>
      OpeningTag(ResolvedTableSpec(t)) == "<table>"
  {
  }
}
