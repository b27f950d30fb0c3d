/**
 * Table construction for the printers: the columns whose (possibly option-dependent)
 * field name is not omitted are kept in their order, and each data item becomes a
 * row holding one cell per kept column.
 */
module Tables {
  import opened Wrappers

  datatype PrintOpts = PrintOpts(verbose: bool, omitFields: seq<string>)

  /** A column as the printer sees it. */
  datatype ColumnDefinition = ColumnDefinition(fieldNameFunc: Option<PrintOpts -> string>, fieldName: string, trimSize: int)

  /** A column together with how to render an item's cell. */
  datatype ColumnDefinitionFull<!T> = ColumnDefinitionFull(
    fieldValueFunc: (T, PrintOpts) -> string,
    fieldNameFunc: Option<PrintOpts -> string>,
    fieldName: string,
    trimSize: int)
  {
    function ToColumnDefinition(): (c: ColumnDefinition)
      ensures c.fieldName == fieldName && c.trimSize == trimSize && c.fieldNameFunc == fieldNameFunc
    {
      ColumnDefinition(fieldNameFunc, fieldName, trimSize)
    }
  }

  datatype Table = Table(columnDefs: seq<ColumnDefinition>, rows: seq<seq<string>>)

  /** The name a column goes by under `opts`: its name function's result when it has one. */
  function ResolvedName<T>(c: ColumnDefinitionFull<T>, opts: PrintOpts): string {
    match c.fieldNameFunc
    case Some(f) => f(opts)
    case None => c.fieldName
  }

  predicate Kept<T>(c: ColumnDefinitionFull<T>, opts: PrintOpts) {
    ResolvedName(c, opts) !in opts.omitFields
  }

  /** The positions, from `from` on, of the columns that are kept, in increasing order. */
  function KeptIndices<T>(cols: seq<ColumnDefinitionFull<T>>, opts: PrintOpts, from: nat): (r: seq<nat>)
    requires from <= |cols|
    ensures forall j :: 0 <= j < |r| ==> from <= r[j] < |cols| && Kept(cols[r[j]], opts)
    ensures forall j, k :: 0 <= j < k < |r| ==> r[j] < r[k]
    ensures forall i :: from <= i < |cols| && Kept(cols[i], opts) ==> i in r
    decreases |cols| - from
  {
    if from == |cols| then []
    else if Kept(cols[from], opts) then [from] + KeptIndices(cols, opts, from + 1)
    else KeptIndices(cols, opts, from + 1)
  }

  /** lo.Filter over the columns: the j-th kept column is the j-th column whose resolved name is
      not omitted (with KeptIndices: exactly those columns, each once, in their original order). */
  function KeptColumns<T>(cols: seq<ColumnDefinitionFull<T>>, opts: PrintOpts): (kept: seq<ColumnDefinitionFull<T>>)
    ensures |kept| == |KeptIndices(cols, opts, 0)|
    ensures forall j :: 0 <= j < |kept| ==> kept[j] == cols[KeptIndices(cols, opts, 0)[j]]
  {
    var idx := KeptIndices(cols, opts, 0);
    seq(|idx|, j requires 0 <= j < |idx| => cols[idx[j]])
  }

  /** ColumnDefs2Table: the kept columns' definitions, and one row per item with one cell per kept column. */
  method ColumnDefs2Table<T>(cols: seq<ColumnDefinitionFull<T>>, data: seq<T>, opts: PrintOpts) returns (t: Table)
    ensures var kept := KeptColumns(cols, opts);
      |t.columnDefs| == |kept| &&
      (forall j :: 0 <= j < |kept| ==> t.columnDefs[j] == kept[j].ToColumnDefinition()) &&
      |t.rows| == |data| &&
      (forall i :: 0 <= i < |data| ==> |t.rows[i]| == |kept|) &&
      (forall i, j :: 0 <= i < |data| && 0 <= j < |kept| ==> t.rows[i][j] == kept[j].fieldValueFunc(data[i], opts))
  {
    var kept := KeptColumns(cols, opts);
    var defs := seq(|kept|, j requires 0 <= j < |kept| => kept[j].ToColumnDefinition());
    var rows: seq<seq<string>> := [];
    var i := 0;
    while i < |data|
      invariant 0 <= i <= |data|
      invariant |rows| == i
      invariant forall a :: 0 <= a < i ==> |rows[a]| == |kept|
      invariant forall a, j :: 0 <= a < i && 0 <= j < |kept| ==> rows[a][j] == kept[j].fieldValueFunc(data[a], opts)
    {
      var row: seq<string> := [];
      var j := 0;
      while j < |kept|
        invariant 0 <= j <= |kept|
        invariant |row| == j
        invariant forall b :: 0 <= b < j ==> row[b] == kept[b].fieldValueFunc(data[i], opts)
      {
        row := row + [kept[j].fieldValueFunc(data[i], opts)];
        j := j + 1;
      }
      rows := rows + [row];
      i := i + 1;
    }
    t := Table(defs, rows);
  }
}
