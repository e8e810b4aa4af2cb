/**
 * The Excel export: three sheets written in a fixed order through a writer
 * object, each with one conditional format on its `Diff` column. The writer
 * keeps its sheets as a sequence that its methods extend and update; the
 * bytes of the workbook are not modelled.
 */
module Export {
  import opened Base
  import opened Reconciliation
  import opened Display

  /** `{'type': 'cell', 'criteria': ..., 'value': ..., 'format': {'bg_color': ...}}` over the cell range from (firstRow, firstCol) to (lastRow, lastCol). */
  datatype Rule = Rule(firstRow: int, firstCol: int, lastRow: int, lastCol: int, criteria: string, value: int, bgColor: string)

  /** A sheet written by `to_excel(..., index=False)`: a header row, then one row per data row; and its conditional formats. */
  datatype Worksheet = Worksheet(name: string, header: seq<string>, rows: seq<Row>, rules: seq<Rule>)

  function NamesOf(sheets: seq<Worksheet>): seq<string> {
    seq(|sheets|, i requires 0 <= i < |sheets| => sheets[i].name)
  }

  predicate DistinctNames(names: seq<string>) {
    forall i, j :: 0 <= i < j < |names| ==> names[i] != names[j]
  }

  /** The `pd.ExcelWriter`: its workbook's sheets, in creation order. */
  class Writer {
    var sheets: seq<Worksheet>

    /** A workbook never holds two sheets of the same name. */
    predicate Valid()
      reads this
    {
      DistinctNames(NamesOf(sheets))
    }

    constructor ()
      ensures Valid() && sheets == []
    {
      sheets := [];
    }

    /** `df.to_excel(writer, sheet_name=name, index=False)` on a name not yet used: a new sheet at the end. */
    method ToExcel(name: string, header: seq<string>, rows: seq<Row>)
      requires Valid() && name !in NamesOf(sheets)
      modifies this
      ensures Valid()
      ensures sheets == old(sheets) + [Worksheet(name, header, rows, [])]
    {
      sheets := sheets + [Worksheet(name, header, rows, [])];
      assert NamesOf(sheets) == NamesOf(old(sheets)) + [name];
    }

    /** `writer.sheets[name].conditional_format(...)`: the rule is added to that sheet, the others are unchanged. */
    method ConditionalFormat(name: string, rule: Rule)
      requires Valid() && name in NamesOf(sheets)
      modifies this
      ensures Valid()
      ensures var k := IndexOf(NamesOf(old(sheets)), name);
        sheets == old(sheets)[k := old(sheets)[k].(rules := old(sheets)[k].rules + [rule])]
    {
      var k := IndexOf(NamesOf(sheets), name);
      sheets := sheets[k := sheets[k].(rules := sheets[k].rules + [rule])];
      assert NamesOf(sheets) == NamesOf(old(sheets));
    }
  }

  /** The sheet names, in the order the export writes them. */
  const SheetNames: seq<string> := ["Articles_communs", "Inventaire_uniquement", "Reception_uniquement"]

  /** The format colour of a cell in difference. */
  const DiffColor: string := "#FFF2AC"

  /** The position of `Diff` in the header of every exported sheet. */
  const DiffColumn: nat := 6

  lemma DiffColumnIsDiff()
    ensures "Diff" in Columns && IndexOf(Columns, "Diff") == DiffColumn
  {
    assert Columns[DiffColumn] == "Diff";
  }

  /** The rule the export puts on a sheet of `n` data rows: the Diff cells of rows 1 to n, highlighted when not 0. */
  function DiffRule(n: nat): Rule {
    Rule(1, DiffColumn, n, DiffColumn, "!=", 0, DiffColor)
  }

  /** The (sheet name, frame) list the export loop walks through. */
  function Plan(v: Views): seq<(string, seq<Row>)> {
    [(SheetNames[0], v.both), (SheetNames[1], v.onlyInv), (SheetNames[2], v.onlyRec)]
  }

  /** The sheet the loop body produces for one entry of the plan. */
  function SheetFor(entry: (string, seq<Row>)): Worksheet {
    Worksheet(entry.0, Columns, entry.1, [DiffRule(|entry.1|)])
  }

  function SheetsFor(plan: seq<(string, seq<Row>)>): (ws: seq<Worksheet>)
    ensures |ws| == |plan|
    ensures forall i :: 0 <= i < |plan| ==> ws[i] == SheetFor(plan[i])
  {
    if plan == [] then [] else SheetsFor(plan[..|plan| - 1]) + [SheetFor(plan[|plan| - 1])]
  }

  /** The workbook the export produces from the three views. */
  function Layout(v: Views): seq<Worksheet> {
    SheetsFor(Plan(v))
  }

  /** One pass of the export loop: write the frame, then put the conditional format on its Diff column. */
  method WriteSheet(w: Writer, name: string, frame: seq<Row>)
    requires w.Valid() && name !in NamesOf(w.sheets)
    modifies w
    ensures w.Valid()
    ensures w.sheets == old(w.sheets) + [SheetFor((name, frame))]
  {
    w.ToExcel(name, Columns, frame);
    var header := Columns;
    DiffColumnIsDiff();
    if "Diff" in header {
      var col := IndexOf(header, "Diff");
      var last := |w.sheets| - 1;
      IndexOfLast(NamesOf(w.sheets), name);
      ghost var written := w.sheets;
      assert written[last] == Worksheet(name, Columns, frame, []);
      assert col == DiffColumn;
      w.ConditionalFormat(name, Rule(1, col, |frame|, col, "!=", 0, DiffColor));
      assert w.sheets[last] == SheetFor((name, frame));
      assert w.sheets == written[..last] + [SheetFor((name, frame))];
    }
  }

  /** In a list of distinct names, the last name is found at the end. */
  lemma IndexOfLast(names: seq<string>, name: string)
    requires DistinctNames(names) && names != [] && names[|names| - 1] == name
    ensures IndexOf(names, name) == |names| - 1
  {
  }

  lemma NamesOfSheets(plan: seq<(string, seq<Row>)>, k: nat)
    requires k <= |plan|
    ensures NamesOf(SheetsFor(plan[..k])) == seq(k, i requires 0 <= i < k => plan[i].0)
  {
  }

  /** The export loop over the three (sheet name, frame) pairs. */
  method Export(v: Views) returns (w: Writer)
    ensures fresh(w) && w.Valid()
    ensures w.sheets == Layout(v)
  {
    w := new Writer();
    var plan := Plan(v);
    for k := 0 to |plan|
      invariant w.Valid()
      invariant w.sheets == SheetsFor(plan[..k])
    {
      var (name, frame) := plan[k];
      NamesOfSheets(plan, k);
      assert name !in NamesOf(w.sheets);
      WriteSheet(w, name, frame);
      assert plan[..k + 1][..k] == plan[..k];
    }
    assert plan[..|plan|] == plan;
  }

  /** Exactly three sheets, in order, each holding its view under the merged header and one rule on rows 1..n of the Diff column. */
  lemma ExportLayout(v: Views)
    ensures var ws := Layout(v);
      && NamesOf(ws) == SheetNames
      && ws[0].rows == v.both && ws[1].rows == v.onlyInv && ws[2].rows == v.onlyRec
      && forall i :: 0 <= i < 3 ==>
           && ws[i].header == Columns
           && ws[i].rules == [Rule(1, DiffColumn, |ws[i].rows|, DiffColumn, "!=", 0, DiffColor)]
  {
  }

  /** What a cell of a sheet holds, by zero-based row and column; row 0 is the header. */
  datatype Cell = Text(s: string) | Number(n: int) | Blank

  function TextCell(s: Option<string>): Cell {
    match s
    case Some(t) => Text(t)
    case None => Blank
  }

  function NumberCell(q: Option<int>): Cell {
    match q
    case Some(n) => Number(n)
    case None => Blank
  }

  /** The cell in column `col` of a data row, in the order of `Columns`. */
  function Field(r: Row, col: nat): Cell {
    if col == 0 then Text(r.code)
    else if col == 1 then TextCell(r.libelleInv)
    else if col == 2 then NumberCell(r.qtyInv)
    else if col == 3 then TextCell(r.libelleRec)
    else if col == 4 then NumberCell(r.qtyRec)
    else if col == 5 then Text(r.appartenance)
    else if col == 6 then Number(r.diff)
    else Blank
  }

  function CellAt(ws: Worksheet, row: nat, col: nat): Cell {
    if row == 0 then (if col < |ws.header| then Text(ws.header[col]) else Blank)
    else if row <= |ws.rows| then Field(ws.rows[row - 1], col)
    else Blank
  }

  function Min(a: int, b: int): int { if a <= b then a else b }
  function Max(a: int, b: int): int { if a <= b then b else a }

  /** The cells a rule applies to; xlsxwriter swaps a reversed row or column range before storing it. */
  predicate Covers(rule: Rule, row: nat, col: nat) {
    && Min(rule.firstRow, rule.lastRow) <= row <= Max(rule.firstRow, rule.lastRow)
    && Min(rule.firstCol, rule.lastCol) <= col <= Max(rule.firstCol, rule.lastCol)
  }

  /** A cell rule with criterion `!=`: a number other than the value; a blank cell counts as 0 and a text is unequal to any number. */
  predicate Satisfies(rule: Rule, c: Cell) {
    rule.criteria == "!=" &&
    match c
    case Number(n) => n != rule.value
    case Blank => rule.value != 0
    case Text(_) => true
  }

  /** The cell shows the difference format. */
  predicate Formatted(ws: Worksheet, row: nat, col: nat) {
    exists k :: 0 <= k < |ws.rules| && Covers(ws.rules[k], row, col) && Satisfies(ws.rules[k], CellAt(ws, row, col))
  }

  /**
   * In every exported sheet a cell is highlighted exactly when it is the Diff
   * cell of a data row whose Diff is not 0, or, on a sheet without data rows,
   * the `Diff` header: the rule then spans rows 1 to 0, which xlsxwriter
   * turns into rows 0 to 1.
   */
  lemma ExportHighlights(v: Views, i: nat, row: nat, col: nat)
    requires i < 3
    ensures var ws := Layout(v)[i];
      Formatted(ws, row, col) <==>
        || (1 <= row <= |ws.rows| && col == DiffColumn && ws.rows[row - 1].diff != 0)
        || (ws.rows == [] && row == 0 && col == DiffColumn)
  {
    var ws := Layout(v)[i];
    if 1 <= row <= |ws.rows| && col == DiffColumn && ws.rows[row - 1].diff != 0 {
      assert Covers(ws.rules[0], row, col) && Satisfies(ws.rules[0], CellAt(ws, row, col));
    }
    if ws.rows == [] && row == 0 && col == DiffColumn {
      assert CellAt(ws, row, col) == Text("Diff");
      assert Covers(ws.rules[0], row, col) && Satisfies(ws.rules[0], CellAt(ws, row, col));
    }
  }

  /** A view without rows, such as a workbook whose articles were all received, is exported with its `Diff` header highlighted. */
  lemma EmptySheetHighlightsHeader(v: Views, i: nat)
    requires i < 3 && Layout(v)[i].rows == []
    ensures CellAt(Layout(v)[i], 0, DiffColumn) == Text("Diff")
    ensures Formatted(Layout(v)[i], 0, DiffColumn)
  {
    ExportHighlights(v, i, 0, DiffColumn);
  }

  /** The sheet as intended: the Diff rule is added only when there is a data row for it to cover. */
  function IntendedSheetFor(entry: (string, seq<Row>)): (ws: Worksheet)
    ensures entry.1 != [] ==> ws == SheetFor(entry)
    ensures entry.1 == [] ==> ws == SheetFor(entry).(rules := [])
  {
    Worksheet(entry.0, Columns, entry.1, if entry.1 == [] then [] else [DiffRule(|entry.1|)])
  }

  /** The intended workbook: the same sheets as `Layout`, without a rule on an empty sheet. */
  function IntendedLayout(v: Views): (ws: seq<Worksheet>)
    ensures |ws| == |Layout(v)|
    ensures forall i :: 0 <= i < |ws| ==>
      ws[i] == Layout(v)[i].(rules := if Layout(v)[i].rows == [] then [] else Layout(v)[i].rules)
  {
    [IntendedSheetFor(Plan(v)[0]), IntendedSheetFor(Plan(v)[1]), IntendedSheetFor(Plan(v)[2])]
  }

  /** In the intended workbook a cell is highlighted exactly when it is the Diff cell of a data row whose Diff is not 0. */
  lemma IntendedHighlights(v: Views, i: nat, row: nat, col: nat)
    requires i < 3
    ensures var ws := IntendedLayout(v)[i];
      Formatted(ws, row, col) <==> 1 <= row <= |ws.rows| && col == DiffColumn && ws.rows[row - 1].diff != 0
  {
    var ws := IntendedLayout(v)[i];
    if ws.rows != [] {
      assert ws == Layout(v)[i];
      ExportHighlights(v, i, row, col);
    }
  }

  /** The export's Diff cell of a data row is highlighted exactly when the on-screen row is, as written and as intended. */
  lemma ExportAgreesWithScreen(v: Views, i: nat, j: nat)
    requires i < 3 && j < |Layout(v)[i].rows|
    ensures var ws := Layout(v)[i];
      Formatted(ws, j + 1, DiffColumn) <==> HighlightDiff(ws.rows[j])[DiffColumn] == HighlightStyle
    ensures var ws := IntendedLayout(v)[i];
      Formatted(ws, j + 1, DiffColumn) <==> HighlightDiff(ws.rows[j])[DiffColumn] == HighlightStyle
  {
    ExportHighlights(v, i, j + 1, DiffColumn);
    IntendedHighlights(v, i, j + 1, DiffColumn);
  }
}
