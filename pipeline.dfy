/**
 * The comparison as a whole, from the uploaded workbook to the three views:
 * read both sheets, reconcile them, apply the search and split the result.
 * The workbook is given as a map from sheet name to its rows.
 */
module Pipeline {
  import opened Base
  import opened Labels
  import opened Reconciliation
  import opened Search
  import opened Display
  import opened Export

  /**
   * Why the page stops: a sheet is missing from the workbook (the inventory
   * sheet is read first), or a column lookup raised an exception nothing catches.
   */
  datatype PageError = MissingSheet(name: string) | UncaughtKeyError(column: string)

  /** The three views on screen and whether the invalid-pattern warning is shown. */
  datatype Report = Report(views: Views, warned: bool)

  const InventorySheet: string := "Inventaire"
  const ReceptionSheet: string := "Reception"

  /** The comparison with the label lookup of the search corrected (see `Search.Filter`): only a missing sheet stops it. */
  function Compare(book: map<string, seq<SheetRow>>, re: Regex, pattern: string): (r: Result<Report, PageError>)
    ensures r.Failure? <==> InventorySheet !in book || ReceptionSheet !in book
    ensures r.Failure? ==> r.error == MissingSheet(if InventorySheet !in book then InventorySheet else ReceptionSheet)
    ensures r.Success? ==> (r.value.warned <==> pattern != [] && !re.compiles(pattern))
  {
    if InventorySheet !in book then Failure(MissingSheet(InventorySheet))
    else if ReceptionSheet !in book then Failure(MissingSheet(ReceptionSheet))
    else
      var f := Filter(re, pattern, Reconcile(book[InventorySheet], book[ReceptionSheet]));
      Success(Report(Partition(f.rows), f.warned))
  }

  /**
   * The comparison as written: besides a missing sheet, every non-empty pattern
   * that compiles stops the page with the `KeyError` of the label lookup.
   * Wherever it does not stop, it shows what the corrected comparison shows.
   */
  function CompareAsWritten(book: map<string, seq<SheetRow>>, re: Regex, pattern: string): (r: Result<Report, PageError>)
    ensures r.Failure? <==> InventorySheet !in book || ReceptionSheet !in book || (pattern != [] && re.compiles(pattern))
    ensures InventorySheet !in book || ReceptionSheet !in book ==>
      r == Failure(MissingSheet(if InventorySheet !in book then InventorySheet else ReceptionSheet))
    ensures InventorySheet in book && ReceptionSheet in book && pattern != [] && re.compiles(pattern) ==>
      r == Failure(UncaughtKeyError(LabelColumn))
    ensures r.Success? ==> r == Compare(book, re, pattern)
  {
    if InventorySheet !in book then Failure(MissingSheet(InventorySheet))
    else if ReceptionSheet !in book then Failure(MissingSheet(ReceptionSheet))
    else
      var merged := Reconcile(book[InventorySheet], book[ReceptionSheet]);
      FilterAgreesWhereWrittenCompletes(re, pattern, merged);
      match FilterAsWritten(re, pattern, merged)
      case KeyError(column) => Failure(UncaughtKeyError(column))
      case Completed(f) => Success(Report(Partition(f.rows), f.warned))
  }

  /** The view an indicator's rows are shown in. */
  function ViewOf(v: Views, i: Indicator): seq<Row> {
    match i
    case Both => v.both
    case LeftOnly => v.onlyInv
    case RightOnly => v.onlyRec
  }

  /** Whether the search keeps a row. */
  predicate Kept(re: Regex, pattern: string, r: Row) {
    pattern == [] || !re.compiles(pattern) || Hit(re, pattern, r)
  }

  lemma RowsWithCount(rows: seq<Row>, m: Merged)
    ensures multiset(RowsWith(rows, Appartenance(m.indicator)))[Annotate(m)] == multiset(rows)[Annotate(m)]
  {
  }

  lemma FilterCount(re: Regex, pattern: string, rows: seq<Row>, r: Row)
    ensures multiset(Filter(re, pattern, rows).rows)[r] == if Kept(re, pattern, r) then multiset(rows)[r] else 0
  {
  }

  /**
   * End to end: every row of the outer join of the two sheets that the search
   * keeps is shown in the view of its Appartenance, as many times as the join
   * produces it.
   */
  lemma CompareShowsJoin(book: map<string, seq<SheetRow>>, re: Regex, pattern: string, m: Merged)
    requires InventorySheet in book && ReceptionSheet in book
    ensures var inv, rec := book[InventorySheet], book[ReceptionSheet];
      multiset(ViewOf(Compare(book, re, pattern).value.views, m.indicator))[Annotate(m)]
      == if Kept(re, pattern, Annotate(m)) then OuterJoinCount(Project(inv), Project(rec), m) else 0
  {
    var inv, rec := book[InventorySheet], book[ReceptionSheet];
    var merged := Reconcile(inv, rec);
    var f := Filter(re, pattern, merged).rows;
    RowsWithCount(f, m);
    FilterCount(re, pattern, merged, Annotate(m));
    ReconcileCount(inv, rec, m);
    assert Compare(book, re, pattern).value.views == Partition(f);
  }

  /** The searched frame keeps the three Appartenance texts of the reconciled one. */
  lemma FilterClassified(re: Regex, pattern: string, merged: seq<Row>)
    requires Classified(merged)
    ensures Classified(Filter(re, pattern, merged).rows)
  {
    var f := Filter(re, pattern, merged).rows;
    forall x | x in f
      ensures x.appartenance in {Commun, OnlyInventory, OnlyReception}
    {
      FilterCount(re, pattern, merged, x);
      assert x in merged;
    }
  }

  /** The three views together are exactly the rows the search keeps; without a working pattern, every reconciled row. */
  lemma CompareViewsComplete(book: map<string, seq<SheetRow>>, re: Regex, pattern: string)
    requires InventorySheet in book && ReceptionSheet in book
    ensures var merged := Reconcile(book[InventorySheet], book[ReceptionSheet]);
      var v := Compare(book, re, pattern).value.views;
      && multiset(v.both) + multiset(v.onlyInv) + multiset(v.onlyRec) == multiset(Filter(re, pattern, merged).rows)
      && (pattern == [] || !re.compiles(pattern) ==>
            |v.both| + |v.onlyInv| + |v.onlyRec| == |Merge(Project(book[InventorySheet]), Project(book[ReceptionSheet]))|)
  {
    var inv, rec := book[InventorySheet], book[ReceptionSheet];
    var merged := Reconcile(inv, rec);
    ReconcileClassified(inv, rec);
    FilterClassified(re, pattern, merged);
    PartitionCovers(Filter(re, pattern, merged).rows);
  }

  // ---------------------------------------------------------------------------
  // Single-article workbooks, and the reference scenarios: 1001 counted 10
  // and received 7, 2002 counted 5 and never received, 3003 counted and
  // received 4.

  /** An article on both sheets gives one common row. */
  lemma CommonArticle(x: SheetRow, y: SheetRow)
    requires x.code == y.code
    ensures Reconcile([x], [y]) == [Annotate(BothOf(Clean(x), Clean(y)))]
  {
    var inv, rec := Project([x]), Project([y]);
    assert inv == [Clean(x)] && rec == [Clean(y)];
    assert Partners(Clean(x), rec) == [BothOf(Clean(x), Clean(y))] by {
      assert rec[1..] == [];
    }
    assert MergeLeft(inv, rec) == [BothOf(Clean(x), Clean(y))] by {
      assert inv[1..] == [];
    }
    CodeInCodes(inv, Clean(x));
    assert Unmatched(rec, Codes(inv)) == [] by {
      assert rec[1..] == [];
    }
    assert Merge(inv, rec) == [BothOf(Clean(x), Clean(y))];
  }

  /** An article on the inventory sheet only gives one inventory-only row. */
  lemma InventoryOnlyArticle(x: SheetRow)
    ensures Reconcile([x], []) == [Annotate(LeftOf(Clean(x)))]
  {
    var inv := Project([x]);
    assert inv == [Clean(x)];
    assert MergeLeft(inv, []) == [LeftOf(Clean(x))] by {
      assert inv[1..] == [];
    }
    assert Merge(inv, []) == [LeftOf(Clean(x))];
  }

  /** An article on the reception sheet only gives one reception-only row. */
  lemma ReceptionOnlyArticle(y: SheetRow)
    ensures Reconcile([], [y]) == [Annotate(RightOf(Clean(y)))]
  {
    var rec := Project([y]);
    assert rec == [Clean(y)];
    assert Codes([]) == {};
    assert Unmatched(rec, {}) == [RightOf(Clean(y))] by {
      assert rec[1..] == [];
    }
    assert Merge([], rec) == [RightOf(Clean(y))];
  }

  /**
   * 1001 is common with a difference of 3 and highlighted; 2002 is
   * inventory-only with a difference of 5 and highlighted; 3003 is common with
   * no difference and not highlighted.
   */
  lemma Scenarios()
    ensures var r := Reconcile([SheetRow("1001", "Stylo", Some(10))], [SheetRow("1001", "Stylo", Some(7))]);
      |r| == 1 && r[0].appartenance == Commun && r[0].diff == 3 && HighlightDiff(r[0])[0] == HighlightStyle
    ensures var r := Reconcile([SheetRow("2002", "Cahier", Some(5))], []);
      |r| == 1 && r[0].appartenance == OnlyInventory && r[0].diff == 5 && HighlightDiff(r[0])[0] == HighlightStyle
    ensures var r := Reconcile([SheetRow("3003", "Gomme", Some(4))], [SheetRow("3003", "Gomme", Some(4))]);
      |r| == 1 && r[0].appartenance == Commun && r[0].diff == 0 && HighlightDiff(r[0])[0] == ""
  {
    CommonArticle(SheetRow("1001", "Stylo", Some(10)), SheetRow("1001", "Stylo", Some(7)));
    InventoryOnlyArticle(SheetRow("2002", "Cahier", Some(5)));
    CommonArticle(SheetRow("3003", "Gomme", Some(4)), SheetRow("3003", "Gomme", Some(4)));
  }
}
