/**
 * The reconciliation of the two sheets: the projection of each sheet to
 * (code, cleaned label, quantity), the outer merge on `Code article` with an
 * indicator column, the mapping of the indicator to the French Appartenance
 * labels, and the quantity difference `Diff`.
 *
 * The merge is specified by the multiplicity of every merged row
 * (`OuterJoinCount`), the relational meaning of a full outer join, so the
 * order chosen here for the rows is not part of what is proved.
 */
module Reconciliation {
  import opened Base
  import opened Labels

  /** One row of an uploaded sheet: `Code article`, `Libelle` (after `str`), and the quantity cell (None when empty). */
  datatype SheetRow = SheetRow(code: string, libelle: string, qty: Option<int>)

  /** One row of `df_inv` or `df_rec`: code, cleaned label (`Libelle_nettoye`), quantity (`Qty_Inv` or `Qty_Rec`). */
  datatype CleanRow = CleanRow(code: string, libelle: string, qty: Option<int>)

  /** The `_merge` indicator that `pd.merge(..., indicator=...)` adds. */
  datatype Indicator = Both | LeftOnly | RightOnly

  /** One row of the outer merge; a side the article is missing from has empty cells. */
  datatype Merged = Merged(
    code: string,
    libelleInv: Option<string>, qtyInv: Option<int>,
    libelleRec: Option<string>, qtyRec: Option<int>,
    indicator: Indicator)

  /** One row of the final `merged` frame, with its `Appartenance` text and its `Diff`. */
  datatype Row = Row(
    code: string,
    libelleInv: Option<string>, qtyInv: Option<int>,
    libelleRec: Option<string>, qtyRec: Option<int>,
    appartenance: string, diff: int)

  /** The column order of `merged`, as written to every exported sheet. */
  const Columns: seq<string> :=
    ["Code article", "Libelle_nettoye_Inv", "Qty_Inv", "Libelle_nettoye_Rec", "Qty_Rec", "Appartenance", "Diff"]

  const Commun: string := "Commun"
  const OnlyInventory: string := "Seulement Inventaire"
  const OnlyReception: string := "Seulement Réception"

  // ---------------------------------------------------------------------------
  // Projection

  function Clean(row: SheetRow): CleanRow {
    CleanRow(row.code, CleanLabel(row.libelle), row.qty)
  }

  /** Adds `Libelle_nettoye`, renames the quantity column and keeps the three columns of the merge. */
  function Project(rows: seq<SheetRow>): (r: seq<CleanRow>)
    ensures |r| == |rows|
    ensures forall i :: 0 <= i < |rows| ==>
      && r[i].code == rows[i].code
      && r[i].qty == rows[i].qty
      && r[i].libelle == CleanLabel(rows[i].libelle)
      && Stripped(r[i].libelle)
      && |r[i].libelle| <= |rows[i].libelle|
  {
    seq(|rows|, i requires 0 <= i < |rows| => Clean(rows[i]))
  }

  /** The set of article codes of a frame. */
  function Codes(rows: seq<CleanRow>): set<string> {
    set r | r in rows :: r.code
  }

  function SheetCodes(rows: seq<SheetRow>): set<string> {
    set r | r in rows :: r.code
  }

  /** The projection loses no article and adds none. */
  lemma ProjectKeepsCodes(rows: seq<SheetRow>)
    ensures Codes(Project(rows)) == SheetCodes(rows)
  {
    var p := Project(rows);
    forall c | c in SheetCodes(rows)
      ensures c in Codes(p)
    {
      var i :| 0 <= i < |rows| && rows[i].code == c;
      assert p[i] in p;
    }
    forall c | c in Codes(p)
      ensures c in SheetCodes(rows)
    {
      var i :| 0 <= i < |p| && p[i].code == c;
      assert rows[i] in rows;
    }
  }

  // ---------------------------------------------------------------------------
  // The outer merge

  function BothOf(x: CleanRow, y: CleanRow): Merged {
    Merged(x.code, Some(x.libelle), x.qty, Some(y.libelle), y.qty, Both)
  }

  function LeftOf(x: CleanRow): Merged {
    Merged(x.code, Some(x.libelle), x.qty, None, None, LeftOnly)
  }

  function RightOf(y: CleanRow): Merged {
    Merged(y.code, None, None, Some(y.libelle), y.qty, RightOnly)
  }

  /** The inventory side of a merged row (its `_Inv` columns and the code). */
  function InvSide(m: Merged): CleanRow {
    CleanRow(m.code, m.libelleInv.GetOr(""), m.qtyInv)
  }

  /** The reception side of a merged row (its `_Rec` columns and the code). */
  function RecSide(m: Merged): CleanRow {
    CleanRow(m.code, m.libelleRec.GetOr(""), m.qtyRec)
  }

  /**
   * Reference semantics of a full outer join on the code: how many times the
   * row `m` occurs in the join of `inv` and `rec`. A matched pair occurs once
   * per pair of source rows, an unmatched row once per source row.
   */
  function OuterJoinCount(inv: seq<CleanRow>, rec: seq<CleanRow>, m: Merged): nat {
    match m.indicator
    case Both =>
      if m == BothOf(InvSide(m), RecSide(m)) then multiset(inv)[InvSide(m)] * multiset(rec)[RecSide(m)] else 0
    case LeftOnly =>
      if m == LeftOf(InvSide(m)) && m.code !in Codes(rec) then multiset(inv)[InvSide(m)] else 0
    case RightOnly =>
      if m == RightOf(RecSide(m)) && m.code !in Codes(inv) then multiset(rec)[RecSide(m)] else 0
  }

  /** The matches of one inventory row, in reception order. */
  function Partners(x: CleanRow, rec: seq<CleanRow>): seq<Merged> {
    if rec == [] then []
    else (if rec[0].code == x.code then [BothOf(x, rec[0])] else []) + Partners(x, rec[1..])
  }

  /** What one inventory row contributes to the merge: its matches, or itself alone. */
  function Block(x: CleanRow, rec: seq<CleanRow>): seq<Merged> {
    var p := Partners(x, rec);
    if p == [] then [LeftOf(x)] else p
  }

  function MergeLeft(inv: seq<CleanRow>, rec: seq<CleanRow>): seq<Merged> {
    if inv == [] then [] else Block(inv[0], rec) + MergeLeft(inv[1..], rec)
  }

  /** The reception rows whose code is not in `codes`, as right-only rows. */
  function Unmatched(rec: seq<CleanRow>, codes: set<string>): seq<Merged> {
    if rec == [] then []
    else (if rec[0].code in codes then [] else [RightOf(rec[0])]) + Unmatched(rec[1..], codes)
  }

  /** `pd.merge(df_inv, df_rec, on='Code article', how='outer', suffixes=('_Inv', '_Rec'), indicator=...)`. */
  function Merge(inv: seq<CleanRow>, rec: seq<CleanRow>): seq<Merged> {
    MergeLeft(inv, rec) + Unmatched(rec, Codes(inv))
  }

  lemma CodeInCodes(rows: seq<CleanRow>, r: CleanRow)
    requires r in rows
    ensures r.code in Codes(rows)
  {
  }

  lemma {:induction false} PartnersEmpty(x: CleanRow, rec: seq<CleanRow>)
    ensures Partners(x, rec) == [] <==> x.code !in Codes(rec)
  {
    if rec != [] {
      PartnersEmpty(x, rec[1..]);
      assert rec == [rec[0]] + rec[1..];
      assert Codes(rec) == {rec[0].code} + Codes(rec[1..]);
    }
  }

  lemma {:induction false} PartnersCount(x: CleanRow, rec: seq<CleanRow>, m: Merged)
    ensures multiset(Partners(x, rec))[m] ==
      if m == BothOf(x, RecSide(m)) then multiset(rec)[RecSide(m)] else 0
  {
    if rec != [] {
      PartnersCount(x, rec[1..], m);
      assert rec == [rec[0]] + rec[1..];
    }
  }

  /** What one inventory row `x` contributes to the count of `m`. */
  function BlockTerm(x: CleanRow, rec: seq<CleanRow>, m: Merged): nat {
    (if m == BothOf(x, RecSide(m)) then multiset(rec)[RecSide(m)] else 0)
    + (if m == LeftOf(x) && x.code !in Codes(rec) then 1 else 0)
  }

  lemma BlockCount(x: CleanRow, rec: seq<CleanRow>, m: Merged)
    ensures multiset(Block(x, rec))[m] == BlockTerm(x, rec, m)
  {
    PartnersEmpty(x, rec);
    PartnersCount(x, rec, m);
    if x.code !in Codes(rec) && m == BothOf(x, RecSide(m)) {
      if RecSide(m) in rec {
        CodeInCodes(rec, RecSide(m));
      }
    }
  }

  /** The count contributed by the inventory rows, as the reference states it. */
  function LeftCount(inv: seq<CleanRow>, rec: seq<CleanRow>, m: Merged): nat {
    match m.indicator
    case Both =>
      if m == BothOf(InvSide(m), RecSide(m)) then multiset(inv)[InvSide(m)] * multiset(rec)[RecSide(m)] else 0
    case LeftOnly =>
      if m == LeftOf(InvSide(m)) && m.code !in Codes(rec) then multiset(inv)[InvSide(m)] else 0
    case RightOnly => 0
  }

  /** A matched row names its inventory row: it pairs `x` exactly when `x` is its inventory side. */
  lemma BothOfSide(x: CleanRow, m: Merged)
    ensures m == BothOf(x, RecSide(m)) <==> m == BothOf(InvSide(m), RecSide(m)) && x == InvSide(m)
  {
  }

  lemma LeftOfSide(x: CleanRow, m: Merged)
    ensures m == LeftOf(x) <==> m == LeftOf(InvSide(m)) && x == InvSide(m)
  {
  }

  /** The reference count of the inventory side splits over the first inventory row. */
  lemma LeftCountStep(inv: seq<CleanRow>, rec: seq<CleanRow>, m: Merged)
    requires inv != []
    ensures LeftCount(inv, rec, m) == BlockTerm(inv[0], rec, m) + LeftCount(inv[1..], rec, m)
  {
    var x, tail := inv[0], inv[1..];
    BothOfSide(x, m);
    LeftOfSide(x, m);
    assert inv == [x] + tail;
    var h := if x == InvSide(m) then 1 else 0;
    assert multiset(inv)[InvSide(m)] == h + multiset(tail)[InvSide(m)];
    match m.indicator
    case Both =>
      if m == BothOf(InvSide(m), RecSide(m)) {
        var c := multiset(rec)[RecSide(m)];
        assert (h + multiset(tail)[InvSide(m)]) * c == h * c + multiset(tail)[InvSide(m)] * c;
      }
    case LeftOnly =>
    case RightOnly =>
  }

  lemma {:induction false} MergeLeftCount(inv: seq<CleanRow>, rec: seq<CleanRow>, m: Merged)
    ensures multiset(MergeLeft(inv, rec))[m] == LeftCount(inv, rec, m)
  {
    if inv != [] {
      MergeLeftCount(inv[1..], rec, m);
      BlockCount(inv[0], rec, m);
      LeftCountStep(inv, rec, m);
    }
  }

  lemma {:induction false} UnmatchedCount(rec: seq<CleanRow>, codes: set<string>, m: Merged)
    ensures multiset(Unmatched(rec, codes))[m] ==
      if m == RightOf(RecSide(m)) && m.code !in codes then multiset(rec)[RecSide(m)] else 0
  {
    if rec != [] {
      UnmatchedCount(rec[1..], codes, m);
      assert rec == [rec[0]] + rec[1..];
    }
  }

  /** The merge is a full outer join: every row occurs exactly as often as the reference semantics says. */
  lemma MergeIsOuterJoin(inv: seq<CleanRow>, rec: seq<CleanRow>, m: Merged)
    ensures multiset(Merge(inv, rec))[m] == OuterJoinCount(inv, rec, m)
  {
    MergeLeftCount(inv, rec, m);
    UnmatchedCount(rec, Codes(inv), m);
  }

  /** The set of article codes of the merged frame. */
  function MergedCodes(ms: seq<Merged>): set<string> {
    set m | m in ms :: m.code
  }

  /** Every merged row is a matched pair, or an inventory row without a match, or a reception row without one. */
  lemma MergeShape(inv: seq<CleanRow>, rec: seq<CleanRow>, m: Merged)
    requires m in Merge(inv, rec)
    ensures match m.indicator
      case Both => m == BothOf(InvSide(m), RecSide(m)) && InvSide(m) in inv && RecSide(m) in rec
      case LeftOnly => m == LeftOf(InvSide(m)) && InvSide(m) in inv && m.code !in Codes(rec)
      case RightOnly => m == RightOf(RecSide(m)) && RecSide(m) in rec && m.code !in Codes(inv)
  {
    MergeIsOuterJoin(inv, rec, m);
    var a, b := multiset(inv)[InvSide(m)], multiset(rec)[RecSide(m)];
    if m.indicator == Both {
      assert a > 0 && b > 0;
    }
  }

  /**
   * What the indicator means: a merged row is `both` exactly when its code is
   * in both frames, `left_only` exactly when it is missing from the reception,
   * `right_only` exactly when it is missing from the inventory; the side it is
   * missing from has empty cells.
   */
  lemma Classification(inv: seq<CleanRow>, rec: seq<CleanRow>, m: Merged)
    requires m in Merge(inv, rec)
    ensures m.indicator == Both <==> m.code in Codes(inv) && m.code in Codes(rec)
    ensures m.indicator == LeftOnly <==> m.code !in Codes(rec)
    ensures m.indicator == RightOnly <==> m.code !in Codes(inv)
    ensures m.indicator != RightOnly <==> m.libelleInv.Some?
    ensures m.indicator != LeftOnly <==> m.libelleRec.Some?
    ensures m.indicator != RightOnly ==> InvSide(m) in inv
    ensures m.indicator != LeftOnly ==> RecSide(m) in rec
  {
    MergeShape(inv, rec, m);
    if m.indicator != RightOnly {
      CodeInCodes(inv, InvSide(m));
    }
    if m.indicator != LeftOnly {
      CodeInCodes(rec, RecSide(m));
    }
  }

  /** An article of either frame has a row in the merge. */
  lemma CodeHasRow(inv: seq<CleanRow>, rec: seq<CleanRow>, c: string) returns (m: Merged)
    requires c in Codes(inv) + Codes(rec)
    ensures m in Merge(inv, rec) && m.code == c
  {
    if c in Codes(inv) {
      var x :| x in inv && x.code == c;
      if c in Codes(rec) {
        var y :| y in rec && y.code == c;
        m := BothOf(x, y);
        PairOccurs(inv, rec, x, y);
      } else {
        m := LeftOf(x);
        MergeIsOuterJoin(inv, rec, m);
        assert OuterJoinCount(inv, rec, m) == multiset(inv)[x];
      }
    } else {
      var y :| y in rec && y.code == c;
      m := RightOf(y);
      MergeIsOuterJoin(inv, rec, m);
      assert OuterJoinCount(inv, rec, m) == multiset(rec)[y];
    }
  }

  lemma PairOccurs(inv: seq<CleanRow>, rec: seq<CleanRow>, x: CleanRow, y: CleanRow)
    requires x in inv && y in rec && x.code == y.code
    ensures BothOf(x, y) in Merge(inv, rec)
  {
    var m := BothOf(x, y);
    MergeIsOuterJoin(inv, rec, m);
    var a, b := multiset(inv)[x], multiset(rec)[y];
    assert OuterJoinCount(inv, rec, m) == a * b;
    MulPositive(a, b);
  }

  /** Nonlinear: kept as its own lemma so that the solver sees this fact alone. */
  lemma MulPositive(a: nat, b: nat)
    requires a > 0 && b > 0
    ensures a * b > 0
  {
  }

  /** No article is lost or invented: the merged codes are the codes of either frame. */
  lemma MergeCodes(inv: seq<CleanRow>, rec: seq<CleanRow>)
    ensures MergedCodes(Merge(inv, rec)) == Codes(inv) + Codes(rec)
  {
    var ms := Merge(inv, rec);
    forall c | c in MergedCodes(ms)
      ensures c in Codes(inv) + Codes(rec)
    {
      var m :| m in ms && m.code == c;
      Classification(inv, rec, m);
    }
    forall c | c in Codes(inv) + Codes(rec)
      ensures c in MergedCodes(ms)
    {
      var m := CodeHasRow(inv, rec, c);
    }
  }

  // ---------------------------------------------------------------------------
  // Appartenance and Diff

  /** The `.map({'both': ..., 'left_only': ..., 'right_only': ...})` of the indicator. */
  function Appartenance(i: Indicator): (s: string)
    ensures s in {Commun, OnlyInventory, OnlyReception}
  {
    match i
    case Both => Commun
    case LeftOnly => OnlyInventory
    case RightOnly => OnlyReception
  }

  /** The indicator an Appartenance text stands for. */
  function IndicatorOf(s: string): Option<Indicator> {
    if s == Commun then Some(Both)
    else if s == OnlyInventory then Some(LeftOnly)
    else if s == OnlyReception then Some(RightOnly)
    else None
  }

  /** The three texts are distinct, so the mapping loses nothing. */
  lemma AppartenanceRoundTrip(i: Indicator)
    ensures IndicatorOf(Appartenance(i)) == Some(i)
  {
  }

  /** `merged['Qty_Inv'].fillna(0) - merged['Qty_Rec'].fillna(0)` and the mapped indicator. */
  function Annotate(m: Merged): Row {
    Row(m.code, m.libelleInv, m.qtyInv, m.libelleRec, m.qtyRec, Appartenance(m.indicator), m.qtyInv.GetOr(0) - m.qtyRec.GetOr(0))
  }

  /** The merged row an annotated row came from (the inverse of `Annotate`). */
  function Unannotate(r: Row): Option<Merged> {
    match IndicatorOf(r.appartenance)
    case Some(i) => Some(Merged(r.code, r.libelleInv, r.qtyInv, r.libelleRec, r.qtyRec, i))
    case None => None
  }

  lemma AnnotateRoundTrip(m: Merged)
    ensures Unannotate(Annotate(m)) == Some(m)
  {
    AppartenanceRoundTrip(m.indicator);
  }

  function AnnotateAll(ms: seq<Merged>): (rs: seq<Row>)
    ensures |rs| == |ms|
    ensures forall i :: 0 <= i < |ms| ==> Unannotate(rs[i]) == Some(ms[i])
  {
    if ms == [] then []
    else
      AnnotateRoundTrip(ms[0]);
      [Annotate(ms[0])] + AnnotateAll(ms[1..])
  }

  /** The annotated rows occur exactly as often as the merged rows they come from. */
  lemma {:induction false} AnnotateAllCount(ms: seq<Merged>, m: Merged)
    ensures multiset(AnnotateAll(ms))[Annotate(m)] == multiset(ms)[m]
  {
    if ms != [] {
      AnnotateAllCount(ms[1..], m);
      assert ms == [ms[0]] + ms[1..];
      AnnotateRoundTrip(ms[0]);
      AnnotateRoundTrip(m);
    }
  }

  /** The `merged` frame of lines 44-54: the outer merge with Appartenance and Diff. */
  function Reconcile(inv: seq<SheetRow>, rec: seq<SheetRow>): seq<Row> {
    AnnotateAll(Merge(Project(inv), Project(rec)))
  }

  /** Every reconciled row is the annotation of a merged row of the outer join. */
  lemma ReconcileRows(inv: seq<SheetRow>, rec: seq<SheetRow>, r: Row)
    requires r in Reconcile(inv, rec)
    ensures Unannotate(r).Some?
    ensures var m := Unannotate(r).value;
      && r == Annotate(m)
      && m in Merge(Project(inv), Project(rec))
  {
    var ms := Merge(Project(inv), Project(rec));
    var i :| 0 <= i < |ms| && AnnotateAll(ms)[i] == r;
    assert r == Annotate(ms[i]) by {
      AnnotateRoundTrip(ms[i]);
      AnnotateAllElement(ms, i);
    }
  }

  lemma {:induction false} AnnotateAllElement(ms: seq<Merged>, i: nat)
    requires i < |ms|
    ensures AnnotateAll(ms)[i] == Annotate(ms[i])
  {
    if i > 0 {
      AnnotateAllElement(ms[1..], i - 1);
    }
  }

  /**
   * The difference of a reconciled row, by Appartenance: a common article
   * compares its two quantities, an inventory-only article counts its whole
   * inventory quantity, a reception-only article the opposite of its received
   * quantity; an empty quantity counts as 0.
   */
  lemma DiffMeaning(inv: seq<SheetRow>, rec: seq<SheetRow>, r: Row)
    requires r in Reconcile(inv, rec)
    ensures r.appartenance in {Commun, OnlyInventory, OnlyReception}
    ensures r.appartenance == Commun ==> r.diff == r.qtyInv.GetOr(0) - r.qtyRec.GetOr(0)
    ensures r.appartenance == OnlyInventory ==> r.qtyRec == None && r.diff == r.qtyInv.GetOr(0)
    ensures r.appartenance == OnlyReception ==> r.qtyInv == None && r.diff == -r.qtyRec.GetOr(0)
  {
    ReconcileRows(inv, rec, r);
    var m := Unannotate(r).value;
    Classification(Project(inv), Project(rec), m);
    MergeIsOuterJoin(Project(inv), Project(rec), m);
  }

  /** What the Appartenance text on screen means, in terms of the article codes of the two uploaded sheets. */
  lemma AppartenanceMeaning(inv: seq<SheetRow>, rec: seq<SheetRow>, r: Row)
    requires r in Reconcile(inv, rec)
    ensures r.appartenance == Commun <==> r.code in SheetCodes(inv) && r.code in SheetCodes(rec)
    ensures r.appartenance == OnlyInventory <==> r.code !in SheetCodes(rec)
    ensures r.appartenance == OnlyReception <==> r.code !in SheetCodes(inv)
  {
    ReconcileRows(inv, rec, r);
    var m := Unannotate(r).value;
    Classification(Project(inv), Project(rec), m);
    ProjectKeepsCodes(inv);
    ProjectKeepsCodes(rec);
  }

  /** The multiplicity of every reconciled row is the one of the outer join of the projected sheets. */
  lemma ReconcileCount(inv: seq<SheetRow>, rec: seq<SheetRow>, m: Merged)
    ensures multiset(Reconcile(inv, rec))[Annotate(m)] == OuterJoinCount(Project(inv), Project(rec), m)
  {
    AnnotateAllCount(Merge(Project(inv), Project(rec)), m);
    MergeIsOuterJoin(Project(inv), Project(rec), m);
  }
}
