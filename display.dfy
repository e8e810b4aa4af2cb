/**
 * The three views of the filtered frame (`df_both`, `df_only_inv`,
 * `df_only_rec`), each selected by its Appartenance, and the row style of the
 * on-screen tables.
 */
module Display {
  import opened Base
  import opened Reconciliation

  /** The three frames shown in the tabs and written to the export. */
  datatype Views = Views(both: seq<Row>, onlyInv: seq<Row>, onlyRec: seq<Row>)

  /** The rows of `merged` whose Appartenance is `text`: `merged[merged['Appartenance'] == text]`. */
  function RowsWith(merged: seq<Row>, text: string): (r: seq<Row>)
    ensures IsSubsequence(r, merged)
    ensures forall x :: x in r ==> x.appartenance == text
    ensures forall x :: multiset(r)[x] == if x.appartenance == text then multiset(merged)[x] else 0
  {
    Select(merged, (x: Row) => x.appartenance == text)
  }

  function Partition(merged: seq<Row>): Views {
    Views(RowsWith(merged, Commun), RowsWith(merged, OnlyInventory), RowsWith(merged, OnlyReception))
  }

  /** Every row carries one of the three Appartenance texts. */
  predicate Classified(merged: seq<Row>) {
    forall x :: x in merged ==> x.appartenance in {Commun, OnlyInventory, OnlyReception}
  }

  /** Every reconciled frame is classified, and the search keeps it so. */
  lemma ReconcileClassified(inv: seq<SheetRow>, rec: seq<SheetRow>)
    ensures Classified(Reconcile(inv, rec))
  {
    forall x | x in Reconcile(inv, rec)
      ensures x.appartenance in {Commun, OnlyInventory, OnlyReception}
    {
      DiffMeaning(inv, rec, x);
    }
  }

  /**
   * The views keep the relative order of `merged`, are homogeneous and
   * pairwise disjoint, and together hold every row of a classified frame
   * exactly as often as the frame does.
   */
  lemma PartitionSpec(merged: seq<Row>)
    ensures var v := Partition(merged);
      && IsSubsequence(v.both, merged) && IsSubsequence(v.onlyInv, merged) && IsSubsequence(v.onlyRec, merged)
      && (forall x :: x in v.both ==> x.appartenance == Commun)
      && (forall x :: x in v.onlyInv ==> x.appartenance == OnlyInventory)
      && (forall x :: x in v.onlyRec ==> x.appartenance == OnlyReception)
      && multiset(v.both) * multiset(v.onlyInv) == multiset{}
      && multiset(v.both) * multiset(v.onlyRec) == multiset{}
      && multiset(v.onlyInv) * multiset(v.onlyRec) == multiset{}
    ensures Classified(merged) ==> PartitionComplete(merged)
  {
    ViewsDisjoint(merged, Commun, OnlyInventory);
    ViewsDisjoint(merged, Commun, OnlyReception);
    ViewsDisjoint(merged, OnlyInventory, OnlyReception);
    if Classified(merged) {
      PartitionCovers(merged);
    }
  }

  /** Rows selected by two different texts have no row in common. */
  lemma ViewsDisjoint(merged: seq<Row>, a: string, b: string)
    requires a != b
    ensures multiset(RowsWith(merged, a)) * multiset(RowsWith(merged, b)) == multiset{}
  {
    var m := multiset(RowsWith(merged, a)) * multiset(RowsWith(merged, b));
    forall x
      ensures m[x] == 0
    {
    }
    assert m == multiset{};
  }

  /** The views together are a permutation of `merged`, so no row is lost or duplicated. */
  predicate PartitionComplete(merged: seq<Row>) {
    var v := Partition(merged);
    && multiset(v.both) + multiset(v.onlyInv) + multiset(v.onlyRec) == multiset(merged)
    && |v.both| + |v.onlyInv| + |v.onlyRec| == |merged|
  }

  lemma PartitionCovers(merged: seq<Row>)
    requires Classified(merged)
    ensures PartitionComplete(merged)
  {
    var v := Partition(merged);
    var all := multiset(v.both) + multiset(v.onlyInv) + multiset(v.onlyRec);
    forall x
      ensures all[x] == multiset(merged)[x]
    {
      PartitionCount(merged, x);
    }
    assert all == multiset(merged);
    assert |all| == |multiset(v.both)| + |multiset(v.onlyInv)| + |multiset(v.onlyRec)|;
  }

  /** A row of a classified frame is counted in exactly one view. */
  lemma PartitionCount(merged: seq<Row>, x: Row)
    requires Classified(merged)
    ensures var v := Partition(merged);
      multiset(v.both)[x] + multiset(v.onlyInv)[x] + multiset(v.onlyRec)[x] == multiset(merged)[x]
  {
    if x in merged {
      assert x.appartenance in {Commun, OnlyInventory, OnlyReception};
    } else {
      assert multiset(merged)[x] == 0;
    }
  }

  /** The style of a highlighted cell on screen. */
  const HighlightStyle: string := "background-color: #fff2ac"

  /** `highlight_diff`: one style per column of the row. */
  function HighlightDiff(r: Row): (styles: seq<string>)
    ensures |styles| == |Columns|
    ensures forall i, j :: 0 <= i < j < |styles| ==> styles[i] == styles[j]
    ensures forall i :: 0 <= i < |styles| ==> (styles[i] != "" <==> r.diff != 0)
    ensures forall i :: 0 <= i < |styles| ==> styles[i] in {"", HighlightStyle}
  {
    seq(|Columns|, _ => if r.diff != 0 then HighlightStyle else "")
  }
}
