/**
 * The regular-expression search over the merged frame. The engine behind
 * `Series.str.contains(pattern, regex=True)` is a parameter: whether a
 * pattern compiles and whether it is found somewhere in a text. Matching is
 * case-sensitive because no flag is passed, so the engine receives the
 * pattern and the text unchanged.
 */
module Search {
  import opened Base
  import opened Reconciliation

  /** `re.compile(p)` succeeds, and `re.search(p, s)` finds a match, as an engine decides them. */
  datatype Regex = Regex(compiles: string -> bool, foundIn: (string, string) -> bool)

  /** What the search step leaves: the rows kept in `merged`, and whether the invalid-pattern warning is shown. */
  datatype Filtered = Filtered(rows: seq<Row>, warned: bool)

  /** The search step as written either completes or stops with an uncaught `KeyError` on a column name. */
  datatype Attempt = Completed(result: Filtered) | KeyError(column: string)

  /** The column the search reads for labels. */
  const LabelColumn: string := "Libelle_nettoye"

  /** After the merge the label columns carry the `_Inv` and `_Rec` suffixes, so the column the search reads does not exist. */
  lemma LabelColumnMissing()
    ensures LabelColumn !in Columns
    ensures LabelColumn + "_Inv" in Columns && LabelColumn + "_Rec" in Columns
  {
    assert Columns[1] == LabelColumn + "_Inv";
    assert Columns[3] == LabelColumn + "_Rec";
  }

  /**
   * The search step as written. The code column is searched first, which is
   * where an invalid pattern raises `re.error` (caught: the frame is kept and
   * the warning shown); the label column is then looked up by a name the merged
   * frame does not have, which raises `KeyError`, an exception the step does not catch.
   */
  function FilterAsWritten(re: Regex, pattern: string, merged: seq<Row>): (a: Attempt)
    ensures a.Completed? <==> pattern == [] || !re.compiles(pattern)
    ensures a.Completed? ==> a.result.rows == merged
    ensures a.Completed? ==> (a.result.warned <==> pattern != [])
    ensures a.KeyError? ==> a.column !in Columns
  {
    LabelColumnMissing();
    if pattern == [] then Completed(Filtered(merged, false))
    else if !re.compiles(pattern) then Completed(Filtered(merged, true))
    else KeyError(LabelColumn)
  }

  /** A row is kept when the pattern is found in its code or in one of its cleaned labels; an empty label never matches (`na=False`). */
  predicate Hit(re: Regex, pattern: string, r: Row) {
    || re.foundIn(pattern, r.code)
    || (r.libelleInv.Some? && re.foundIn(pattern, r.libelleInv.value))
    || (r.libelleRec.Some? && re.foundIn(pattern, r.libelleRec.value))
  }

  /** The search step with the label lookup reading the two cleaned-label columns the merge produces. */
  function Filter(re: Regex, pattern: string, merged: seq<Row>): (f: Filtered)
    ensures f.warned <==> pattern != [] && !re.compiles(pattern)
    ensures pattern == [] || !re.compiles(pattern) ==> f.rows == merged
    ensures pattern != [] && re.compiles(pattern) ==>
      && IsSubsequence(f.rows, merged)
      && (forall r :: r in f.rows ==> Hit(re, pattern, r))
      && (forall r :: multiset(f.rows)[r] == if Hit(re, pattern, r) then multiset(merged)[r] else 0)
  {
    if pattern == [] then Filtered(merged, false)
    else if !re.compiles(pattern) then Filtered(merged, true)
    else Filtered(Select(merged, (r: Row) => Hit(re, pattern, r)), false)
  }

  /** The corrected step agrees with the code as written wherever the latter completes, and differs only where it fails. */
  lemma FilterAgreesWhereWrittenCompletes(re: Regex, pattern: string, merged: seq<Row>)
    ensures FilterAsWritten(re, pattern, merged).Completed? ==>
      FilterAsWritten(re, pattern, merged).result == Filter(re, pattern, merged)
    ensures FilterAsWritten(re, pattern, merged).KeyError? <==> pattern != [] && re.compiles(pattern)
  {
  }

  /** The search keeps every row of the merge when every row contains the pattern, and none when no row does. */
  lemma FilterExtremes(re: Regex, pattern: string, merged: seq<Row>)
    requires pattern != [] && re.compiles(pattern)
    ensures (forall r :: r in merged ==> Hit(re, pattern, r)) ==> Filter(re, pattern, merged).rows == merged
    ensures (forall r :: r in merged ==> !Hit(re, pattern, r)) ==> Filter(re, pattern, merged).rows == []
  {
    var f := Filter(re, pattern, merged).rows;
    if forall r :: r in merged ==> Hit(re, pattern, r) {
      assert multiset(f) == multiset(merged);
      SubsequenceOfSameSize(f, merged);
    }
    if forall r :: r in merged ==> !Hit(re, pattern, r) {
      assert multiset(f) == multiset{};
    }
  }

  /** `p` occurs as a contiguous part of `s`. */
  predicate Occurs(p: string, s: string)
    decreases |s|
  {
    p <= s || (s != [] && Occurs(p, s[1..]))
  }

  /** An engine good for patterns without metacharacters, which match themselves. */
  const PlainText: Regex := Regex((p: string) => true, (p: string, s: string) => Occurs(p, s))

  /** A matched article with a difference of 3. */
  const Article1001: Row := Row("1001", Some("Stylo"), Some(10), Some("Stylo"), Some(7), Commun, 3)

  /** Searching for the code of an article that is there: the step as written fails, the corrected step finds it. */
  lemma SearchByCodeExample()
    ensures FilterAsWritten(PlainText, "1001", [Article1001]) == KeyError("Libelle_nettoye")
    ensures Filter(PlainText, "1001", [Article1001]).rows == [Article1001]
  {
    assert Occurs("1001", Article1001.code);
    assert Hit(PlainText, "1001", Article1001);
  }
}
