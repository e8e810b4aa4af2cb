# Inventory vs. reception comparison: a Dafny model

`app.py` is a Streamlit page that compares the two sheets of an uploaded
workbook, `Inventaire` (what was counted) and `Reception` (what was received).
This project models its reconciliation pipeline and proves properties of it:

- **Label cleaner.** Each label loses its leading run of article-prefix tokens
  (an ASCII letter, then digits, then optional whitespace), and the rest is
  trimmed (`Labels`).
- **Projection.** Each sheet is reduced to code, cleaned label and quantity
  (`Reconciliation.Project`).
- **Outer merge.** The two sheets are joined on `Code article`, with an
  indicator that is mapped to `Commun`, `Seulement Inventaire` or
  `Seulement Réception`. The difference is `Diff = Qty_Inv − Qty_Rec`, where
  an empty quantity counts as 0 (`Reconciliation`).
- **Search.** A regular expression filters the merged rows. It is modelled
  twice: as written, where it fails, and as corrected (`Search`; see Findings).
- **Views.** The rows are split into three views by Appartenance, and
  `highlight_diff` gives each on-screen row its style (`Display`).
- **Export.** Three sheets are written through a writer object, each with
  one conditional format on its `Diff` column (`Export`).
- **Whole page.** Everything from the workbook to the three views
  (`Pipeline`).

The regular-expression engine is a parameter: a predicate saying whether a
pattern compiles, and one saying whether it is found in a text. The label
pattern `^(?:[A-Za-z]\d+\s*)+` is modelled concretely. A small automaton
serves as an independent definition of "a run of tokens", and
`Labels.CleanLabelRemovesLongestRun` proves that the cleaner removes the
longest prefix the automaton accepts.

The merge is specified by `Reconciliation.OuterJoinCount`, which is the
multiplicity of every row in the relational full outer join. The model also
fixes one row order:

1. each inventory row, in sheet order, followed by its reception matches in
   sheet order;
2. then the unmatched reception rows.

pandas orders the rows of an outer merge by key instead. No property here
depends on the order of the merged rows.

Three facts about the code shape the model:

- **Case.** `str.contains` gets no case flag (app.py:61-62), so the search
  is case-sensitive.
- **Export highlight.** The conditional format covers only the `Diff`
  column (app.py:105), not whole rows.
- **Idempotence.** The cleaner is not idempotent: `" A1 X"` cleans to
  `"A1 X"`, which in turn cleans to `"X"`, because the anchored substitution
  runs before the trim. `Labels.CleanLabelIdempotentIff` proves exactly when
  cleaning twice equals cleaning once.

## Model

| member | source | states |
|---|---|---|
| `Base.Select` | app.py:64 | boolean indexing `df[mask]` keeps, in order, exactly the rows the mask holds for, each as often as before |
| `Base.IndexOf` | app.py:101 | `list.index` gives the position of the first occurrence |
| `Labels.SkipDigits` | app.py:38-39 | `\d+` inside a token is greedy: every position it passes holds a digit, and it stops at the end or at a non-digit |
| `Labels.SkipSpaces` | app.py:38-39 | `\s*` after a token is greedy: every position it passes holds whitespace, and it stops at the end or at a non-space |
| `Labels.Strip` | app.py:38-39 | `strip()` gives a result with no whitespace at either end, made of the characters that follow the leading whitespace. Only whitespace is cut from the end, and the result is empty only when the input is all whitespace |
| `Labels.CleanLabel` | app.py:38-39 | the cleaned label is never longer than the label, and has no whitespace at either end |
| `Labels.CleanLabelRemovesLongestRun` | app.py:38-39 | the cleaner removes exactly the longest prefix that is a run of tokens, by the reference automaton, then trims the rest |
| `Labels.CleanLabelOnlyStrips` | app.py:38-39 | a label that does not start with a letter followed by a digit is only trimmed |
| `Labels.CleanLabelNoTokenSurvives` | app.py:38-39 | when the label starts with a token, the cleaned label does not start with a letter followed by a digit |
| `Labels.CleanLabelFixedPoint` | app.py:38-39 | a trimmed label without a leading token is left unchanged |
| `Labels.CleanLabelIdempotentIff` | app.py:38-39 | cleaning twice equals cleaning once exactly when the label starts with a token or its trimmed form does not |
| `Labels.CleanLabelExample` | app.py:38-39 | `"A12 B34 Widget Deluxe"` cleans to `"Widget Deluxe"` |
| `Labels.LeadingBlankExample` | app.py:38-39 | `" A1 X"` cleans to `"A1 X"`, which cleans to `"X"` |
| `Reconciliation.Project` | app.py:41-42 | one row per sheet row. The code and quantity are kept, the label is replaced by its cleaned form, which is trimmed and no longer |
| `Reconciliation.ProjectKeepsCodes` | app.py:41-42 | the projection has the same set of article codes as the sheet |
| `Reconciliation.MergeIsOuterJoin` | app.py:44-48 | every merged row occurs as often as in the full outer join on the code. A matched row occurs once per pair of inventory and reception rows. An unmatched row occurs once per source row, with the other side empty |
| `Reconciliation.MergeShape` | app.py:44-48 | every merged row is a matched pair of source rows, or a source row whose code the other sheet lacks |
| `Reconciliation.Classification` | app.py:47-53 | the indicator is `both` iff the code is on both sheets. It is `left_only` iff the code is missing from the reception sheet, and `right_only` iff it is missing from the inventory sheet. A side contributed its label iff the article came from that side |
| `Reconciliation.CodeHasRow` | app.py:44-48 | every code of either sheet has a row in the merge |
| `Reconciliation.PairOccurs` | app.py:44-48 | every pair of inventory and reception rows with the same code appears in the merge |
| `Reconciliation.MergeCodes` | app.py:44-48 | the merged codes are exactly the union of both sheets' codes |
| `Reconciliation.Appartenance` | app.py:49-53 | the mapped indicator is one of `Commun`, `Seulement Inventaire`, `Seulement Réception` |
| `Reconciliation.AppartenanceRoundTrip` | app.py:49-53 | the indicator can be read back from its Appartenance text, so the mapping loses nothing |
| `Reconciliation.AnnotateRoundTrip` | app.py:49-54 | the merged row can be read back from its annotated row |
| `Reconciliation.AnnotateAll` | app.py:49-54 | adding Appartenance and Diff keeps the number of rows, and each row still carries its merged row |
| `Reconciliation.AnnotateAllCount` | app.py:49-54 | each annotated row occurs as often as the merged row it comes from |
| `Reconciliation.ReconcileRows` | app.py:44-54 | every row of `merged` is the annotation of a row of the outer merge |
| `Reconciliation.DiffMeaning` | app.py:54 | `Diff` is `Qty_Inv − Qty_Rec` with empty as 0. An inventory-only row has `Diff = Qty_Inv` and an empty reception quantity. A reception-only row has `Diff = −Qty_Rec` and an empty inventory quantity |
| `Reconciliation.AppartenanceMeaning` | app.py:44-53 | a row of `merged` shows `Commun` iff its code is on both uploaded sheets, `Seulement Inventaire` iff the reception sheet lacks it, and `Seulement Réception` iff the inventory sheet lacks it |
| `Reconciliation.ReconcileCount` | app.py:44-54 | the rows of `merged` occur as often as in the outer join of the projected sheets |
| `Search.LabelColumnMissing` | app.py:62 | `Libelle_nettoye` is not a column of `merged`; only its `_Inv` and `_Rec` forms are |
| `Search.FilterAsWritten` | app.py:57-66 | as written, the step completes exactly when the pattern is empty or does not compile. It then leaves `merged` unchanged and warns iff the pattern is not empty. Otherwise it stops with a `KeyError` on a column `merged` lacks |
| `Search.Filter` | app.py:57-66 | the warning is shown iff the pattern is non-empty and invalid. An empty or invalid pattern keeps `merged`. A valid one keeps, in order, exactly the rows whose code or a cleaned label contains a match, each as often as before |
| `Search.FilterAgreesWhereWrittenCompletes` | app.py:57-66 | the corrected step equals the written one wherever the latter completes, and the written one fails exactly on non-empty valid patterns |
| `Search.FilterExtremes` | app.py:60-64 | a valid pattern that every row contains keeps `merged` whole, and one that no row contains keeps nothing |
| `Search.SearchByCodeExample` | app.py:60-62 | searching `"1001"` in a frame holding article 1001 fails as written and finds the row when corrected |
| `Display.RowsWith` | app.py:69-71 | selecting by Appartenance keeps the order, only keeps rows with that text, and keeps each of them as often as before |
| `Display.ReconcileClassified` | app.py:49-53 | every row of `merged` carries one of the three Appartenance texts |
| `Display.ViewsDisjoint` | app.py:69-71 | two views selected by different texts share no row |
| `Display.PartitionSpec` | app.py:69-71 | the three views keep the input order and are each homogeneous and pairwise disjoint. Over a classified frame they are together a permutation of it |
| `Display.PartitionCount` | app.py:69-71 | each row of a classified frame is counted in exactly one view |
| `Display.PartitionCovers` | app.py:69-71 | over a classified frame, the three views hold every row exactly as often as the frame and add up to its length |
| `Display.HighlightDiff` | app.py:74-75 | one style per column. All styles are equal, and each is the highlight style when `Diff != 0` and empty otherwise |
| `Export.Writer.constructor` | app.py:87 | a new writer holds no sheet |
| `Export.Writer.ToExcel` | app.py:93 | the new sheet, with its header and rows and no format, is added after the existing ones. Names stay distinct |
| `Export.Writer.ConditionalFormat` | app.py:94-106 | the rule is added to the sheet of that name, and every other sheet is unchanged |
| `Export.DiffColumnIsDiff` | app.py:99-101 | `Diff` is in the header, at index 6 |
| `Export.WriteSheet` | app.py:93-106 | one loop pass adds that sheet with its frame and the single rule on its Diff column |
| `Export.Export` | app.py:87-106 | the loop produces exactly the three sheets of `Layout` |
| `Export.ExportLayout` | app.py:88-106 | three sheets in the order `Articles_communs`, `Inventaire_uniquement`, `Reception_uniquement`, each with its view, the merged header, and one `!= 0` rule covering rows 1..len of column 6 |
| `Export.ExportHighlights` | app.py:102-106 | in every sheet as written, a cell gets the format exactly when it is the Diff cell of a data row whose Diff is not 0, or the `Diff` header of a sheet without data rows (the reversed range 1..0 becomes 0..1) |
| `Export.EmptySheetHighlightsHeader` | app.py:103-106 | an exported sheet without data rows has its `Diff` header cell highlighted |
| `Export.IntendedSheetFor` | app.py:93-106 | the intended sheet equals the written one when the frame has rows, and carries no rule when it has none |
| `Export.IntendedLayout` | app.py:88-106 | the intended workbook is the exported one, with the Diff rule dropped from every sheet without data rows |
| `Export.IntendedHighlights` | app.py:102-106 | in every intended sheet, a cell gets the format exactly when it is the Diff cell of a data row whose Diff is not 0 |
| `Export.ExportAgreesWithScreen` | app.py:74-106 | a data row's Diff cell gets the export format exactly when the on-screen row is highlighted, both as written and as intended |
| `Pipeline.CompareAsWritten` | app.py:29-71 | as written, the page stops iff a sheet is missing, naming `Inventaire` first, or the pattern is non-empty and compiles, with a `KeyError` on `Libelle_nettoye`. When it does not stop, it shows what `Pipeline.Compare` shows |
| `Pipeline.Compare` | app.py:29-71 | with the corrected search, the comparison fails iff a sheet is missing, naming `Inventaire` first, then `Reception`. On success it warns iff the pattern is non-empty and invalid |
| `Pipeline.CompareShowsJoin` | app.py:44-71 | every outer-join row the search keeps is shown in the view of its Appartenance, as often as the join produces it, and a row the search drops is not shown |
| `Pipeline.FilterClassified` | app.py:57-66 | the search keeps the three Appartenance texts |
| `Pipeline.CompareViewsComplete` | app.py:57-71 | the three views together are exactly the rows the search keeps. Without a working pattern, their lengths add up to the size of the merge |
| `Pipeline.CommonArticle` | app.py:44-54 | an article on both sheets gives one common row |
| `Pipeline.InventoryOnlyArticle` | app.py:44-54 | an article only on the inventory sheet gives one inventory-only row |
| `Pipeline.ReceptionOnlyArticle` | app.py:44-54 | an article only on the reception sheet gives one reception-only row |
| `Pipeline.Scenarios` | app.py:44-75 | 1001 counted 10 and received 7 is common with Diff 3, highlighted. 2002 counted 5 and never received is inventory-only with Diff 5, highlighted. 3003 counted and received 4 is common with Diff 0, not highlighted |

## Left out

- The page itself is not modelled: the Streamlit UI (title, logo, upload, tabs, `st.dataframe`, `reset_index`, download button) and all I/O.
- Reading the workbook (`pd.read_excel` with openpyxl) is a map from sheet name to rows. Only a missing sheet is modelled as a read error.
- The workbook bytes that xlsxwriter writes into a `BytesIO` are not modelled. `workbook.add_format` is reduced to the colour stored in the rule.
- `Pipeline.Compare`, `Pipeline.CompareShowsJoin`, `Pipeline.CompareViewsComplete` and `Pipeline.FilterClassified` describe the page with the corrected search (`Search.Filter`). As written, the page stops on every non-empty pattern that compiles, which `Pipeline.CompareAsWritten` models.
- `Export.Export` writes the workbook as the code does, so it puts the Diff rule on empty sheets too. The intended workbook (`Export.IntendedLayout`) is stated as a value, not produced by a second loop.
- How Excel compares cells is an assumption of `Export.Satisfies`: a blank cell counts as 0, and a text is unequal to any number. Inside the rule's range, a text cell occurs only as the `Diff` header of a sheet without data rows.
- `Export.Writer.ToExcel` writes to a name not already in use. Writing twice to one sheet name is not modelled, because the export uses three distinct names.
- The trimming of column names (app.py:36-37) is not modelled: column names are taken as already trimmed.
- The crash when `Libelle` is missing (app.py:38) is not modelled. Neither is the `KeyError` when a quantity column is missing (app.py:41-42).
- Labels are taken after `str(x)`. A missing label, which `str` turns into `"nan"`, is not modelled.
- Codes are strings, as `astype(str)` renders them. Numeric codes, float rendering and NaN keys are not modelled.
- Quantities are `Option<int>`, with `None` for an empty cell and `fillna(0)` as `GetOr(0)`. Fractional quantities are not modelled.
- Only ASCII digits count as `\d`. Python's `\d` also matches other Unicode decimal digits.
- The regular-expression engine is a parameter, except for the fixed label pattern. Case-sensitivity is inherited from the engine, which receives the pattern and the text unchanged.
- `Search.Filter`: a missing label never matches, as `na=False` intends. A literal reading of `astype(str)` would instead search the text `"nan"`.
- The pandas order of the outer merge's rows (keys sorted) is not modelled. Every property of the merge is stated per row and multiplicity, so it holds whatever the order.

## Findings

| source | as written | input that shows it | evidently intended | confidence | as-written member | corrected member |
|---|---|---|---|---|---|---|
| app.py:103-106 | on a view without rows the rule spans rows 1 to 0 of the Diff column. xlsxwriter swaps that range to rows 0 to 1, and the header cell `Diff` is a text, which `!= 0` holds for, so the header is highlighted | a workbook in which every received article was also counted, so that `Reception_uniquement` has no rows | no cell of a sheet without data rows is highlighted | not executed | `Export.ExportHighlights` (with `Export.EmptySheetHighlightsHeader`) | `Export.IntendedHighlights` |
| app.py:62 | the search reads `merged['Libelle_nettoye']`, but the merge at app.py:44-48 renamed that column to `Libelle_nettoye_Inv` and `Libelle_nettoye_Rec`. Any non-empty pattern that compiles raises an uncaught `KeyError` (only `re.error` is caught at app.py:65) | a workbook with article 1001 and the search pattern `1001` | keep the rows whose code or either cleaned label contains a match | not executed | `Search.FilterAsWritten` (with `Search.SearchByCodeExample`) | `Search.Filter` |
