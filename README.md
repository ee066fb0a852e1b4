# cotizador-riego — a Dafny model of the quotation core

`main.py` is a Streamlit page. It turns two spreadsheets into a priced
quotation for an irrigation project: a bill of materials ("Metrados") and a
price catalog ("Base de Precios"). Users edit the quotation in an editable
table, and the page exports it as a PDF. This project models the part of the
page that computes the quotation:

- **`estandarizar_codigo`** (`codes.dfy`, module `Codes`). It trims and
  upper-cases a product code, maps the blank spellings to the sentinel
  `"S.C"`, and drops a trailing `".0"`. It is modelled on `str(valor)`, as a
  pure function over `string`, together with `str.strip()`, `str.upper()` and
  `str` ordering (`text.dfy`).
- **The initial load** (`merge.dfy`, module `Merge`). It is a pipeline of pure
  functions:
  - normalise the codes of both workbooks;
  - `groupby(Partida, Codigo, Descripcion, Unidades)` summing Cantidad;
  - left-join the prices on Codigo, with a missing price becoming 0;
  - Total = Cantidad × Precio;
  - sort by (Partida, Descripcion);
  - Item = 1..N.

  Generic building blocks sit in their own files:
  - stable sorting, in `sorting.dfy`;
  - group-and-sum, in `grouping.dfy`;
  - column sums, in `sums.dfy`.
- **The "Recalcular" step.** It changes `df_master` in place, in seven
  stages:
  1. drop the rows the user deleted;
  2. overwrite the edited rows;
  3. append the new rows;
  4. `fillna` the text columns;
  5. coerce the numbers and recompute Total;
  6. sort by Item with missing values last;
  7. reset the index and renumber.

  `reconcile.dfy` (module `Reconcile`) gives each stage as a function on a
  table of `Entry(index, row)`, where `index` is the pandas index label.
  `master.dfy` (module `Master`) holds the class `MasterTable`. Its `entries`
  field is that table, and one method per stage reassigns it.
  `MasterTable.Recalculate` runs all seven stages and keeps the class
  invariant `Valid()`: every label equals its position, every Item is
  position + 1, every cell holds a value, and Total = Cantidad × Precio.
- **The money** (`totals.dfy`, module `Totals`):
  - the net total, the 18 % IGV, the sale total and the guarded cost per
    hectare;
  - the `groupby('Partida')` subtotals;
  - the loop of `PresupuestoPDF.chapter_body`, a method with loop invariants
    that returns the chapter total and the printed lines, with descriptions
    cut to 60 characters plus `".."`.

Amounts are exact `real` numbers. A cell that pandas may hold as missing
(NaN/None) is an `Option`.

Points where the code does something one might not expect, which the model keeps:

- Normalising a code is **not** idempotent: `"0.0"` → `"0"` → `"S.C"`
  (`Codes.NormalizeNotIdempotent`).
- The sentinel also comes out for `"S.C.0"`, through the `".0"` rule.
- The clean-up stage only fills *missing* cells (`fillna`). An empty string
  typed into a cell stays empty.
- Codes of rows added or edited in the editor are not re-normalised.

## Model

| member | source | states |
|---|---|---|
| Text.Strip | main.py:156 | `str.strip()`: the result is no longer than the input and neither starts nor ends with whitespace (Python's `isspace` set) |
| Text.StripIsInfix | main.py:156 | what `strip()` removes is whitespace at either end and nothing else: the result is an infix `s[i..j]` with only whitespace before `i` and from `j` on |
| Text.StripKeeps | main.py:156 | text with no whitespace at either end comes back from `strip()` unchanged |
| Text.StrCmp | main.py:176 | Python's `str` comparison, code point by code point with a proper prefix first, answers -1, 0 or 1; its order laws are `Text.StrCmpLaws` |
| Text.Upper | main.py:156 | `str.upper()`: the result holds none of the lower-case ASCII and Latin-1 letters it maps, and any other character is kept |
| Text.StrCmpLaws | main.py:176 | the `str` ordering that groupby and sort_values use is a total order: zero exactly on equal strings, antisymmetric, transitive, strict where one side is strict |
| Codes.NormalizeCode | main.py:155-159 | the result is `"S.C"` exactly when the trimmed upper-cased value is a blank spelling or `"S.C.0"`; a non-blank value ending in `".0"` loses exactly those two characters; any other value comes back trimmed and upper-cased |
| Codes.Canonical | main.py:156 | `str(valor).strip().upper()`; what it keeps and removes is stated by `Text.StripIsInfix`, `Text.Upper` and `Codes.CanonicalOfCanonical` |
| Codes.CanonicalOfCanonical | main.py:156 | text with no whitespace at either end and no letter `upper()` changes is its own trimmed, upper-cased form |
| Codes.UpperConcat | main.py:156 | `upper()` works character by character: it distributes over concatenation |
| Codes.UpperIdempotent | main.py:156 | upper-casing twice is upper-casing once |
| Codes.UpperKeeps | main.py:156 | `upper()` leaves text unchanged when no character of it has an upper-case form |
| Codes.PointZeroIsNotBlank | main.py:157-158 | no blank spelling ends in `".0"`, so the two rules never compete |
| Codes.NormalizeExamples | main.py:155-159 | `"0"` and `"sc"` become `"S.C"`; `"12.0"` (a number read back as text) becomes `"12"` |
| Codes.NormalizePointZero | main.py:158 | `"0.0"` becomes `"0"` |
| Codes.NormalizeNotIdempotent | main.py:155-159 | normalising twice differs from normalising once (`"0.0"` → `"0"` → `"S.C"`) |
| Sums.SumPermutation | main.py:268 | a column sum does not depend on the row order |
| Sorting.SortBy | main.py:181 | the stable sort behind `sort_values`: its result is a permutation of its input; order and stability are `Sorting.SortByIsSorted` and `Sorting.SortByIsStable` |
| Sorting.SortByIndexOf | main.py:181 | sorting loses no element: every input element has a position in the result |
| Sorting.SortBySorted | main.py:262 | a sequence already in order comes back from the sort unchanged |
| Sorting.SortByIsSorted | main.py:181 | the sort used for `sort_values` returns a sorted permutation of its input |
| Sorting.SortByIsStable | main.py:181 | it is stable: for any key, the rows tied with it keep their relative order |
| Sorting.SortByKeepsUntied | main.py:176 | sorting rows with pairwise different keys leaves no ties |
| Grouping.GroupSum | main.py:176 | grouping gives no more groups than items, each key once, no key the input lacks, and each key with the sum of its values |
| Grouping.AddTo | main.py:176 | adding a value to a group: a new key is appended, an existing key's sum grows by the value, the grand total grows by the value |
| Grouping.GroupSumTotal | main.py:176 | grouping keeps the grand total |
| Grouping.KeysOfPermutation | main.py:176 | reordering the groups keeps the set of keys |
| Merge.KeyCmpLaws | main.py:176 | the (Partida, Codigo, Descripcion, Unidades) key order is total: zero exactly on equal keys, antisymmetric, transitive |
| Merge.NormalizeProject | main.py:173 | `apply(estandarizar_codigo)` on the bill of materials; that only the code changes and the quantities are kept is `Merge.QuantitiesTotal` and `Merge.GroupOf` |
| Merge.NormalizePrices | main.py:174 | `apply(estandarizar_codigo)` on the catalog; its codes are the ones the join matches (`Merge.JoinKeepsEveryGroup`, `Merge.InitialQuantity`) |
| Merge.Grouped | main.py:176 | the grouped bill of materials never has more entries than the project has lines; its full contract is `Merge.GroupedTable` |
| Merge.GroupedTable | main.py:176 | the grouped bill of materials has exactly one entry per distinct key, strictly ascending by key, each with the sum of the quantities filed under that key; the total Cantidad is unchanged |
| Merge.Join | main.py:177-179 | the left join has at least one line per grouped line; which lines is `Merge.JoinKeepsEveryGroup` and `Merge.JoinSources` |
| Merge.JoinHasFirstOffer | main.py:177-179 | every grouped line reaches the join at the first price offered for its code |
| Merge.JoinKeepsEveryGroup | main.py:177-179 | the left join drops no grouped line: each appears at every price offered for its code, and a code without a catalog price gives a line with Precio 0 and Total 0; how many lines there are is `Merge.JoinSize` |
| Merge.JoinSources | main.py:177-179 | every joined line comes from a grouped line at one of the prices offered for its code, with Total = Cantidad × Precio |
| Merge.JoinSize | main.py:177 | the join has one line per grouped line and catalog price of its code, one for a code the catalog lacks: at least one per grouped line, exactly one each when every code is in the catalog once |
| Merge.MatchedAtMostOnce | main.py:177 | a catalog without repeated codes offers at most one price per code |
| Merge.JoinQuantity | main.py:177-179 | with at most one price per code, the join's Cantidad adds up to the grouped Cantidad |
| Merge.QuantitiesTotal | main.py:173-176 | normalising codes keeps the sum of the project's Cantidad |
| Merge.InitialLines | main.py:176-181 | the merged, sorted lines: at least one per grouped line; order and origin are `Merge.InitialLinesFacts` and `Merge.InitialLinesStable` |
| Merge.InitialQuantity | main.py:173-181 | with a catalog that lists each normalised code once, the merged table's Cantidad adds up to the bill of materials' Cantidad |
| Merge.InitialLinesFacts | main.py:176-181 | the merged lines are a permutation of the join, sorted by (Partida, Descripcion), each from the grouping at an offered price with Total = Cantidad × Precio |
| Merge.InitialLinesStable | main.py:181 | the (Partida, Descripcion) sort is stable: lines with equal Partida and Descripcion keep the order of the join |
| Merge.InitialTable | main.py:173-183 | the table the session starts from has at least one row per grouped line; its form is `Merge.InitialTableCanonical` |
| Merge.TableOf | main.py:182 | numbering: row i is complete, has Item i + 1, and shows line i |
| Merge.TableOfSorted | main.py:181-182 | numbering keeps the (Partida, Descripcion) order |
| Merge.TableOfNumbered | main.py:179-182 | lines with Total = Cantidad × Precio give rows that are complete and consistent, with Item = position + 1 |
| Merge.InitialTableCanonical | main.py:173-183 | after the initial load, every row is complete with Total = Cantidad × Precio, Item runs 1..N with no gaps or repeats, rows are ordered by (Partida, Descripcion), and each row carries a grouped key, its summed quantity and an offered price |
| Merge.InitialTableKeepsEveryLine | main.py:173-183 | every project line appears under its normalised code in a row whose Cantidad is the sum over its key; with no catalog price, that row has Precio 0 and Total 0 |
| Merge.GroupOf | main.py:173-176 | every project line is filed under a grouped entry with its normalised key and the summed quantity |
| Merge.InitialLineOf | main.py:176-181 | every grouped line reaches the sorted merged table at its first offered price |
| Reconcile.Labels | main.py:237 | the index of a table holds the label of every row |
| Reconcile.DistinctLabelsCount | main.py:237 | with distinct labels, the index has as many labels as the table has rows |
| Reconcile.WithoutLabels | main.py:239 | `drop(index=d, errors='ignore')`: a row remains exactly when it was in the table and its label is not in `d` |
| Reconcile.LabelsWithout | main.py:239 | dropping takes exactly the labels in `d` out of the index |
| Reconcile.WithoutLabelsCount | main.py:237-239 | dropping removes one row per label of `d` that is present, and keeps labels distinct |
| Reconcile.Lookup | main.py:243 | the edited row for a label is found exactly when the edited table holds that label |
| Reconcile.LookupDistinct | main.py:243 | with distinct edited labels, the row found is the one filed under that label |
| Reconcile.Overwritten | main.py:242-243 | overwrite keeps count and labels; a row whose label the edited table lacks is unchanged; any other row becomes an edited row |
| Reconcile.OverwriteTakesEditedRow | main.py:242-243 | a row whose label the edited table holds becomes exactly the edited row with that label |
| Reconcile.Appended | main.py:246-248 | appending keeps the existing rows, in order, in front, and every row after them is an edited row whose label the table lacked |
| Reconcile.AppendedRows | main.py:246-248 | the appended rows are exactly the edited rows whose label is new to the table, in ascending label order |
| Reconcile.FillRow | main.py:251-254 | only missing text cells change, to `"NUEVO SISTEMA"`, `""`, `"S.C"` and `"Und."`; present cells and the numbers are untouched |
| Reconcile.Filled | main.py:251-254 | filling applies to every row and keeps the labels |
| Reconcile.RecomputeRow | main.py:257-259 | a missing Cantidad or Precio becomes 0, and Total becomes Cantidad × Precio; the text cells and Item are untouched |
| Reconcile.Recomputed | main.py:257-259 | recomputing applies to every row and keeps the labels |
| Reconcile.CleanKeepsCompleteRow | main.py:251-259 | cleaning leaves a complete, consistent row exactly as it was |
| Reconcile.CleanCompletes | main.py:251-259 | after cleaning, every cell but Item holds a value and Total = Cantidad × Precio |
| Reconcile.LeItemTotalPreorder | main.py:262 | "by Item, missing last" is a total preorder |
| Reconcile.Renumbered | main.py:262-263 | `reset_index` plus renumbering: row i gets label i and Item i + 1, the other cells unchanged |
| Reconcile.Deleted | main.py:237 | `df_view.index.difference(edited_df.index)`; that exactly these rows go is `Reconcile.DeletesOnlyRemovedRows` |
| Reconcile.Merged | main.py:237-248 | after delete, overwrite and append, every row comes from the old table or from the edits; none is made up |
| Reconcile.Cleaned | main.py:251-259 | after the clean-up, row for row the merged table with every cell but Item present and Total = Cantidad × Precio |
| Reconcile.Reconciled | main.py:236-263 | the recalculated table has as many rows as the merged table, row i with label i and Item i + 1; the rest of its contract is `Reconcile.ReconciledCanonical` and `Reconcile.ReconciledOrder` |
| Reconcile.ReconciledCanonical | main.py:236-263 | after a recalculation every row has Partida, Descripcion, Codigo and Unidades, numeric Cantidad and Precio, Total = Cantidad × Precio, label = position and Item = position + 1, whatever the table and the edits were |
| Reconcile.RenumberedCanonical | main.py:262-263 | renumbering cleaned rows gives the canonical form |
| Reconcile.ReconciledOrder | main.py:262-263 | the new row order is a stable sort of the cleaned rows by their previous Item, missing last: a permutation, sorted, ties in their old order |
| Reconcile.DeletesOnlyRemovedRows | main.py:237-239 | deletion removes exactly the rows whose label was shown in the view and is missing from the edits; a row the view did not show is never deleted |
| Reconcile.HiddenRowUntouched | main.py:237-243 | a row the view hid, whose label the edits do not hold, comes through deletion and overwrite unchanged |
| Reconcile.HiddenRowSurvives | main.py:236-263 | such a row is in the recalculated table, unchanged but for its new Item |
| Reconcile.MergedCount | main.py:237-248 | after the append, the row count is the old count, less the deleted rows, plus the edited rows with a new label; labels stay distinct; the later stages keep the count |
| Reconcile.AppendDistinct | main.py:248 | appending rows with new, distinct labels keeps the labels distinct |
| Reconcile.WithoutAbsentLabels | main.py:239 | dropping labels the table does not hold changes nothing (`errors='ignore'`) |
| Reconcile.OverwrittenTo | main.py:242-243 | when the edits hold only rows of `u` and hold every row where `u` differs from the table, overwriting gives exactly `u` |
| Reconcile.AppendedNothing | main.py:246-248 | when every edited label is already in the table, nothing is appended |
| Reconcile.MergedTo | main.py:237-248 | with nothing deleted, delete, overwrite and append turn the table into the edited version `u` |
| Reconcile.RenumberedNumbered | main.py:262-263 | a table already numbered 1..N under labels 0..N-1 is left as it is by the sort and the renumbering |
| Reconcile.ReconciledUnedited | main.py:236-263 | pressing "Recalcular" with nothing deleted and every edited row a row of the table leaves the table exactly as it was |
| Reconcile.ReconciledAgain | main.py:236-263 | a second press with nothing changed keeps the table the first press made |
| Reconcile.WithPrecio | main.py:211-227 | the editor's output after one Precio is changed: that row's Precio is the new one and every other row is as it was |
| Reconcile.ReconciledPriceEdit | main.py:236-263 | when only row k's Precio changed, the recalculated table differs from the old one only in row k's Precio and Total, with Total = Cantidad × new Precio; every Item and the row order are kept |
| Reconcile.PriceEditCleaned | main.py:251-259 | cleaning a complete row whose Precio changed recomputes its Total and changes nothing else |
| Master.Labelled | main.py:181 | a fresh `RangeIndex`: row i has label i |
| Master.LabelledCanonical | main.py:181-183 | numbered rows under a fresh index are in canonical form |
| Master.LoadedCanonical | main.py:164-183 | the initial load leaves the table in canonical form |
| Master.RowsOf | main.py:268 | the rows of the table, without their labels, in order |
| Master.CanonicalTotals | main.py:268-278 | on a canonical table, the net total is Σ Cantidad × Precio and the per-Partida subtotals add up to it |
| Master.MasterTable.Load | main.py:164-183 | the initial load stores the numbered merged table under a fresh index and establishes `Valid()` |
| Master.MasterTable.DropDeleted | main.py:237-239 | stage 1: the table becomes the old table without the deleted labels |
| Master.MasterTable.OverwriteExisting | main.py:242-243 | stage 2: the table becomes the old table with the edited rows written over |
| Master.MasterTable.AppendNew | main.py:246-248 | stage 3: the table becomes the old table followed by the new edited rows |
| Master.MasterTable.FillMissing | main.py:251-254 | stage 4: the table becomes the old table with the text cells filled |
| Master.MasterTable.RecomputeTotals | main.py:257-259 | stage 5: the table becomes the old table with numbers coerced and totals recomputed |
| Master.MasterTable.SortAndRenumber | main.py:262-263 | stages 6 and 7: the table becomes the old table sorted by Item, missing last, and renumbered |
| Master.MasterTable.Recalculate | main.py:236-263 | one press of "Recalcular" leaves the table equal to the reconciled table and keeps `Valid()`; with nothing deleted and nothing edited, the table is unchanged |
| Totals.Summarize | main.py:268-271 | IGV = 0.18 × net; sale total = net + IGV = 1.18 × net; with a positive area, cost per hectare × area = sale total; otherwise cost per hectare is 0 (no division by zero) |
| Totals.NetTotal | main.py:268 | `df_master['Total'].sum()`, a missing Total adding nothing; its meaning on canonical tables is `Totals.NetTotalOfConsistent` |
| Totals.SummaryExample | main.py:268-271 | a line of 50 and an unpriced line (Precio 0, Total 0) on 10 ha give net 50, IGV 9, sale total 59 and 5.9 per hectare |
| Totals.NetTotalOfConsistent | main.py:268 | on rows with Total = Cantidad × Precio, the net total is Σ Cantidad × Precio |
| Totals.LeNameTotalPreorder | main.py:278 | ordering by Partida name is a total preorder whose ties are equal names |
| Totals.PartidaTotals | main.py:278 | the (Partida, Total) pairs `groupby('Partida')` adds up, at most one per row; their sum is `Totals.PartidaTotalsTotal` |
| Totals.Subtotals | main.py:278 | `groupby('Partida')[['Total']].sum()`; its contract is `Totals.SubtotalsTable` and `Totals.SubtotalsAddUpToNet` |
| Totals.SubtotalsTable | main.py:278 | one subtotal per Partida that occurs, strictly ascending by name, each the sum of the Totals of that Partida's rows |
| Totals.SubtotalsAddUpToNet | main.py:268-278 | with a Partida on every row, the subtotals add up to the net total |
| Totals.PartidaTotalsTotal | main.py:278 | with a Partida on every row, the (Partida, Total) pairs sum to the net total |
| Totals.PartidaRows | main.py:394 | `df[df['Partida'] == p]` has no more rows than the table; which rows is `Totals.PartidaRowsMembers` |
| Totals.PartidaRowsMembers | main.py:394 | a chapter's rows are exactly the table rows of its Partida |
| Totals.ChapterRows | main.py:394-396 | a chapter is a permutation of its Partida's rows; its order is `Totals.ChapterRowsOrder` |
| Totals.ChapterRowsOrder | main.py:394-396 | a chapter holds its Partida's rows, largest Total first |
| Totals.Truncated | main.py:109 | a description of up to 60 characters is printed as is; a longer one is printed as its first 60 characters followed by `".."` (at most 62 characters) |
| Totals.TruncatedIdempotent | main.py:109 | truncating a printed description again changes nothing |
| Totals.ChapterTotal | main.py:105-131 | what `chapter_body` returns, Σ Cantidad × Precio over the chapter's rows; that the loop computes it is `Totals.ChapterBody` |
| Totals.ChapterTotalStep | main.py:125 | each row adds its Cantidad × Precio to the chapter total |
| Totals.ChapterBody | main.py:105-131 | the returned chapter total is Σ Cantidad × Precio over the rows; one line per row, in order, with Item as an integer, truncated description, Cantidad, Precio and their product, shaded on every second line |
| Totals.ChapterTotalIsSubtotal | main.py:392-399 | on rows with Total = Cantidad × Precio, the chapter total of Partida p equals the `groupby('Partida')` subtotal of p, whatever the chapter's row order |
| Totals.PartidaRowsSum | main.py:394 | on such rows, Σ Cantidad × Precio over Partida p's rows equals p's grouped Total |

## Left out

- The Streamlit user interface is not modelled:
  - the sidebar inputs, `data_editor`, the buttons, `st.rerun` and the markdown/CSS;
  - the view's search filter and sort (main.py:186-234);
  - instead, `Recalculate` takes the view's index labels and the edited table as parameters.
- Reading the workbooks (`pd.read_excel`), trimming column names and renaming `Código` are left out (main.py:165-171). The model takes parsed record sequences, and each code cell is given as the text `str()` makes of it.
- PDF layout (fonts, cells, colours, header, footer), the plotly chart, the kaleido/Pillow PNG export, temporary files and `limpiar_texto` are left out. They are drawing, I/O and a Latin-1 codec. Only the arithmetic and the truncation of `chapter_body` are kept.
- Binary floating point and the `:,.2f` formatting are not modelled. Amounts are exact reals.
- The numbering column `N°` of the PDF summary (main.py:340) is not modelled. It is display only.
- `pd.to_numeric(errors='coerce')` is modelled with a non-numeric cell as missing (`None`).
- The grouping key of the initial load is taken as present text. pandas' `groupby` would drop a line with a NaN key.
- The `except` catch-all (main.py:471-473) and the session-state globals are left out. The table is passed explicitly.
- Reconcile.HiddenRowSurvives and Reconcile.HiddenRowUntouched: require that the edited table does not hold the hidden row's label. The label `data_editor` gives an added row is not part of this model. When an edited row does carry a hidden row's label, the model, like the code at main.py:242-243, overwrites the hidden row with it.
- Reconcile.OverwriteTakesEditedRow: requires distinct labels in the edited table. With duplicates, pandas' `.loc` assignment behaves differently.
- Reconcile.MergedCount: requires distinct labels, in the table and in the edited table, for the same reason.
- Reconcile.ReconciledOrder: fixes the stable order among rows with equal Item. pandas' default quicksort leaves that order unspecified.
- Totals.ChapterBody: requires Item, Cantidad and Precio to be present. `str(int(row['Item']))` raises on a missing Item, and NaN arithmetic is not modelled. On the canonical tables the page prints, the requirement holds.
- Totals.ChapterRows: a missing Total sorts as 0, where `sort_values(by='Total', ascending=False)` puts NaN last. Canonical tables have no missing Total. The model also keeps rows with equal Total in table order. pandas' default quicksort leaves that order unspecified.
- Totals.SubtotalsAddUpToNet: requires a Partida on every row, because `groupby('Partida')` drops rows without one. Canonical tables meet this (`Master.CanonicalTotals`).
- Merge.JoinQuantity: requires at most one price per code. A code listed twice in the catalog repeats the line in the left join.
- Merge.InitialQuantity: requires each normalised code to appear once in the catalog, for the same reason.
- Item is an `int`. The editor's number column for Item (main.py:214) would also accept a fractional value, which the model cannot hold.
- Text.Upper: models `str.upper()` for ASCII and Latin-1 only. Other characters are kept as they are.
