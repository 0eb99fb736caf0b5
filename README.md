# Verification panel: table reconstruction and field loading

`VerificationPanel.tsx` is the screen on which a user checks what was extracted from
a document batch. Beneath its markup it holds four pieces of logic, which this
project models in Dafny:

- **Header columns** (`HeaderColumns`). The extracted table arrives as a flat
  list of cells. Each header row is a list of indices into it. A `reduce` turns
  a header row into `<th>` columns. An index that denotes no cell is skipped.
  An index equal to the one just before it widens the *last* column. An index
  whose text some column already shows widens that column. Any other index
  opens a new column with colSpan 1 and rowSpan 1. In header row 1 a new column
  is blanked unless its text is one of four fixed labels. `Merge` is the fold,
  and `MergeHeaderRow` is the loop that updates the accumulated columns index
  by index, proved equal to it.
- **Data rows** (`DataRows`). A data row is kept when one of its indices
  denotes a cell on the current page. A kept row then shows *every* cell its
  indices denote, including cells on other pages.
- **Field loading** (`Keys`, `FieldsLoading`). The selected item's key
  `"level-id-…"` is split on hyphens and its segments are read with `Number`.
  The level chooses the batch, folder or document endpoint. A page whose
  document's fields are already stored is not reloaded. A batch or folder whose
  key equals the stored key is not refetched. The response decides the stored
  `(keyItem, fields)` pair. The functions `Reloaded`, `Invoked` and `Completed`
  state this logic over a store record.
- **Panel state** (`Panel`). The class `VerificationPanel` holds the fields slice,
  `isLoading`, `fullScreen`, `height` and `currentPage`. Its methods
  (`ReloadFields`, `InvokeApi`, `SettleRequest`, `HandleFullscreen`, the pager
  buttons) are proved against the functions above.

The network is abstracted. `ReloadFields` returns the call it would make, and
`SettleRequest` applies whatever response that call settles with: success with
data, success without data, failure, or a rejected promise. Whether a batch is
loaded is a parameter. The values of the application's batch-level enumeration
are defined outside `VerificationPanel.tsx` (imported at line 7), so they are a
`Levels` parameter. Lemmas that need
them distinct say so.

Some consequences of the code as written are proved as lemmas:

- Outside header row 1, when `a` and `b` show different texts, the last `a` in
  the row `[a, b, a, a]` widens b's column, not a's
  (`RepeatAfterOtherWidensLastColumn`).
- In header row 1, a non-blank text outside the kept four labels that reappears
  at an index other than the one just before it opens another blank column
  instead of widening one. The same index repeated right away widens the blank
  column (`RowOneRepeatOpensBlank`).
- A document-level selection is refetched every time. The key built for the
  document endpoint is a new array, which `===` never matches
  (`DocumentAlwaysRefetched`).
- The early return for pages does not check the stored key's level. Stored
  folder fields therefore also cover a page whose document id equals the
  folder id (`StoredLevelNotCompared`).
- With no batch loaded, `isLoading` stays on for a key of one of the four
  levels that the page early return does not catch (`ReloadWithoutBatch`).

## Model

| member | source | states |
|---|---|---|
| `HeaderColumns.Find` | VerificationPanel.tsx:114-118 | the lookup returns the first column showing the text, or none exactly when no column shows it |
| `HeaderColumns.Step` | VerificationPanel.tsx:103-138 | one call of the reduce callback keeps every existing column's text and adds at most one column |
| `HeaderColumns.Merge` | VerificationPanel.tsx:105-108 | whenever a row's last index denotes a cell, the row has a column, so "widen the last column" always has one to widen |
| `HeaderColumns.MergeHeaderRow` | VerificationPanel.tsx:98-139 | the in-place loop over a header row yields exactly the fold `Merge` of the reduce callback |
| `HeaderColumns.HeaderRows` | VerificationPanel.tsx:96-149 | every header row, by its row index, becomes its merged columns |
| `HeaderColumns.MergeSpans` | VerificationPanel.tsx:98-138 | the colSpans add up to the number of indices that denote a cell; every column has colSpan at least 1 and rowSpan 1; there are never more columns than such indices |
| `HeaderColumns.MergeDistinct` | VerificationPanel.tsx:110-135 | no two columns of a row show the same non-blank text |
| `HeaderColumns.MergeFirstAppearance` | VerificationPanel.tsx:105-135 | outside row 1 the columns show the row's cell texts, each once, in order of first appearance |
| `HeaderColumns.MergeRowOneLabels` | VerificationPanel.tsx:122-133 | in header row 1 every column is blank or one of the four kept labels |
| `HeaderColumns.MergeRowOne` | VerificationPanel.tsx:122-133 | the non-blank columns of row 1 show the row's kept labels, each once, in order of first appearance |
| `HeaderColumns.MergeSkip` | VerificationPanel.tsx:103-105 | an index that denotes no cell leaves the columns unchanged |
| `HeaderColumns.MergeRepeat` | VerificationPanel.tsx:107-108 | an index equal to the one just before it widens the last column, and there is one to widen |
| `HeaderColumns.MergeExisting` | VerificationPanel.tsx:110-120 | otherwise an index whose text the lookup finds in a column widens that column |
| `HeaderColumns.MergeOpen` | VerificationPanel.tsx:121-134 | otherwise an index whose text no column shows opens a column with its label, colSpan 1 and rowSpan 1 |
| `HeaderColumns.RepeatAfterOtherWidensLastColumn` | VerificationPanel.tsx:107-120 | outside header row 1, for any two indices with different texts, the row [p, q, p, p] gives both columns colSpan 2: the last repeat widens q's column |
| `HeaderColumns.RowOneRepeatOpensBlank` | VerificationPanel.tsx:107-134 | in header row 1, two different indices with the same non-blank text outside the kept labels open two blank columns; the same index twice in a row gives one blank column of colSpan 2 |
| `DataRows.PageNumbers` | VerificationPanel.tsx:85-89 | one page entry per index, `undefined` exactly where the index denotes no cell |
| `DataRows.OnPageIff` | VerificationPanel.tsx:85-90 | the mapped page numbers include the current page exactly when one of the row's indices denotes a cell on that page |
| `DataRows.OnPage` | VerificationPanel.tsx:90 | the filter test holds exactly when one of the row's indices denotes a cell on the current page |
| `DataRows.FilterRows` | VerificationPanel.tsx:84-91 | the filter never yields more rows than the data holds |
| `DataRows.FilterRowsKeeps` | VerificationPanel.tsx:84-91 | a row is kept exactly when it is a data row that passes the page test |
| `DataRows.FilterRowsSubsequence` | VerificationPanel.tsx:84-91 | the kept rows are a subsequence of the data rows, in their order |
| `DataRows.FilterRowsAppend` | VerificationPanel.tsx:84-91 | filtering concatenated runs of rows is concatenating their filterings |
| `DataRows.RenderRow` | VerificationPanel.tsx:154-157 | a row shows one cell per index that denotes a cell |
| `DataRows.RenderRowShows` | VerificationPanel.tsx:154-167 | a row shows a cell exactly when one of its indices denotes it |
| `DataRows.RenderRowAppend` | VerificationPanel.tsx:154-168 | the cells of concatenated runs of indices are shown in run order |
| `DataRows.Body` | VerificationPanel.tsx:152-170 | the body has no more rows than the data, and every body row shows a cell of the current page |
| `DataRows.RowsOffThePageDropped` | VerificationPanel.tsx:84-91 | a data row with no index denoting a cell of the current page is not rendered |
| `Keys.Split` | VerificationPanel.tsx:232-233 | `split('-')` yields at least one piece and no piece holds a hyphen |
| `Keys.JoinSplit` | VerificationPanel.tsx:248 | joining the pieces of a split with hyphens gives back the key |
| `Keys.SplitJoin` | VerificationPanel.tsx:248 | splitting hyphen-joined hyphen-free pieces gives back the pieces |
| `Keys.SplitSingle` | VerificationPanel.tsx:248 | `split('-')` yields a single piece exactly when the key holds no hyphen |
| `Keys.ToNumber` | VerificationPanel.tsx:232-233 | `Number` never yields `undefined`, and yields a number exactly for a present string of digits |
| `Keys.Text` | VerificationPanel.tsx:187 | the template text of a number, `NaN` or `undefined` never holds a hyphen, so it stays one segment of the built key |
| `Keys.DecimalRoundTrip` | VerificationPanel.tsx:187 | `Number` reads the decimal text of an id back as that id |
| `Keys.TextReadsBack` | VerificationPanel.tsx:187 | `Number` reads a formatted number back as itself, and formatted `NaN` or `undefined` as `NaN` |
| `Keys.KeySegments` | VerificationPanel.tsx:232-233 | every segment of a key made of numbers reads back as its number |
| `FieldsLoading.IdOf` | VerificationPanel.tsx:248 | the destructured id is `undefined` exactly when the key holds no hyphen |
| `FieldsLoading.ShowsSameDocument` | VerificationPanel.tsx:232-235 | the early return fires only for a page key with stored fields whose numeric document id equals the stored key's id |
| `FieldsLoading.DocumentKeyText` | VerificationPanel.tsx:187 | the built document key reads back with the documents level first and the document id second (`NaN` for `NaN` or `undefined`) |
| `FieldsLoading.SameKey` | VerificationPanel.tsx:191 | a freshly built document key equals no stored key; an item key equals only the same stored key |
| `FieldsLoading.Invoked` | VerificationPanel.tsx:182-197 | `invokeAPI` never changes the store itself; it makes a call only with a key and a loaded batch, and such a call leaves the loading flag as it found it |
| `FieldsLoading.Reloaded` | VerificationPanel.tsx:230-275 | `reloadFields` only keeps or clears the store; while a call is in flight loading is on and the store is kept |
| `FieldsLoading.Completed` | VerificationPanel.tsx:197-224 | a settled call leaves the store as it was, clears it, or stores the call's key with the response data |
| `FieldsLoading.ReloadWithoutKey` | VerificationPanel.tsx:241-246 | no item or no key clears the fields and ends loading |
| `FieldsLoading.ReloadUnknownLevel` | VerificationPanel.tsx:267-273 | a level outside the four clears the fields and ends loading |
| `FieldsLoading.NonNumericLevelClears` | VerificationPanel.tsx:248-273 | the key "abc-1" has a `NaN` level and clears the fields |
| `FieldsLoading.ReloadWithoutBatch` | VerificationPanel.tsx:183 | with no batch loaded no call is made, the store is kept and loading stays on |
| `FieldsLoading.ReloadDispatch` | VerificationPanel.tsx:248-262 | batch calls the batch endpoint with `{id}` and folder calls the folder endpoint with the bare id, both skipped and loading ended when the stored key is the item's key; documents always calls the document endpoint with `{id}`; other levels clear |
| `FieldsLoading.ReloadPage` | VerificationPanel.tsx:232-235 | a page is not reloaded when fields are stored under its document id, with nothing changed; otherwise the document endpoint is called with `{id: document.id}` |
| `FieldsLoading.ResponseOutcomes` | VerificationPanel.tsx:199-224 | success with data stores the call's key and data; success without data keeps the store; failure and rejection clear it |
| `FieldsLoading.PairingPreserved` | VerificationPanel.tsx:203-221 | fields and key stay stored together through reloads and settled calls |
| `FieldsLoading.DocumentFieldsCoverItsPages` | VerificationPanel.tsx:232-235 | after a document's fields load, selecting any page of that document changes nothing |
| `FieldsLoading.PageFieldsCoverSiblingPages` | VerificationPanel.tsx:263-265 | after a page's fields load, selecting another page of that document changes nothing |
| `FieldsLoading.SameItemNotRefetched` | VerificationPanel.tsx:191-195 | reselecting a loaded batch or folder makes no call and ends loading |
| `FieldsLoading.DocumentAlwaysRefetched` | VerificationPanel.tsx:185-191 | reselecting a loaded document calls the endpoint again |
| `FieldsLoading.StoredLevelNotCompared` | VerificationPanel.tsx:235 | stored folder fields suppress reloading a page whose document id equals the folder id |
| `Panel.Toggled` | VerificationPanel.tsx:319-326 | the toggle lands on (false, 200) or (true, 10000), and turns full screen on exactly when the pane is neither full screen nor 500 high |
| `Panel.ToggleAlternates` | VerificationPanel.tsx:319-326 | after one toggle the pane alternates between the two presets |
| `Panel.ToggleTwiceFromStart` | VerificationPanel.tsx:319-326 | from (false, 200) two toggles return to (false, 200) |
| `Panel.VerificationPanel.constructor` | VerificationPanel.tsx:37-53 | the panel mounts not loading, not full screen, 200 high, on page 1 |
| `Panel.VerificationPanel.ReloadFields` | VerificationPanel.tsx:230-275 | the new store, loading flag and call are those `Reloaded` gives for the old state |
| `Panel.VerificationPanel.InvokeApi` | VerificationPanel.tsx:182-197 | the new loading flag and call are those `Invoked` gives |
| `Panel.VerificationPanel.SettleRequest` | VerificationPanel.tsx:199-224 | the new store is `Completed` of the old one and loading has ended |
| `Panel.VerificationPanel.HandleFullscreen` | VerificationPanel.tsx:319-326 | full-screen flag and height become `Toggled` of the old ones |
| `Panel.VerificationPanel.PreviousPage` | VerificationPanel.tsx:427 | the page goes down by one, with no lower bound |
| `Panel.VerificationPanel.NextPage` | VerificationPanel.tsx:429 | the page goes up by one, with no upper bound |
| `Panel.VerificationPanel.RenderGridTable` | VerificationPanel.tsx:81-174 | the header rows are the merged columns and every body row shows a cell of the current page |

## Left out

- Markup, styling and the antd components are not modelled. This covers the field tabs (`selectFieldTab`), the "Table 1/2/3" select, the "Сохранить" save stub and the disabled default button. They hold no logic beyond setting display state.
- `reSize`, `reSizeTable` and the `isDragging` cursor effect are not modelled. They work on DOM element heights and mouse events.
- The three field endpoints, the promise chain and `console.error` are not modelled. They are foreign calls. A call is represented by the `Request` it would make, and its settlement is an input `Response`. When several calls are in flight, the order in which they settle is the caller's choice.
- The store's reducers are not part of this model. `setFields` is taken to replace the slice. `clearFields` is taken to set both `keyItem` and `fields` to `undefined`.
- The values of the batch-level enumeration are taken as a parameter. Lemmas that depend on them require them to be distinct.
- The batch-level values are taken to be non-negative integers. With a negative documents level, the key built for the document endpoint would start with '-', and its second segment would no longer be the document id. That case is not modelled.
- `Number(...)` is modelled only for the strings keys contain. A string of decimal digits reads as its value, and the empty string reads as 0. Everything else reads as `NaN`, although JavaScript accepts whitespace, signs, fractions, exponents and hexadecimal. Ids are non-negative integers, and precision limits of large numbers are not modelled.
- Item keys are strings. A numeric `React.Key` and its `toString` are not modelled.
- `useEffect` re-running `reloadFields` when the item changes is not modelled. The caller invokes `ReloadFields`.
- Response data is either present or absent. JavaScript's other falsy values (`0`, `""`, `null`) count as absent.
- The try/catch around reading `tablefields` has no behaviour to state. Neither do `errorTextField`, `FieldListInfo` and `NotFieldsError`.
- Cell bounding boxes are carried but never used. Indices, page numbers and the current page are integers. Fractional JavaScript numbers are not modelled.
