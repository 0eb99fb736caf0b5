/**
 * The `<thead>` of the grid table. Each header row is a list of cell indices;
 * a `reduce` over the row turns it into `<th>` columns, widening a column
 * (colSpan + 1) instead of opening a new one when an index repeats the one
 * just before it or when its text is already shown in the row.
 */
module HeaderColumns {
  import opened Wrappers
  import opened Table

  /** One `<th>`: its text, and how many grid columns and rows it spans. */
  datatype Column = Column(value: string, colSpan: nat, rowSpan: nat)

  /** The only labels header row 1 shows; any other label opened there is blanked. */
  const RowOneLabels: seq<string> :=
    ["Код", "условное обозначение (национальное)", "цифровой Код", "краткое наименование"]

  /** The text a column opened in header row `rowIndex` for a cell with text `value` shows. */
  function Label(rowIndex: int, value: string): string
  {
    if rowIndex == 1 && value !in RowOneLabels then "" else value
  }

  function Last(row: seq<int>): int
    requires |row| > 0
  {
    row[|row| - 1]
  }

  /** The last index of `row` equals `row[colIndex - 1]`, the index read just before it. */
  predicate RepeatsPrevious(row: seq<int>)
  {
    |row| >= 2 && row[|row| - 1] == row[|row| - 2]
  }

  /** Position of the first column showing `value` (what `columns.find` looks up). */
  function Find(columns: seq<Column>, value: string): (r: Option<nat>)
    ensures r.Some? ==> r.value < |columns| && columns[r.value].value == value
    ensures r.Some? ==> forall j :: 0 <= j < r.value ==> columns[j].value != value
    ensures r.None? ==> forall j :: 0 <= j < |columns| ==> columns[j].value != value
  {
    if columns == [] then None
    else if columns[0].value == value then Some(0)
    else match Find(columns[1..], value)
      case None => None
      case Some(j) => Some(j + 1)
  }

  /** Column `j` spanning one more grid column. */
  function Widen(columns: seq<Column>, j: nat): seq<Column>
    requires j < |columns|
  {
    columns[j := columns[j].(colSpan := columns[j].colSpan + 1)]
  }

  /** One call of the `reduce` callback: the columns after the last index of `row` is read. */
  function Step(columns: seq<Column>, row: seq<int>, rowIndex: int, cells: seq<Cell>): (after: seq<Column>)
    requires |row| > 0
    requires RepeatsPrevious(row) && Refers(cells, Last(row)) ==> |columns| > 0
    ensures |columns| <= |after| <= |columns| + 1
    ensures Values(after)[..|columns|] == Values(columns)
  {
    var headerIndex := Last(row);
    if !Refers(cells, headerIndex) then columns
    else if RepeatsPrevious(row) then Widen(columns, |columns| - 1)
    else match Find(columns, cells[headerIndex].value)
      case Some(j) => Widen(columns, j)
      case None => columns + [Column(Label(rowIndex, cells[headerIndex].value), 1, 1)]
  }

  /**
   * The columns the `reduce` builds for header row `rowIndex`. Whenever the
   * last index denotes a cell there is a column, so the "widen the last
   * column" branch always has one to widen.
   */
  function Merge(row: seq<int>, rowIndex: int, cells: seq<Cell>): (columns: seq<Column>)
    ensures |row| > 0 && Refers(cells, Last(row)) ==> |columns| > 0
    decreases |row|
  {
    if row == [] then []
    else Step(Merge(row[..|row| - 1], rowIndex, cells), row, rowIndex, cells)
  }

  /** The header `reduce` of `renderGridTable`, updating the accumulated columns in place. */
  method MergeHeaderRow(row: seq<int>, rowIndex: int, cells: seq<Cell>) returns (columns: seq<Column>)
    ensures columns == Merge(row, rowIndex, cells)
  {
    columns := [];
    for colIndex := 0 to |row|
      invariant columns == Merge(row[..colIndex], rowIndex, cells)
    {
      assert row[..colIndex + 1][..colIndex] == row[..colIndex];
      var headerIndex := row[colIndex];
      if 0 <= headerIndex < |cells| {
        var headerCell := cells[headerIndex];
        if colIndex > 0 && headerIndex == row[colIndex - 1] {
          var last := |columns| - 1;
          columns := columns[last := columns[last].(colSpan := columns[last].colSpan + 1)];
        } else {
          var existing := Find(columns, headerCell.value);
          if existing.Some? {
            var j := existing.value;
            columns := columns[j := columns[j].(colSpan := columns[j].colSpan + 1)];
          } else if !(rowIndex == 1 && headerCell.value !in RowOneLabels) {
            columns := columns + [Column(headerCell.value, 1, 1)];
          } else {
            columns := columns + [Column("", 1, 1)];
          }
        }
      }
    }
    assert row[..|row|] == row;
  }

  /** `headers.map(...)`: the merged columns of every header row, row index by row index. */
  method HeaderRows(headers: seq<seq<int>>, cells: seq<Cell>) returns (rows: seq<seq<Column>>)
    ensures |rows| == |headers|
    ensures forall k :: 0 <= k < |headers| ==> rows[k] == Merge(headers[k], k, cells)
  {
    rows := [];
    for rowIndex := 0 to |headers|
      invariant |rows| == rowIndex
      invariant forall k :: 0 <= k < rowIndex ==> rows[k] == Merge(headers[k], k, cells)
    {
      var columns := MergeHeaderRow(headers[rowIndex], rowIndex, cells);
      rows := rows + [columns];
    }
  }

  // ---------------------------------------------------------------------------
  // What the merged columns amount to
  // ---------------------------------------------------------------------------

  /** Grid columns covered by a header row. */
  function SpanTotal(columns: seq<Column>): nat
  {
    if columns == [] then 0 else columns[0].colSpan + SpanTotal(columns[1..])
  }

  /** The texts of the columns, left to right. */
  function Values(columns: seq<Column>): seq<string>
  {
    seq(|columns|, k requires 0 <= k < |columns| => columns[k].value)
  }

  /** The texts of the cells a row's indices denote, in row order. */
  function ReferencedValues(cells: seq<Cell>, row: seq<int>): seq<string>
  {
    if row == [] then []
    else ReferencedValues(cells, row[..|row| - 1])
         + (if Refers(cells, Last(row)) then [cells[Last(row)].value] else [])
  }

  /** The distinct strings of `s` in order of first appearance. */
  function Dedup(s: seq<string>): (r: seq<string>)
    ensures forall v :: v in r <==> v in s
    ensures forall i, j :: 0 <= i < j < |r| ==> r[i] != r[j]
  {
    if s == [] then []
    else
      var r := Dedup(s[..|s| - 1]);
      if s[|s| - 1] in r then r else r + [s[|s| - 1]]
  }

  /** The strings of `s` that are not blank. */
  function NonBlank(s: seq<string>): (r: seq<string>)
    ensures forall v :: v in r <==> v in s && v != ""
  {
    if s == [] then []
    else NonBlank(s[..|s| - 1]) + (if s[|s| - 1] != "" then [s[|s| - 1]] else [])
  }

  /** The strings of `s` that header row 1 is allowed to show. */
  function RowOneShown(s: seq<string>): (r: seq<string>)
    ensures forall v :: v in r <==> v in s && v in RowOneLabels
  {
    if s == [] then []
    else RowOneShown(s[..|s| - 1]) + (if s[|s| - 1] in RowOneLabels then [s[|s| - 1]] else [])
  }

  /** No text other than the blank one is shown by two columns. */
  predicate DistinctLabels(columns: seq<Column>)
  {
    forall i, j :: 0 <= i < j < |columns| && columns[i].value != "" ==> columns[i].value != columns[j].value
  }

  lemma {:induction false} SpanTotalWiden(columns: seq<Column>, j: nat)
    requires j < |columns|
    ensures SpanTotal(Widen(columns, j)) == SpanTotal(columns) + 1
  {
    if j == 0 {
      assert Widen(columns, 0)[1..] == columns[1..];
    } else {
      assert Widen(columns, j)[1..] == Widen(columns[1..], j - 1);
      SpanTotalWiden(columns[1..], j - 1);
    }
  }

  lemma {:induction false} SpanTotalAppend(columns: seq<Column>, c: Column)
    ensures SpanTotal(columns + [c]) == SpanTotal(columns) + c.colSpan
  {
    if columns != [] {
      assert (columns + [c])[1..] == columns[1..] + [c];
      SpanTotalAppend(columns[1..], c);
    }
  }

  /** Unfolds `Merge` and `ReferencedValues` at the last index of a row. */
  lemma MergeUnfold(row: seq<int>, x: int, rowIndex: int, cells: seq<Cell>)
    ensures (row + [x])[..|row|] == row && Last(row + [x]) == x
    ensures Merge(row + [x], rowIndex, cells) == Step(Merge(row, rowIndex, cells), row + [x], rowIndex, cells)
    ensures ReferencedValues(cells, row + [x])
            == ReferencedValues(cells, row) + (if Refers(cells, x) then [cells[x].value] else [])
    ensures CountRefs(cells, row + [x]) == CountRefs(cells, row) + (if Refers(cells, x) then 1 else 0)
  {
    assert (row + [x])[..|row|] == row;
  }

  /**
   * Every index that denotes a cell adds exactly one grid column to the row
   * and every other index adds none; every column is opened with colSpan 1
   * and rowSpan 1, so there are never more columns than such indices.
   */
  lemma {:induction false} MergeSpans(row: seq<int>, rowIndex: int, cells: seq<Cell>)
    ensures SpanTotal(Merge(row, rowIndex, cells)) == CountRefs(cells, row)
    ensures |Merge(row, rowIndex, cells)| <= CountRefs(cells, row)
    ensures forall k :: 0 <= k < |Merge(row, rowIndex, cells)| ==>
              Merge(row, rowIndex, cells)[k].colSpan >= 1 && Merge(row, rowIndex, cells)[k].rowSpan == 1
  {
    if row != [] {
      var prefix, x := row[..|row| - 1], Last(row);
      assert row == prefix + [x];
      MergeUnfold(prefix, x, rowIndex, cells);
      MergeSpans(prefix, rowIndex, cells);
      var before := Merge(prefix, rowIndex, cells);
      if Refers(cells, x) {
        if RepeatsPrevious(row) {
          SpanTotalWiden(before, |before| - 1);
        } else {
          match Find(before, cells[x].value)
          case Some(j) => SpanTotalWiden(before, j);
          case None => SpanTotalAppend(before, Column(Label(rowIndex, cells[x].value), 1, 1));
        }
      }
    }
  }

  /** A merged header row never shows the same non-blank text in two columns. */
  lemma {:induction false} MergeDistinct(row: seq<int>, rowIndex: int, cells: seq<Cell>)
    ensures DistinctLabels(Merge(row, rowIndex, cells))
  {
    if row != [] {
      var prefix, x := row[..|row| - 1], Last(row);
      assert row == prefix + [x];
      MergeUnfold(prefix, x, rowIndex, cells);
      MergeDistinct(prefix, rowIndex, cells);
    }
  }

  lemma DedupAppend(s: seq<string>, v: string)
    ensures Dedup(s + [v]) == if v in s then Dedup(s) else Dedup(s) + [v]
  {
    assert (s + [v])[..|s|] == s;
  }

  lemma NonBlankAppend(s: seq<string>, v: string)
    ensures NonBlank(s + [v]) == NonBlank(s) + (if v != "" then [v] else [])
  {
    assert (s + [v])[..|s|] == s;
  }

  lemma RowOneShownAppend(s: seq<string>, v: string)
    ensures RowOneShown(s + [v]) == RowOneShown(s) + (if v in RowOneLabels then [v] else [])
  {
    assert (s + [v])[..|s|] == s;
  }

  lemma ValuesWiden(columns: seq<Column>, j: nat)
    requires j < |columns|
    ensures Values(Widen(columns, j)) == Values(columns)
  {
  }

  lemma ValuesAppend(columns: seq<Column>, c: Column)
    ensures Values(columns + [c]) == Values(columns) + [c.value]
  {
  }

  /** A step that skips the index or widens a column keeps the column texts. */
  lemma ValuesStepKeeps(columns: seq<Column>, row: seq<int>, rowIndex: int, cells: seq<Cell>)
    requires |row| > 0
    requires RepeatsPrevious(row) && Refers(cells, Last(row)) ==> |columns| > 0
    requires !Refers(cells, Last(row)) || RepeatsPrevious(row) || Find(columns, cells[Last(row)].value).Some?
    ensures Values(Step(columns, row, rowIndex, cells)) == Values(columns)
  {
    var x := Last(row);
    if Refers(cells, x) {
      if RepeatsPrevious(row) {
        ValuesWiden(columns, |columns| - 1);
      } else {
        ValuesWiden(columns, Find(columns, cells[x].value).value);
      }
    }
  }

  /** A step reading a text no column shows appends its label to the column texts. */
  lemma ValuesStepAppends(columns: seq<Column>, row: seq<int>, rowIndex: int, cells: seq<Cell>)
    requires |row| > 0
    requires Refers(cells, Last(row)) && !RepeatsPrevious(row) && Find(columns, cells[Last(row)].value).None?
    ensures Values(Step(columns, row, rowIndex, cells)) == Values(columns) + [Label(rowIndex, cells[Last(row)].value)]
  {
    ValuesAppend(columns, Column(Label(rowIndex, cells[Last(row)].value), 1, 1));
  }

  /** The text of a cell whose index ends a row is among the row's referenced texts. */
  lemma LastReferenced(row: seq<int>, cells: seq<Cell>)
    requires |row| > 0 && Refers(cells, Last(row))
    ensures cells[Last(row)].value in ReferencedValues(cells, row)
  {
    MergeUnfold(row[..|row| - 1], Last(row), 0, cells);
    assert row == row[..|row| - 1] + [Last(row)];
  }

  /**
   * Outside header row 1 the columns show the texts of the row's cells, each
   * once, in the order in which they first appear.
   */
  lemma {:induction false} MergeFirstAppearance(row: seq<int>, rowIndex: int, cells: seq<Cell>)
    requires rowIndex != 1
    ensures Values(Merge(row, rowIndex, cells)) == Dedup(ReferencedValues(cells, row))
  {
    if row != [] {
      var prefix, x := row[..|row| - 1], Last(row);
      assert row == prefix + [x];
      MergeUnfold(prefix, x, rowIndex, cells);
      MergeFirstAppearance(prefix, rowIndex, cells);
      var before := Merge(prefix, rowIndex, cells);
      var seen := ReferencedValues(cells, prefix);
      assert Last(row) == x;
      if !Refers(cells, x) {
        assert ReferencedValues(cells, row) == seen;
        ValuesStepKeeps(before, row, rowIndex, cells);
      } else {
        var v := cells[x].value;
        DedupAppend(seen, v);
        if RepeatsPrevious(row) {
          LastReferenced(prefix, cells);
          assert Last(prefix) == x;
          ValuesStepKeeps(before, row, rowIndex, cells);
        } else {
          match Find(before, v)
          case Some(j) =>
            assert Values(before)[j] == v;
            ValuesStepKeeps(before, row, rowIndex, cells);
          case None =>
            assert v !in Values(before);
            ValuesStepAppends(before, row, rowIndex, cells);
        }
      }
    }
  }

  /** Header row 1 shows only blanks and the four kept labels. */
  lemma {:induction false} MergeRowOneLabels(row: seq<int>, cells: seq<Cell>)
    ensures forall k :: 0 <= k < |Merge(row, 1, cells)| ==>
              Merge(row, 1, cells)[k].value == "" || Merge(row, 1, cells)[k].value in RowOneLabels
  {
    if row != [] {
      var prefix, x := row[..|row| - 1], Last(row);
      assert row == prefix + [x];
      MergeUnfold(prefix, x, 1, cells);
      MergeRowOneLabels(prefix, cells);
    }
  }

  /**
   * A text already shown (or blanked) leaves the non-blank texts of header
   * row 1 as they were; `kept` says whether the text is a kept label.
   */
  lemma RowOneSeenStep(texts: seq<string>, shown: seq<string>, v: string, kept: bool)
    requires kept ==> v != ""
    requires NonBlank(texts) == Dedup(shown)
    requires kept ==> v in shown || v in texts
    ensures NonBlank(texts) == Dedup(shown + (if kept then [v] else []))
  {
    if kept {
      assert v in shown by {
        if v in texts {
          assert v in NonBlank(texts);
        }
      }
      DedupAppend(shown, v);
    } else {
      assert shown + [] == shown;
    }
  }

  /** A text no column shows opens a column, blank unless it is a kept label. */
  lemma RowOneNewStep(texts: seq<string>, shown: seq<string>, v: string, kept: bool)
    requires kept ==> v != ""
    requires NonBlank(texts) == Dedup(shown)
    requires v !in texts
    ensures NonBlank(texts + [if kept then v else ""]) == Dedup(shown + (if kept then [v] else []))
  {
    NonBlankAppend(texts, if kept then v else "");
    if kept {
      assert v !in shown;
      DedupAppend(shown, v);
    } else {
      assert shown + [] == shown;
    }
  }

  /** `RowOneSeenStep` for a text read from a cell of header row 1. */
  lemma RowOneSeenCell(texts: seq<string>, seen: seq<string>, v: string)
    requires NonBlank(texts) == Dedup(RowOneShown(seen))
    requires v in seen || v in texts
    ensures NonBlank(texts) == Dedup(RowOneShown(seen + [v]))
  {
    var kept := v in RowOneLabels;
    assert kept ==> v != "" by { assert "" !in RowOneLabels; }
    RowOneShownAppend(seen, v);
    RowOneSeenStep(texts, RowOneShown(seen), v, kept);
  }

  /** `RowOneNewStep` for a text read from a cell of header row 1. */
  lemma RowOneNewCell(texts: seq<string>, seen: seq<string>, v: string)
    requires NonBlank(texts) == Dedup(RowOneShown(seen))
    requires v !in texts
    ensures NonBlank(texts + [Label(1, v)]) == Dedup(RowOneShown(seen + [v]))
  {
    var kept := v in RowOneLabels;
    assert kept ==> v != "" by { assert "" !in RowOneLabels; }
    RowOneShownAppend(seen, v);
    assert Label(1, v) == if kept then v else "";
    RowOneNewStep(texts, RowOneShown(seen), v, kept);
  }

  /**
   * The non-blank columns of header row 1 show the kept labels of the row,
   * each once, in the order in which they first appear.
   */
  lemma {:induction false} MergeRowOne(row: seq<int>, cells: seq<Cell>)
    ensures NonBlank(Values(Merge(row, 1, cells))) == Dedup(RowOneShown(ReferencedValues(cells, row)))
  {
    if row != [] {
      var prefix, x := row[..|row| - 1], Last(row);
      assert row == prefix + [x];
      MergeUnfold(prefix, x, 1, cells);
      MergeRowOne(prefix, cells);
      var before := Merge(prefix, 1, cells);
      var texts := Values(before);
      var seen := ReferencedValues(cells, prefix);
      if !Refers(cells, x) {
        assert ReferencedValues(cells, row) == seen;
        ValuesStepKeeps(before, row, 1, cells);
      } else {
        var v := cells[x].value;
        assert ReferencedValues(cells, row) == seen + [v];
        if RepeatsPrevious(row) {
          LastReferenced(prefix, cells);
          assert Last(prefix) == x;
          ValuesStepKeeps(before, row, 1, cells);
          RowOneSeenCell(texts, seen, v);
        } else {
          match Find(before, v)
          case Some(j) =>
            assert texts[j] == v;
            ValuesStepKeeps(before, row, 1, cells);
            RowOneSeenCell(texts, seen, v);
          case None =>
            assert v !in texts;
            ValuesStepAppends(before, row, 1, cells);
            RowOneNewCell(texts, seen, v);
        }
      }
    }
  }

  /** An index that denotes no cell leaves the columns as they are. */
  lemma MergeSkip(row: seq<int>, x: int, rowIndex: int, cells: seq<Cell>)
    requires !Refers(cells, x)
    ensures Merge(row + [x], rowIndex, cells) == Merge(row, rowIndex, cells)
  {
    MergeUnfold(row, x, rowIndex, cells);
  }

  /** An index repeating the one just before it widens the last column. */
  lemma MergeRepeat(row: seq<int>, x: int, rowIndex: int, cells: seq<Cell>)
    requires Refers(cells, x) && row != [] && Last(row) == x
    ensures var before := Merge(row, rowIndex, cells);
            |before| > 0 && Merge(row + [x], rowIndex, cells) == Widen(before, |before| - 1)
  {
    MergeUnfold(row, x, rowIndex, cells);
  }

  /** Otherwise, an index whose text the `find` locates in column `j` widens that column. */
  lemma MergeExisting(row: seq<int>, x: int, rowIndex: int, cells: seq<Cell>, j: nat)
    requires Refers(cells, x) && !(row != [] && Last(row) == x)
    requires Find(Merge(row, rowIndex, cells), cells[x].value) == Some(j)
    ensures Merge(row + [x], rowIndex, cells) == Widen(Merge(row, rowIndex, cells), j)
  {
    MergeUnfold(row, x, rowIndex, cells);
  }

  /** Otherwise, an index whose text no column shows opens a column. */
  lemma MergeOpen(row: seq<int>, x: int, rowIndex: int, cells: seq<Cell>)
    requires Refers(cells, x) && !(row != [] && Last(row) == x)
    requires Find(Merge(row, rowIndex, cells), cells[x].value).None?
    ensures Merge(row + [x], rowIndex, cells)
            == Merge(row, rowIndex, cells) + [Column(Label(rowIndex, cells[x].value), 1, 1)]
  {
    MergeUnfold(row, x, rowIndex, cells);
  }

  /** Two indices with different texts open a column each. */
  lemma OpenTwo(p: int, q: int, rowIndex: int, cells: seq<Cell>)
    requires Refers(cells, p) && Refers(cells, q) && cells[p].value != cells[q].value
    requires rowIndex != 1
    ensures Merge([p, q], rowIndex, cells) == [Column(cells[p].value, 1, 1), Column(cells[q].value, 1, 1)]
  {
    var one := [Column(cells[p].value, 1, 1)];
    assert Merge([p], rowIndex, cells) == one by {
      assert Merge([], rowIndex, cells) == [];
      MergeOpen([], p, rowIndex, cells);
      assert [] + [p] == [p];
    }
    assert Find(one, cells[q].value).None?;
    MergeOpen([p], q, rowIndex, cells);
    assert [p] + [q] == [p, q];
  }

  /**
   * The "same index as just before" rule widens the LAST column, which need
   * not be the one holding that index: in the row [a, b, a, a] the third `a`
   * widens a's column and the fourth widens b's.
   */
  lemma RepeatAfterOtherWidensLastColumn(p: int, q: int, rowIndex: int, cells: seq<Cell>)
    requires Refers(cells, p) && Refers(cells, q) && cells[p].value != cells[q].value
    requires rowIndex != 1
    ensures Merge([p, q, p, p], rowIndex, cells) == [Column(cells[p].value, 2, 1), Column(cells[q].value, 2, 1)]
  {
    var a, b := cells[p].value, cells[q].value;
    var two := [Column(a, 1, 1), Column(b, 1, 1)];
    var three := [Column(a, 2, 1), Column(b, 1, 1)];
    assert Merge([p, q, p], rowIndex, cells) == three by {
      OpenTwo(p, q, rowIndex, cells);
      assert Find(two, a) == Some(0);
      MergeExisting([p, q], p, rowIndex, cells, 0);
      assert [p, q] + [p] == [p, q, p];
    }
    MergeRepeat([p, q, p], p, rowIndex, cells);
    assert [p, q, p] + [p] == [p, q, p, p];
  }

  /**
   * In header row 1, a text outside the kept labels that reappears at a
   * non-adjacent index opens a second blank column, because the lookup
   * searches for the text and finds only blanks; the same index repeated
   * right away widens the blank column instead.
   */
  lemma RowOneRepeatOpensBlank(p: int, q: int, cells: seq<Cell>)
    requires Refers(cells, p) && Refers(cells, q) && p != q
    requires cells[p].value == cells[q].value && cells[p].value != "" && cells[p].value !in RowOneLabels
    ensures Merge([p, q], 1, cells) == [Column("", 1, 1), Column("", 1, 1)]
    ensures Merge([p, p], 1, cells) == [Column("", 2, 1)]
  {
    var v := cells[p].value;
    var one := [Column("", 1, 1)];
    assert Merge([p], 1, cells) == one by {
      assert Label(1, v) == "";
      assert Merge([], 1, cells) == [];
      MergeOpen([], p, 1, cells);
      assert [] + [p] == [p];
    }
    assert Merge([p, q], 1, cells) == [Column("", 1, 1), Column("", 1, 1)] by {
      assert Label(1, v) == "";
      assert Find(one, v).None?;
      MergeOpen([p], q, 1, cells);
      assert [p] + [q] == [p, q];
    }
    MergeRepeat([p], p, 1, cells);
    assert [p] + [p] == [p, p];
  }
}
