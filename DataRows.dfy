/**
 * The `<tbody>` of the grid table: the data rows that have a cell on the
 * current page, each showing the cells its indices denote.
 */
module DataRows {
  import opened Wrappers
  import opened Table

  /** `row.map(i => cells[i]?.page_number)`: the page of every index, `None` where it reads `undefined`. */
  function PageNumbers(cells: seq<Cell>, row: seq<int>): (pages: seq<Option<int>>)
    ensures |pages| == |row|
    ensures forall k :: 0 <= k < |row| ==> (pages[k].None? <==> !Refers(cells, row[k]))
  {
    seq(|row|, k requires 0 <= k < |row| => if Refers(cells, row[k]) then Some(cells[row[k]].pageNumber) else None)
  }

  /** Some index of the row denotes a cell on `page`. */
  predicate HasCellOnPage(cells: seq<Cell>, page: int, row: seq<int>)
  {
    exists k :: 0 <= k < |row| && Refers(cells, row[k]) && cells[row[k]].pageNumber == page
  }

  /** The mapped page numbers include `currentPage` exactly when one of the row's indices denotes a cell on that page. */
  lemma OnPageIff(cells: seq<Cell>, currentPage: int, row: seq<int>)
    ensures Some(currentPage) in PageNumbers(cells, row) <==> HasCellOnPage(cells, currentPage, row)
  {
    var pages := PageNumbers(cells, row);
    if Some(currentPage) in pages {
      var k :| 0 <= k < |pages| && pages[k] == Some(currentPage);
      assert Refers(cells, row[k]) && cells[row[k]].pageNumber == currentPage;
    }
    if HasCellOnPage(cells, currentPage, row) {
      var k :| 0 <= k < |row| && Refers(cells, row[k]) && cells[row[k]].pageNumber == currentPage;
      assert pages[k] == Some(currentPage);
    }
  }

  /** The filter test `rowPageNumber.includes(currentPage)`: one of the row's indices denotes a cell on the current page. */
  predicate OnPage(cells: seq<Cell>, currentPage: int, row: seq<int>)
    ensures OnPage(cells, currentPage, row) <==> HasCellOnPage(cells, currentPage, row)
  {
    OnPageIff(cells, currentPage, row);
    Some(currentPage) in PageNumbers(cells, row)
  }

  /** `data.filter(...)`: the data rows kept for the current page. */
  function FilterRows(cells: seq<Cell>, currentPage: int, data: seq<seq<int>>): (kept: seq<seq<int>>)
    ensures |kept| <= |data|
  {
    if data == [] then []
    else (if OnPage(cells, currentPage, data[0]) then [data[0]] else []) + FilterRows(cells, currentPage, data[1..])
  }

  /** A row is kept exactly when it is a data row that passes the page test. */
  lemma {:induction false} FilterRowsKeeps(cells: seq<Cell>, currentPage: int, data: seq<seq<int>>)
    ensures forall row :: row in FilterRows(cells, currentPage, data) <==> row in data && OnPage(cells, currentPage, row)
  {
    if data != [] {
      FilterRowsKeeps(cells, currentPage, data[1..]);
      assert data == [data[0]] + data[1..];
    }
  }

  /** `s` can be obtained from `t` by deleting elements. */
  predicate IsSubsequence<T(==)>(s: seq<T>, t: seq<T>)
    decreases |t|
  {
    if s == [] then true
    else if t == [] then false
    else (s[0] == t[0] && IsSubsequence(s[1..], t[1..])) || IsSubsequence(s, t[1..])
  }

  /** The kept rows keep their order: they are a subsequence of the data rows. */
  lemma {:induction false} FilterRowsSubsequence(cells: seq<Cell>, currentPage: int, data: seq<seq<int>>)
    ensures IsSubsequence(FilterRows(cells, currentPage, data), data)
  {
    if data != [] {
      FilterRowsSubsequence(cells, currentPage, data[1..]);
      var rest := FilterRows(cells, currentPage, data[1..]);
      if OnPage(cells, currentPage, data[0]) {
        assert ([data[0]] + rest)[1..] == rest;
      } else {
        assert [] + rest == rest;
      }
    }
  }

  /** Filtering two runs of rows one after the other is filtering each run. */
  lemma {:induction false} FilterRowsAppend(cells: seq<Cell>, currentPage: int, a: seq<seq<int>>, b: seq<seq<int>>)
    ensures FilterRows(cells, currentPage, a + b) == FilterRows(cells, currentPage, a) + FilterRows(cells, currentPage, b)
  {
    if a != [] {
      var head := if OnPage(cells, currentPage, a[0]) then [a[0]] else [];
      assert (a + b)[0] == a[0];
      assert (a + b)[1..] == a[1..] + b;
      assert FilterRows(cells, currentPage, a + b) == head + FilterRows(cells, currentPage, a[1..] + b);
      FilterRowsAppend(cells, currentPage, a[1..], b);
      assert FilterRows(cells, currentPage, a) == head + FilterRows(cells, currentPage, a[1..]);
    } else {
      assert a + b == b;
    }
  }

  /** `row.map(...)` in a data row: one `<td>` per index that denotes a cell, in row order (React drops the `null`s). */
  function RenderRow(cells: seq<Cell>, row: seq<int>): (shown: seq<Cell>)
    ensures |shown| == CountRefs(cells, row)
  {
    if row == [] then []
    else RenderRow(cells, row[..|row| - 1])
         + (if Refers(cells, row[|row| - 1]) then [cells[row[|row| - 1]]] else [])
  }

  /** A row shows cell `c` exactly when one of its indices denotes `c`. */
  lemma {:induction false} RenderRowShows(cells: seq<Cell>, row: seq<int>, c: Cell)
    ensures c in RenderRow(cells, row) <==> exists k :: 0 <= k < |row| && Refers(cells, row[k]) && cells[row[k]] == c
  {
    if row != [] {
      var prefix, x := row[..|row| - 1], row[|row| - 1];
      var tail := if Refers(cells, x) then [cells[x]] else [];
      assert RenderRow(cells, row) == RenderRow(cells, prefix) + tail;
      RenderRowShows(cells, prefix, c);
      if c in RenderRow(cells, row) {
        if c in RenderRow(cells, prefix) {
          var k :| 0 <= k < |prefix| && Refers(cells, prefix[k]) && cells[prefix[k]] == c;
          assert row[k] == prefix[k];
        } else {
          assert c in tail;
          assert Refers(cells, row[|row| - 1]) && cells[row[|row| - 1]] == c;
        }
      }
      if exists k :: 0 <= k < |row| && Refers(cells, row[k]) && cells[row[k]] == c {
        var k :| 0 <= k < |row| && Refers(cells, row[k]) && cells[row[k]] == c;
        if k < |prefix| {
          assert prefix[k] == row[k];
        } else {
          assert c in tail;
        }
      }
    }
  }

  /** The cells of two runs of indices are shown one run after the other. */
  lemma {:induction false} RenderRowAppend(cells: seq<Cell>, a: seq<int>, b: seq<int>)
    ensures RenderRow(cells, a + b) == RenderRow(cells, a) + RenderRow(cells, b)
  {
    if b == [] {
      assert a + b == a;
    } else {
      var b' := b[..|b| - 1];
      assert (a + b)[..|a + b| - 1] == a + b';
      RenderRowAppend(cells, a, b');
    }
  }

  /** Some cell of a rendered row lies on `page`. */
  predicate ShowsPage(page: int, shown: seq<Cell>)
  {
    exists c :: c in shown && c.pageNumber == page
  }

  /** A row that passes the page test shows a cell of the current page. */
  lemma KeptRowShowsThePage(cells: seq<Cell>, currentPage: int, row: seq<int>)
    requires OnPage(cells, currentPage, row)
    ensures ShowsPage(currentPage, RenderRow(cells, row))
  {
    var k :| 0 <= k < |row| && Refers(cells, row[k]) && cells[row[k]].pageNumber == currentPage;
    RenderRowShows(cells, row, cells[row[k]]);
  }

  /**
   * The rendered body: every kept row with the cells it shows. There are no
   * more body rows than data rows, and every one of them shows a cell of the
   * current page.
   */
  function Body(cells: seq<Cell>, currentPage: int, data: seq<seq<int>>): (body: seq<seq<Cell>>)
    ensures |body| <= |data|
    ensures forall i :: 0 <= i < |body| ==> ShowsPage(currentPage, body[i])
  {
    var kept := FilterRows(cells, currentPage, data);
    FilterRowsKeeps(cells, currentPage, data);
    assert forall i :: 0 <= i < |kept| ==> OnPage(cells, currentPage, kept[i]) by {
      forall i | 0 <= i < |kept| ensures OnPage(cells, currentPage, kept[i]) {
        assert kept[i] in kept;
      }
    }
    assert forall i :: 0 <= i < |kept| ==> ShowsPage(currentPage, RenderRow(cells, kept[i])) by {
      forall i | 0 <= i < |kept| ensures ShowsPage(currentPage, RenderRow(cells, kept[i])) {
        KeptRowShowsThePage(cells, currentPage, kept[i]);
      }
    }
    seq(|kept|, i requires 0 <= i < |kept| => RenderRow(cells, kept[i]))
  }

  /** A data row whose indices denote no cell of the current page is not shown at all. */
  lemma RowsOffThePageDropped(cells: seq<Cell>, currentPage: int, data: seq<seq<int>>)
    ensures forall row :: row in data && !HasCellOnPage(cells, currentPage, row) ==>
              row !in FilterRows(cells, currentPage, data)
  {
    FilterRowsKeeps(cells, currentPage, data);
  }
}
