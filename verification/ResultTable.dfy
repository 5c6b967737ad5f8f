/** The table of query results and the end of a SELECT: empty rows are trimmed,
    every filter erases rows by swapping with the last one, and what is left is
    sorted by ranking. */
module ResultTable {
  import opened Sorting

  datatype Cell = Empty | Value(text: string, confidence: nat, entity: nat, property: nat)

  datatype Row = Row(cells: seq<Cell>, ranking: int)

  type Filter = Row -> bool

  function Ranking(row: Row): int { row.ranking }

  predicate AllEmpty(row: Row) { forall i :: 0 <= i < |row.cells| ==> row.cells[i].Empty? }

  function NotEmpty(): Filter { (row: Row) => !AllEmpty(row) }

  /** Rows with a value in the given column. */
  function Filled(variable: nat): Filter {
    (row: Row) => variable < |row.cells| && !row.cells[variable].Empty?
  }

  function Not(test: Filter): Filter { (row: Row) => !test(row) }

  predicate PassesAll(filters: seq<Filter>, row: Row) {
    forall i :: 0 <= i < |filters| ==> filters[i](row)
  }

  function AllOf(filters: seq<Filter>): Filter { (row: Row) => PassesAll(filters, row) }

  /** The rows a test keeps, in order. */
  function Where(rows: seq<Row>, test: Filter): seq<Row> {
    if rows == [] then []
    else Where(rows[..|rows| - 1], test) + if test(rows[|rows| - 1]) then [rows[|rows| - 1]] else []
  }

  /** VariableSet::erase on an index: the last row takes the erased row's place. */
  function Erased(rows: seq<Row>, i: nat): seq<Row>
    requires i < |rows|
  {
    rows[i := rows[|rows| - 1]][..|rows| - 1]
  }

  /** Erasing loses one occurrence of the erased row and moves nothing before it. */
  lemma ErasedCounts(rows: seq<Row>, i: nat, row: Row)
    requires i < |rows|
    ensures Erased(rows, i)[..i] == rows[..i]
    ensures multiset(Erased(rows, i)[i..])[row] == multiset(rows[i..])[row] - if rows[i] == row then 1 else 0
  {
    var last := |rows| - 1;
    if i == last {
      assert rows[i..] == [rows[i]];
      assert Erased(rows, i)[i..] == [];
    } else {
      var middle := rows[i + 1..last];
      assert rows[i..] == [rows[i]] + middle + [rows[last]];
      assert Erased(rows, i)[i..] == [rows[last]] + middle;
    }
  }

  /** What one filter's iterator loop makes of the rows from index i on. */
  function Swept(rows: seq<Row>, i: nat, test: Filter): seq<Row>
    requires i <= |rows|
    decreases |rows| - i
  {
    if i == |rows| then rows
    else if test(rows[i]) then Swept(rows, i + 1, test)
    else Swept(Erased(rows, i), i, test)
  }

  function SweptByAll(rows: seq<Row>, filters: seq<Filter>): seq<Row> {
    if filters == [] then rows
    else Swept(SweptByAll(rows, filters[..|filters| - 1]), 0, filters[|filters| - 1])
  }

  lemma {:induction false} WhereCounts(rows: seq<Row>, test: Filter, row: Row)
    ensures multiset(Where(rows, test))[row] == if test(row) then multiset(rows)[row] else 0
  {
    if rows != [] {
      assert rows == rows[..|rows| - 1] + [rows[|rows| - 1]];
      WhereCounts(rows[..|rows| - 1], test, row);
    }
  }

  /** One sweep keeps exactly the occurrences of rows that pass, and those
      before the starting index. */
  lemma {:induction false} SweepCounts(rows: seq<Row>, i: nat, test: Filter, row: Row)
    requires i <= |rows|
    ensures multiset(Swept(rows, i, test))[row]
         == multiset(rows[..i])[row] + if test(row) then multiset(rows[i..])[row] else 0
    decreases |rows| - i
  {
    if i == |rows| {
      assert rows[..i] == rows && rows[i..] == [];
    } else if test(rows[i]) {
      assert rows[..i + 1] == rows[..i] + [rows[i]];
      assert rows[i..] == [rows[i]] + rows[i + 1..];
      SweepCounts(rows, i + 1, test, row);
    } else {
      ErasedCounts(rows, i, row);
      SweepCounts(Erased(rows, i), i, test, row);
    }
  }

  lemma {:induction false} SweepAllCounts(rows: seq<Row>, filters: seq<Filter>, row: Row)
    ensures multiset(SweptByAll(rows, filters))[row]
         == if PassesAll(filters, row) then multiset(rows)[row] else 0
  {
    if filters != [] {
      var init, last := filters[..|filters| - 1], filters[|filters| - 1];
      SweepAllCounts(rows, init, row);
      var before := SweptByAll(rows, init);
      assert before[..0] == [] && before[0..] == before;
      SweepCounts(before, 0, last, row);
      assert PassesAll(filters, row) <==> PassesAll(init, row) && last(row);
    }
  }

  /** The filter stage leaves exactly the rows passing every filter, each as
      often as before, whatever order the swaps left them in. */
  lemma FiltersKeepExactlyThePassingRows(rows: seq<Row>, filters: seq<Filter>)
    ensures multiset(SweptByAll(rows, filters)) == multiset(Where(rows, AllOf(filters)))
  {
    var all := AllOf(filters);
    forall row: Row
      ensures multiset(SweptByAll(rows, filters))[row] == multiset(Where(rows, all))[row]
    {
      SweepAllCounts(rows, filters, row);
      WhereCounts(rows, all, row);
    }
  }

  /** Splitting a table by a column loses and invents nothing. */
  lemma ExtractAndRemovePartition(rows: seq<Row>, test: Filter)
    ensures multiset(Where(rows, test)) + multiset(Where(rows, Not(test))) == multiset(rows)
  {
    forall row: Row
      ensures (multiset(Where(rows, test)) + multiset(Where(rows, Not(test))))[row] == multiset(rows)[row]
    {
      WhereCounts(rows, test, row);
      WhereCounts(rows, Not(test), row);
    }
  }

  lemma WhereGrows(rows: seq<Row>, i: nat, test: Filter)
    requires i < |rows|
    ensures Where(rows[..i + 1], test) == Where(rows[..i], test) + if test(rows[i]) then [rows[i]] else []
  {
    assert rows[..i + 1][..i] == rows[..i];
  }

  class VariableSet {
    const width: nat
    var rows: seq<Row>

    ghost predicate Valid()
      reads this
    {
      forall i :: 0 <= i < |rows| ==> |rows[i].cells| == width
    }

    constructor (width: nat)
      ensures Valid() && this.width == width && rows == []
    {
      this.width := width;
      rows := [];
    }

    /** Appends a row; refuses one of the wrong size. */
    method AddRow(row: Row) returns (index: int)
      requires Valid()
      modifies this
      ensures Valid()
      ensures |row.cells| == width ==> rows == old(rows) + [row] && index == |old(rows)|
      ensures |row.cells| != width ==> rows == old(rows) && index == -1
    {
      if |row.cells| != width { return -1; }
      rows := rows + [row];
      index := |rows| - 1;
    }

    /** Writes one value into a fresh row, whose ranking becomes its confidence. */
    method AddValue(variable: nat, value: Cell) returns (index: nat)
      requires Valid() && variable < width && value.Value?
      modifies this
      ensures Valid() && index == |old(rows)| && |rows| == index + 1 && rows[..index] == old(rows)
      ensures rows[index].cells[variable] == value && rows[index].ranking == value.confidence
      ensures forall v :: 0 <= v < width && v != variable ==> rows[index].cells[v] == Empty
    {
      rows := rows + [Row(seq(width, _ => Empty), 0)];
      index := |rows| - 1;
      SetValue(variable, value, index);
    }

    /** Overwrites a cell of an existing row and raises the row's ranking. */
    method SetValue(variable: nat, value: Cell, index: nat)
      requires Valid() && variable < width && value.Value? && index < |rows|
      modifies this
      ensures Valid()
      ensures rows == old(rows)[index := Row(old(rows)[index].cells[variable := value],
                                             old(rows)[index].ranking + value.confidence)]
    {
      var row := rows[index];
      rows := rows[index := Row(row.cells[variable := value], row.ranking + value.confidence)];
    }

    /** Erases through an iterator and returns the next one. */
    method Erase(i: nat) returns (next: nat)
      requires Valid() && i < |rows|
      modifies this
      ensures Valid() && rows == Erased(old(rows), i)
      ensures next == if i == |old(rows)| - 1 then |rows| else i
    {
      var last := |rows| - 1;
      if i != last {
        rows := rows[i := rows[last]][last := rows[i]];
        rows := rows[..last];
        next := i;
      } else {
        rows := rows[..last];
        next := |rows|;
      }
    }

    method ExtractRowsWith(variable: nat) returns (results: seq<Row>)
      requires Valid() && variable < width
      ensures results == Where(rows, Filled(variable))
    {
      ghost var test := Filled(variable);
      results := [];
      for i := 0 to |rows|
        invariant results == Where(rows[..i], test)
      {
        WhereGrows(rows, i, test);
        if !rows[i].cells[variable].Empty? { results := results + [rows[i]]; }
      }
      assert rows[..|rows|] == rows;
    }

    /** Keeps, in order, the rows whose cell in this column is empty. */
    method RemoveRowsWith(variable: nat)
      requires Valid() && variable < width
      modifies this
      ensures Valid()
      ensures rows == Where(old(rows), Not(Filled(variable)))
    {
      ghost var test := Not(Filled(variable));
      var kept: seq<Row> := [];
      for i := 0 to |rows|
        invariant rows == old(rows)
        invariant kept == Where(rows[..i], test)
        invariant forall j :: 0 <= j < |kept| ==> |kept[j].cells| == width
      {
        WhereGrows(rows, i, test);
        if rows[i].cells[variable].Empty? { kept := kept + [rows[i]]; }
      }
      assert rows[..|rows|] == rows;
      rows := kept;
    }

    method TrimEmptyRows()
      requires Valid()
      modifies this
      ensures Valid() && rows == Where(old(rows), NotEmpty())
    {
      ghost var test := NotEmpty();
      var kept: seq<Row> := [];
      for i := 0 to |rows|
        invariant rows == old(rows)
        invariant kept == Where(rows[..i], test)
        invariant forall j :: 0 <= j < |kept| ==> |kept[j].cells| == width
      {
        WhereGrows(rows, i, test);
        if !AllEmpty(rows[i]) { kept := kept + [rows[i]]; }
      }
      assert rows[..|rows|] == rows;
      rows := kept;
    }

    method Sort()
      requires Valid()
      modifies this
      ensures Valid() && rows == StableSort(old(rows), Ranking)
    {
      StableSortIsStableSort(rows, Ranking);
      var sorted := StableSort(rows, Ranking);
      forall i | 0 <= i < |sorted| ensures |sorted[i].cells| == width {
        assert sorted[i] in multiset(rows);
        assert sorted[i] in rows;
      }
      rows := sorted;
    }

    /** The filter stage: each filter walks an iterator over the shrinking table. */
    method ApplyFilters(filters: seq<Filter>)
      requires Valid()
      modifies this
      ensures Valid() && rows == SweptByAll(old(rows), filters)
    {
      for f := 0 to |filters|
        invariant Valid() && rows == SweptByAll(old(rows), filters[..f])
      {
        assert filters[..f + 1][..f] == filters[..f];
        ghost var before := rows;
        var i: nat := 0;
        while i != |rows|
          invariant Valid() && i <= |rows|
          invariant Swept(rows, i, filters[f]) == Swept(before, 0, filters[f])
          decreases |rows| - i
        {
          if !filters[f](rows[i]) {
            i := Erase(i);
          } else {
            i := i + 1;
          }
        }
      }
      assert filters[..|filters|] == filters;
    }

    /** The stages of a SELECT after the pattern match: what is returned is, as
        a multiset, the non-empty rows that pass every filter, best ranked first. */
    method Finish(filters: seq<Filter>)
      requires Valid()
      modifies this
      ensures Valid()
      ensures multiset(rows) == multiset(Where(Where(old(rows), NotEmpty()), AllOf(filters)))
      ensures Descending(rows, Ranking)
    {
      TrimEmptyRows();
      FiltersKeepExactlyThePassingRows(rows, filters);
      ApplyFilters(filters);
      StableSortIsStableSort(rows, Ranking);
      Sort();
    }
  }
}
