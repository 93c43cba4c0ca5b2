/** Daily traffic rows; a day is its number in the UTC calendar. */
module DayRows {
  datatype Cell = Cell(count: int, uniques: int)
  datatype DayRow = DayRow(date: int, cell: Cell)

  // One repository's rows in `views` or in `clones`, by date.
  type Table = map<int, Cell>

  /** `... WHERE date>=? AND date<=? ORDER BY date`. */
  function RowsInRange(t: Table, from: int, to: int): seq<DayRow>
    decreases 1 + to - from
  {
    if from > to then []
    else (if from in t then [DayRow(from, t[from])] else []) + RowsInRange(t, from + 1, to)
  }

  /** Writing rows one after the other: the last row of a date stays. */
  function PutAll(t: Table, rows: seq<DayRow>): Table {
    if rows == [] then t
    else
      var r := rows[|rows| - 1];
      PutAll(t, rows[..|rows| - 1])[r.date := r.cell]
  }

  predicate DatesAscend(rows: seq<DayRow>) {
    forall i, j :: 0 <= i < j < |rows| ==> rows[i].date < rows[j].date
  }

  lemma {:induction false} RangeQueryRows(t: Table, from: int, to: int)
    ensures var rows := RowsInRange(t, from, to);
            && DatesAscend(rows)
            && (forall i :: 0 <= i < |rows| ==>
              from <= rows[i].date <= to && rows[i].date in t && rows[i].cell == t[rows[i].date])
            && (forall d :: from <= d <= to && d in t ==> DayRow(d, t[d]) in rows)
    decreases 1 + to - from
  {
    if from <= to {
      RangeQueryRows(t, from + 1, to);
    }
  }

  lemma {:induction false} PutAllAt(t: Table, rows: seq<DayRow>, d: int)
    ensures d in PutAll(t, rows) <==> d in t || d in PutAll(map[], rows)
    ensures d in PutAll(map[], rows) ==> PutAll(t, rows)[d] == PutAll(map[], rows)[d]
    ensures d in t && d !in PutAll(map[], rows) ==> PutAll(t, rows)[d] == t[d]
  {
    if rows != [] {
      PutAllAt(t, rows[..|rows| - 1], d);
    }
  }

  lemma {:induction false} PutAllDays(rows: seq<DayRow>, d: int)
    ensures d in PutAll(map[], rows) <==> exists i :: 0 <= i < |rows| && rows[i].date == d
  {
    if rows != [] {
      var front := rows[..|rows| - 1];
      PutAllDays(front, d);
      assert forall i :: 0 <= i < |front| ==> front[i] == rows[i];
    }
  }

  /** Rows with distinct dates are all kept. */
  lemma {:induction false} PutAllKeeps(rows: seq<DayRow>, i: nat)
    requires i < |rows|
    requires forall j :: i < j < |rows| ==> rows[j].date != rows[i].date
    ensures rows[i].date in PutAll(map[], rows) && PutAll(map[], rows)[rows[i].date] == rows[i].cell
  {
    if i < |rows| - 1 {
      PutAllKeeps(rows[..|rows| - 1], i);
    }
  }

  // ---------- Sums of counts ----------

  function CountOn(t: Table, d: int): int {
    if d in t then t[d].count else 0
  }

  /** `SELECT SUM(count) ... WHERE date>=? AND date<=?`, zero over no rows. */
  function SumDays(t: Table, from: int, to: int): int
    decreases 1 + to - from
  {
    if from > to then 0 else CountOn(t, from) + SumDays(t, from + 1, to)
  }

  function SumCounts(rows: seq<DayRow>): int {
    if rows == [] then 0 else SumCounts(rows[..|rows| - 1]) + rows[|rows| - 1].cell.count
  }

  lemma {:induction false} SumCountsConcat(a: seq<DayRow>, b: seq<DayRow>)
    ensures SumCounts(a + b) == SumCounts(a) + SumCounts(b)
  {
    if b == [] {
      assert a + b == a;
    } else {
      assert (a + b)[..|a + b| - 1] == a + b[..|b| - 1];
      SumCountsConcat(a, b[..|b| - 1]);
    }
  }

  /** Adding up the rows of a range query gives the sum over its days. */
  lemma {:induction false} SumOfRange(t: Table, from: int, to: int)
    ensures SumCounts(RowsInRange(t, from, to)) == SumDays(t, from, to)
    decreases 1 + to - from
  {
    if from <= to {
      var head := if from in t then [DayRow(from, t[from])] else [];
      SumOfRange(t, from + 1, to);
      SumCountsConcat(head, RowsInRange(t, from + 1, to));
    }
  }

  lemma {:induction false} SumDaysSplit(t: Table, from: int, mid: int, to: int)
    requires from <= mid <= to + 1
    ensures SumDays(t, from, to) == SumDays(t, from, mid - 1) + SumDays(t, mid, to)
    decreases mid - from
  {
    if from < mid {
      SumDaysSplit(t, from + 1, mid, to);
    }
  }

  lemma {:induction false} SumDaysDependsOnDays(t: Table, u: Table, from: int, to: int)
    requires forall d :: from <= d <= to ==> CountOn(t, d) == CountOn(u, d)
    ensures SumDays(t, from, to) == SumDays(u, from, to)
    decreases 1 + to - from
  {
    if from <= to {
      SumDaysDependsOnDays(t, u, from + 1, to);
    }
  }

  method SumDayCountRows(rows: seq<DayRow>) returns (sum: int)
    ensures sum == SumCounts(rows)
  {
    sum := 0;
    for i := 0 to |rows|
      invariant sum == SumCounts(rows[..i])
    {
      assert rows[..i + 1][..i] == rows[..i];
      sum := sum + rows[i].cell.count;
    }
    assert rows[..|rows|] == rows;
  }

  /** `SELECT SUM(count)` over every row of a repository. */
  ghost function Total(t: Table): int {
    if t == map[] then 0
    else
      assert (forall d :: d !in t) ==> t == map[];
      var d :| d in t;
      t[d].count + Total(t - {d})
  }

  lemma {:induction false} TotalAnyOrder(t: Table, d: int)
    requires d in t
    ensures Total(t) == t[d].count + Total(t - {d})
    decreases |t|
  {
    var e :| e in t && Total(t) == t[e].count + Total(t - {e});
    if e != d {
      TotalAnyOrder(t - {e}, d);
      TotalAnyOrder(t - {d}, e);
      assert t - {e} - {d} == t - {d} - {e};
    }
  }

  method TotalOf(t: Table) returns (sum: int)
    ensures sum == Total(t)
  {
    sum := 0;
    var rest := t;
    while rest != map[]
      invariant sum + Total(rest) == Total(t)
      decreases |rest|
    {
      assert (forall d :: d !in rest) ==> rest == map[];
      var d :| d in rest;
      TotalAnyOrder(rest, d);
      sum := sum + rest[d].count;
      rest := rest - {d};
    }
  }
}
