/** Tables: the column-labelled frames the dashboard passes between stages.
    A table is a header plus rows of optional cells; `None` stands for a
    missing value (NaN or NaT), numbers are `real`, dates are day numbers. */
module Tables {

  datatype Option<+T> = None | Some(value: T)

  /** The errors of the pipeline that the presentation layer shows to the user. */
  datatype Error =
    | MissingColumn(column: string)          // a column the code requires is absent
    | MissingColumns(columns: seq<string>)   // a column selection names absent columns
    | NonNumeric(column: string)             // arithmetic on a column holding text or dates
    | Unsortable(column: string)             // `sorted` on values of different kinds

  datatype Result<+T> = Ok(value: T) | Err(error: Error)

  datatype Value = Num(n: real) | Text(s: string) | Day(d: int)

  type Cell = Option<Value>
  type Row = seq<Cell>

  datatype Table = Table(header: seq<string>, rows: seq<Row>)

  /** Every row has one cell per header entry. */
  predicate WellFormed(t: Table)
  {
    forall i :: 0 <= i < |t.rows| ==> |t.rows[i]| == |t.header|
  }

  /** Position of the first header equal to `name`. */
  function IndexOf(h: seq<string>, name: string): (k: nat)
    requires name in h
    ensures k < |h| && h[k] == name
    ensures forall j :: 0 <= j < k ==> h[j] != name
  {
    if h[0] == name then 0 else 1 + IndexOf(h[1..], name)
  }

  /** The cells of column `name` (its first occurrence), one per row. */
  function Column(t: Table, name: string): (c: seq<Cell>)
    requires WellFormed(t) && name in t.header
    ensures |c| == |t.rows|
    ensures forall i :: 0 <= i < |c| ==> c[i] == t.rows[i][IndexOf(t.header, name)]
  {
    var k := IndexOf(t.header, name);
    seq(|t.rows|, i requires 0 <= i < |t.rows| => t.rows[i][k])
  }

  /** `df[name] = cells`: overwrite an existing column in place, else append it. */
  function AssignColumn(t: Table, name: string, cells: seq<Cell>): (r: Table)
    requires WellFormed(t) && |cells| == |t.rows|
    ensures WellFormed(r) && |r.rows| == |t.rows|
    ensures r.header == if name in t.header then t.header else t.header + [name]
    ensures name in r.header && Column(r, name) == cells
    ensures forall c :: c in t.header && c != name ==> Column(r, c) == Column(t, c)
  {
    if name in t.header then
      var k := IndexOf(t.header, name);
      Table(t.header, seq(|t.rows|, i requires 0 <= i < |t.rows| => t.rows[i][k := cells[i]]))
    else
      var r := Table(t.header + [name], seq(|t.rows|, i requires 0 <= i < |t.rows| => t.rows[i] + [cells[i]]));
      assert forall c :: c in t.header ==> IndexOf(r.header, c) == IndexOf(t.header, c) by {
        forall c | c in t.header { IndexOfAppend(t.header, name, c); }
      }
      r
  }

  /** Appending a header does not move the first occurrence of an existing one. */
  lemma {:induction false} IndexOfAppend(h: seq<string>, extra: string, c: string)
    requires c in h
    ensures IndexOf(h + [extra], c) == IndexOf(h, c)
  {
    if h[0] != c {
      assert (h + [extra])[1..] == h[1..] + [extra];
      IndexOfAppend(h[1..], extra, c);
    }
  }

  /** Row tests used for boolean-mask selection (`df[mask]`, `dropna`). */
  datatype Test =
    | NotNull(cols: seq<nat>)                  // no missing value in any of these positions
    | DayBetween(col: nat, lo: int, hi: int)   // a date d with lo <= d <= hi
    | DayIs(col: nat, day: int)                // a date equal to day
    | ValueIn(col: nat, vals: seq<Value>)      // a present value among vals (`isin`)

  predicate Holds(test: Test, row: Row)
  {
    match test
    case NotNull(cols) => forall j :: 0 <= j < |cols| ==> cols[j] < |row| && row[cols[j]].Some?
    case DayBetween(col, lo, hi) =>
      col < |row| && row[col].Some? && row[col].value.Day? && lo <= row[col].value.d <= hi
    case DayIs(col, day) => col < |row| && row[col] == Some(Day(day))
    case ValueIn(col, vals) => col < |row| && row[col].Some? && row[col].value in vals
  }

  /** `a` is obtained from `b` by deleting elements: same order, nothing new. */
  ghost predicate IsSubseq<T>(a: seq<T>, b: seq<T>)
    decreases |b|
  {
    a == [] || (b != [] && ((a[0] == b[0] && IsSubseq(a[1..], b[1..])) || IsSubseq(a, b[1..])))
  }

  /** Rows passing the test, in their original order. */
  function Filter(rows: seq<Row>, test: Test): (r: seq<Row>)
    ensures |r| <= |rows|
    ensures forall i :: 0 <= i < |r| ==> Holds(test, r[i]) && r[i] in rows
    ensures forall i :: 0 <= i < |rows| && Holds(test, rows[i]) ==> rows[i] in r
    ensures IsSubseq(r, rows)
  {
    if rows == [] then []
    else
      var rest := Filter(rows[1..], test);
      assert forall i :: 1 <= i < |rows| ==> rows[i] == rows[1..][i - 1];
      if Holds(test, rows[0]) then
        assert ([rows[0]] + rest)[1..] == rest;
        [rows[0]] + rest
      else rest
  }

  /** `Filter` keeps each passing row exactly as often as it occurs and drops
      every other row. */
  lemma {:induction false} FilterCount(rows: seq<Row>, test: Test)
    ensures forall x :: multiset(Filter(rows, test))[x] ==
              if Holds(test, x) then multiset(rows)[x] else 0
  {
    if rows != [] {
      FilterCount(rows[1..], test);
      assert rows == [rows[0]] + rows[1..];
      assert multiset(rows) == multiset{rows[0]} + multiset(rows[1..]);
      if Holds(test, rows[0]) {
        assert Filter(rows, test) == [rows[0]] + Filter(rows[1..], test);
        assert multiset(Filter(rows, test)) == multiset{rows[0]} + multiset(Filter(rows[1..], test));
      } else {
        assert Filter(rows, test) == Filter(rows[1..], test);
      }
    }
  }

  /** Mask selection keeps the header. */
  function Select(t: Table, test: Test): (r: Table)
    requires WellFormed(t)
    ensures WellFormed(r) && r.header == t.header
    ensures IsSubseq(r.rows, t.rows) && |r.rows| <= |t.rows|
    ensures forall i :: 0 <= i < |r.rows| ==> Holds(test, r.rows[i])
    ensures forall i :: 0 <= i < |t.rows| && Holds(test, t.rows[i]) ==> t.rows[i] in r.rows
    ensures forall x :: multiset(r.rows)[x] == if Holds(test, x) then multiset(t.rows)[x] else 0
  {
    FilterCount(t.rows, test);
    Table(t.header, Filter(t.rows, test))
  }

  lemma {:induction false} SubseqRefl<T>(a: seq<T>)
    ensures IsSubseq(a, a)
  {
    if a != [] { SubseqRefl(a[1..]); }
  }

  lemma {:induction false} SubseqTrans<T>(a: seq<T>, b: seq<T>, c: seq<T>)
    requires IsSubseq(a, b) && IsSubseq(b, c)
    ensures IsSubseq(a, c)
    decreases |c|
  {
    if a == [] || b == [] {
    } else if b[0] == c[0] && IsSubseq(b[1..], c[1..]) {
      if a[0] == b[0] && IsSubseq(a[1..], b[1..]) {
        SubseqTrans(a[1..], b[1..], c[1..]);
      } else {
        SubseqTrans(a, b[1..], c[1..]);
      }
    } else {
      SubseqTrans(a, b, c[1..]);
    }
  }

  /** A subsequence holds only elements of the larger sequence. */
  lemma {:induction false} SubseqMembers<T>(a: seq<T>, b: seq<T>)
    requires IsSubseq(a, b)
    ensures |a| <= |b|
    ensures forall x :: x in a ==> x in b
    decreases |b|
  {
    if a == [] {
    } else if a[0] == b[0] && IsSubseq(a[1..], b[1..]) {
      SubseqMembers(a[1..], b[1..]);
      assert forall x :: x in a ==> x == a[0] || x in a[1..];
    } else {
      SubseqMembers(a, b[1..]);
    }
  }

  /** Positions of the first occurrence of each name, for `NotNull`. */
  function Positions(h: seq<string>, names: seq<string>): (ps: seq<nat>)
    requires forall j :: 0 <= j < |names| ==> names[j] in h
    ensures |ps| == |names|
    ensures forall j :: 0 <= j < |ps| ==> ps[j] == IndexOf(h, names[j])
  {
    seq(|names|, j requires 0 <= j < |names| => IndexOf(h, names[j]))
  }

  /** `df.dropna(subset=names)`: keep rows with a value in every named column. */
  function DropNull(t: Table, names: seq<string>): (r: Table)
    requires WellFormed(t)
    requires forall j :: 0 <= j < |names| ==> names[j] in t.header
    ensures WellFormed(r) && r.header == t.header
    ensures IsSubseq(r.rows, t.rows) && |r.rows| <= |t.rows|
    ensures forall i, j :: 0 <= i < |r.rows| && 0 <= j < |names| ==>
              r.rows[i][IndexOf(t.header, names[j])].Some?
    ensures forall i :: 0 <= i < |t.rows| &&
              (forall j :: 0 <= j < |names| ==> t.rows[i][IndexOf(t.header, names[j])].Some?)
              ==> t.rows[i] in r.rows
    ensures forall x :: x in t.rows ==>
              multiset(r.rows)[x] == if HasValues(t.header, names, x) then multiset(t.rows)[x] else 0
  {
    var ps := Positions(t.header, names);
    var r := Select(t, NotNull(ps));
    assert forall i :: 0 <= i < |r.rows| ==> Holds(NotNull(ps), r.rows[i]);
    assert forall x :: x in t.rows ==> (Holds(NotNull(ps), x) <==> HasValues(t.header, names, x)) by {
      forall x | x in t.rows ensures Holds(NotNull(ps), x) <==> HasValues(t.header, names, x) {
        NotNullValues(t.header, names, x);
      }
    }
    r
  }

  lemma NotNullValues(h: seq<string>, names: seq<string>, x: Row)
    requires forall j :: 0 <= j < |names| ==> names[j] in h
    requires |x| == |h|
    ensures Holds(NotNull(Positions(h, names)), x) <==> HasValues(h, names, x)
  {
    var ps := Positions(h, names);
    assert forall j :: 0 <= j < |ps| ==> ps[j] == IndexOf(h, names[j]) && ps[j] < |x|;
  }

  /** A row of a table with header `h` has a value in every named column. */
  predicate HasValues(h: seq<string>, names: seq<string>, x: Row)
    requires forall j :: 0 <= j < |names| ==> names[j] in h
  {
    |x| == |h| && forall j :: 0 <= j < |names| ==> x[IndexOf(h, names[j])].Some?
  }

  /** `dropna(subset=names)` read column by column: every kept row has all
      the named values, and every row that has them is kept. */
  lemma DropNullColumns(t: Table, names: seq<string>)
    requires WellFormed(t)
    requires forall j :: 0 <= j < |names| ==> names[j] in t.header
    ensures var r := DropNull(t, names);
      (forall i, j :: 0 <= i < |r.rows| && 0 <= j < |names| ==> Column(r, names[j])[i].Some?)
      && (forall i :: 0 <= i < |t.rows| && (forall j :: 0 <= j < |names| ==> Column(t, names[j])[i].Some?)
            ==> t.rows[i] in r.rows)
      && (forall i :: 0 <= i < |t.rows| ==>
            multiset(r.rows)[t.rows[i]] ==
              if forall j :: 0 <= j < |names| ==> Column(t, names[j])[i].Some?
              then multiset(t.rows)[t.rows[i]] else 0)
  {
    var r := DropNull(t, names);
    forall i, j | 0 <= i < |r.rows| && 0 <= j < |names| ensures Column(r, names[j])[i].Some? {
      assert Column(r, names[j])[i] == r.rows[i][IndexOf(t.header, names[j])];
    }
    forall i | 0 <= i < |t.rows| && (forall j :: 0 <= j < |names| ==> Column(t, names[j])[i].Some?)
      ensures t.rows[i] in r.rows
    {
      forall j | 0 <= j < |names| ensures t.rows[i][IndexOf(t.header, names[j])].Some? {
        assert Column(t, names[j])[i].Some?;
      }
    }
    forall i | 0 <= i < |t.rows|
      ensures HasValues(t.header, names, t.rows[i]) <==>
                forall j :: 0 <= j < |names| ==> Column(t, names[j])[i].Some?
    {
      assert forall j :: 0 <= j < |names| ==>
               Column(t, names[j])[i] == t.rows[i][IndexOf(t.header, names[j])];
    }
  }

  /** `df[names]`: the named columns, in the order given. */
  function Project(t: Table, names: seq<string>): (r: Table)
    requires WellFormed(t)
    requires forall j :: 0 <= j < |names| ==> names[j] in t.header
    ensures WellFormed(r) && r.header == names && |r.rows| == |t.rows|
    ensures forall i, j :: 0 <= i < |r.rows| && 0 <= j < |names| ==>
              r.rows[i][j] == t.rows[i][IndexOf(t.header, names[j])]
  {
    var ps := Positions(t.header, names);
    Table(names, seq(|t.rows|, i requires 0 <= i < |t.rows| =>
      seq(|names|, j requires 0 <= j < |names| => t.rows[i][ps[j]])))
  }

  /** The names among `names` that are not headers of `t`, in order. */
  function Absent(h: seq<string>, names: seq<string>): (r: seq<string>)
    ensures forall x :: x in r <==> x in names && x !in h
  {
    if names == [] then []
    else (if names[0] in h then [] else [names[0]]) + Absent(h, names[1..])
  }

  /** `df[names]` as pandas runs it: a KeyError lists the absent names. */
  function Selection(t: Table, names: seq<string>): (r: Result<Table>)
    requires WellFormed(t)
    ensures r.Err? <==> exists j :: 0 <= j < |names| && names[j] !in t.header
    ensures r.Err? ==> r.error == MissingColumns(Absent(t.header, names))
    ensures r.Ok? ==> r.value.header == names && |r.value.rows| == |t.rows| && WellFormed(r.value)
    ensures r.Ok? ==> (forall j :: 0 <= j < |names| ==> names[j] in t.header) && r.value == Project(t, names)
  {
    if forall j :: 0 <= j < |names| ==> names[j] in t.header then Ok(Project(t, names))
    else
      var j :| 0 <= j < |names| && names[j] !in t.header;
      assert names[j] in Absent(t.header, names);
      Err(MissingColumns(Absent(t.header, names)))
  }

  /** All present cells of a column hold numbers (a numeric dtype in pandas). */
  predicate NumericCells(c: seq<Cell>)
  {
    forall i :: 0 <= i < |c| ==> c[i].None? || c[i].value.Num?
  }
}
