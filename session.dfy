/** The shared session view: the date and column filters of the sidebar, the
    load factor and the processed/filtered pair (src/ui/data_context.py).
    Widget answers are parameters: `pick` is the date input (None when the
    user keeps the offered default) and `sels` the multiselect answers. */
module Session {
  import opened Tables
  import Loader

  /** Columns never offered as sidebar filters (`_COLUMNAS_EXCLUIR`). */
  const ExcludedColumns: seq<string> := [
    "x", "y", "z", "holes_dateupdated", "camion", "longitud_teo", "uniqid",
    "fecha_tronadura", "numero", "id_pozo", "este", "norte", "kilos_cargados_real",
    "nombre", "inclinacion_real", "azimuth_real", "diametro", "stemming_real",
    "water_level", "number_primes"
  ]

  // ---------------------------------------------------------------------
  // Distinct values and the date window
  // ---------------------------------------------------------------------

  /** `series.dropna().unique()`: the present values, each once, in order of
      first appearance; its length is `nunique()`. */
  function Distinct(c: seq<Cell>): (r: seq<Value>)
    ensures forall v :: v in r <==> Some(v) in c
    ensures forall i, j :: 0 <= i < j < |r| ==> r[i] != r[j]
  {
    if c == [] then []
    else
      var init := c[..|c| - 1];
      var d := Distinct(init);
      assert c == init + [c[|c| - 1]];
      var last := c[|c| - 1];
      if last.Some? && last.value !in d then d + [last.value] else d
  }

  /** `.dropna().dt.date` of the blast-date column: the days present. */
  function ValidDates(c: seq<Cell>): (r: seq<int>)
    ensures forall d :: d in r <==> Some(Day(d)) in c
  {
    if c == [] then []
    else (if c[0].Some? && c[0].value.Day? then [c[0].value.d] else []) + ValidDates(c[1..])
  }

  function SeqMin(s: seq<int>): (m: int)
    requires s != []
    ensures m in s && forall x :: x in s ==> m <= x
  {
    if |s| == 1 then s[0]
    else
      var m := SeqMin(s[1..]);
      assert forall x :: x in s ==> x == s[0] || x in s[1..];
      if s[0] <= m then s[0] else m
  }

  function SeqMax(s: seq<int>): (m: int)
    requires s != []
    ensures m in s && forall x :: x in s ==> x <= m
  {
    if |s| == 1 then s[0]
    else
      var m := SeqMax(s[1..]);
      assert forall x :: x in s ==> x == s[0] || x in s[1..];
      if s[0] >= m then s[0] else m
  }

  /** What the date input returns: a range, one day, or nothing (cleared). */
  datatype DateChoice = Between(lo: int, hi: int) | OnDay(day: int) | Cleared

  /** The default offered by the date input: the last 30 days of data, cut at
      the earliest date, or the single date when all dates are equal. */
  function DefaultWindow(dates: seq<int>): (r: DateChoice)
    requires dates != []
    ensures r.Between? || r.OnDay?
    ensures r.OnDay? <==> SeqMin(dates) == SeqMax(dates)
    ensures r.OnDay? ==> r.day == SeqMin(dates)
    ensures r.Between? ==>
      SeqMin(dates) <= r.lo < r.hi && r.hi == SeqMax(dates) && r.hi - r.lo <= 30
      && (r.lo == SeqMin(dates) || r.hi - r.lo == 30)
  {
    var lo := SeqMin(dates);
    var hi := SeqMax(dates);
    if lo != hi then Between(if hi - 30 > lo then hi - 30 else lo, hi) else OnDay(lo)
  }

  // ---------------------------------------------------------------------
  // The filters as functions of the table
  // ---------------------------------------------------------------------

  /** The blast-date filter: only when the column exists and has a date. */
  function DateFilter(t: Table, pick: Option<DateChoice>): (r: Table)
    requires WellFormed(t) && Loader.DatesCoerced(t)
    ensures WellFormed(r) && r.header == t.header && IsSubseq(r.rows, t.rows)
  {
    if "fecha_tronadura" !in t.header then (SubseqRefl(t.rows); t)
    else
      var dates := ValidDates(Column(t, "fecha_tronadura"));
      if dates == [] then (SubseqRefl(t.rows); t)
      else
        var choice := if pick.Some? then pick.value else DefaultWindow(dates);
        var k := IndexOf(t.header, "fecha_tronadura");
        match choice
        case Between(lo, hi) => Select(t, DayBetween(k, lo, hi))
        case OnDay(d) => Select(t, DayIs(k, d))
        case Cleared => (SubseqRefl(t.rows); t)
  }

  /** On the first render the date input holds its default window, so no
      choice filters as choosing that window does. */
  lemma DateFilterDefault(t: Table)
    requires WellFormed(t) && Loader.DatesCoerced(t)
    requires "fecha_tronadura" in t.header && ValidDates(Column(t, "fecha_tronadura")) != []
    ensures DateFilter(t, None) == DateFilter(t, Some(DefaultWindow(ValidDates(Column(t, "fecha_tronadura")))))
  {
  }

  /** `columnas_filtrables`: in header order, the columns with more than one
      distinct present value whose lower-cased name is not excluded. */
  function FilterableAmong(t: Table, h: seq<string>): (r: seq<string>)
    requires WellFormed(t) && forall j :: 0 <= j < |h| ==> h[j] in t.header
    ensures IsSubseq(r, h)
    ensures forall c :: c in r <==>
      c in h && |Distinct(Column(t, c))| > 1 && Loader.ToLower(c) !in ExcludedColumns
  {
    if h == [] then []
    else
      var rest := FilterableAmong(t, h[1..]);
      assert forall c :: c in h <==> c == h[0] || c in h[1..];
      if |Distinct(Column(t, h[0]))| > 1 && Loader.ToLower(h[0]) !in ExcludedColumns then
        assert ([h[0]] + rest)[1..] == rest;
        [h[0]] + rest
      else rest
  }

  function FilterableColumns(t: Table): (r: seq<string>)
    requires WellFormed(t)
    ensures IsSubseq(r, t.header)
    ensures forall c :: c in r <==>
      c in t.header && |Distinct(Column(t, c))| > 1 && Loader.ToLower(c) !in ExcludedColumns
  {
    FilterableAmong(t, t.header)
  }

  /** The multiselect answer for a column; no answer is an empty selection. */
  function Chosen(sels: map<string, seq<Value>>, col: string): seq<Value>
  {
    if col in sels then sels[col] else []
  }

  /** The kind of a value; Python orders numbers, strings and dates only
      among their own kind. */
  function KindOf(v: Value): nat
  {
    match v
    case Num(_) => 0
    case Text(_) => 1
    case Day(_) => 2
  }

  /** `sorted` succeeds on values that are all of one kind. */
  predicate Sortable(vs: seq<Value>)
  {
    forall i, j :: 0 <= i < |vs| && 0 <= j < |vs| ==> KindOf(vs[i]) == KindOf(vs[j])
  }

  /** One round of the column loop: the widget appears only while the column
      still has two distinct values, `sorted` on its options raises when they
      mix kinds, and an empty selection keeps everything. */
  function ColumnStep(t: Table, col: string, sels: map<string, seq<Value>>): (r: Result<Table>)
    requires WellFormed(t) && col in t.header
    ensures r.Ok? ==> WellFormed(r.value) && r.value.header == t.header && IsSubseq(r.value.rows, t.rows)
    ensures r.Err? ==> r.error == Unsortable(col)
  {
    var valores := Distinct(Column(t, col));
    var sel := Chosen(sels, col);
    if |valores| > 1 && !Sortable(valores) then Err(Unsortable(col))
    else if |valores| > 1 && sel != [] then Ok(Select(t, ValueIn(IndexOf(t.header, col), sel)))
    else (SubseqRefl(t.rows); Ok(t))
  }

  /** The column loop over `cols`, in order; the first raise ends it. */
  function ApplyColumnFilters(t: Table, cols: seq<string>, sels: map<string, seq<Value>>): (r: Result<Table>)
    requires WellFormed(t) && forall j :: 0 <= j < |cols| ==> cols[j] in t.header
    ensures r.Ok? ==> WellFormed(r.value) && r.value.header == t.header && IsSubseq(r.value.rows, t.rows)
    ensures r.Err? ==> exists j :: 0 <= j < |cols| && r.error == Unsortable(cols[j])
    decreases |cols|
  {
    if cols == [] then (SubseqRefl(t.rows); Ok(t))
    else
      var init := cols[..|cols| - 1];
      match ApplyColumnFilters(t, init, sels)
      case Err(e) =>
        assert forall j :: 0 <= j < |init| ==> init[j] == cols[j];
        Err(e)
      case Ok(before) =>
        match ColumnStep(before, cols[|cols| - 1], sels)
        case Err(e) => Err(e)
        case Ok(r) =>
          SubseqTrans(r.rows, before.rows, t.rows);
          Ok(r)
  }

  /** Once a prefix of the loop has raised, the whole loop raises the same. */
  lemma {:induction false} ApplyErrSticky(t: Table, cols: seq<string>, n: nat, sels: map<string, seq<Value>>)
    requires WellFormed(t) && forall j :: 0 <= j < |cols| ==> cols[j] in t.header
    requires n <= |cols| && ApplyColumnFilters(t, cols[..n], sels).Err?
    ensures ApplyColumnFilters(t, cols, sels) == ApplyColumnFilters(t, cols[..n], sels)
    decreases |cols| - n
  {
    if n == |cols| {
      assert cols[..n] == cols;
    } else {
      var init := cols[..|cols| - 1];
      assert init[..n] == cols[..n];
      ApplyErrSticky(t, init, n, sels);
    }
  }

  /** The sidebar filters are the column loop over the date-filtered table. */
  lemma BasicFiltersLoop(t: Table, pick: Option<DateChoice>, sels: map<string, seq<Value>>)
    requires WellFormed(t) && Loader.DatesCoerced(t)
    ensures var d := DateFilter(t, pick); var cols := FilterableColumns(d);
      (forall j :: 0 <= j < |cols| ==> cols[j] in d.header)
      && BasicFilters(t, pick, sels) == ApplyColumnFilters(d, cols, sels)
  {
    var d := DateFilter(t, pick);
    SubseqMembers(FilterableColumns(d), d.header);
  }

  /** One more column of the loop is one more `ColumnStep`. */
  lemma ApplyStep(t: Table, cols: seq<string>, i: nat, sels: map<string, seq<Value>>, cur: Table)
    requires WellFormed(t) && forall j :: 0 <= j < |cols| ==> cols[j] in t.header
    requires i < |cols| && ApplyColumnFilters(t, cols[..i], sels) == Ok(cur)
    ensures WellFormed(cur) && cur.header == t.header
    ensures ApplyColumnFilters(t, cols[..i + 1], sels) == ColumnStep(cur, cols[i], sels)
  {
    assert cols[..i + 1][..i] == cols[..i];
  }

  /** `_aplicar_filtros_basicos` as a function of its input and the widgets. */
  function BasicFilters(t: Table, pick: Option<DateChoice>, sels: map<string, seq<Value>>): (r: Result<Table>)
    requires WellFormed(t) && Loader.DatesCoerced(t)
    ensures r.Ok? ==> WellFormed(r.value) && r.value.header == t.header && IsSubseq(r.value.rows, t.rows)
    ensures r.Err? ==> r.error.Unsortable? && r.error.column in t.header
  {
    var d := DateFilter(t, pick);
    var cols := FilterableColumns(d);
    SubseqMembers(cols, d.header);
    match ApplyColumnFilters(d, cols, sels)
    case Err(e) => Err(e)
    case Ok(r) =>
      SubseqTrans(r.rows, d.rows, t.rows);
      Ok(r)
  }

  // ---------------------------------------------------------------------
  // What the filters keep
  // ---------------------------------------------------------------------

  /** A date range keeps exactly the rows whose date is present and inside
      the range, bounds included. */
  lemma DateRangeKeeps(t: Table, pick: Option<DateChoice>, lo: int, hi: int)
    requires WellFormed(t) && Loader.DatesCoerced(t) && "fecha_tronadura" in t.header
    requires ValidDates(Column(t, "fecha_tronadura")) != []
    requires pick == Some(Between(lo, hi))
    ensures var r := DateFilter(t, pick);
      (forall i :: 0 <= i < |r.rows| ==> exists d :: lo <= d <= hi && Column(r, "fecha_tronadura")[i] == Some(Day(d)))
      && (forall i, d :: 0 <= i < |t.rows| && lo <= d <= hi && Column(t, "fecha_tronadura")[i] == Some(Day(d))
            ==> t.rows[i] in r.rows)
      && (forall i :: 0 <= i < |t.rows| ==>
            var c := Column(t, "fecha_tronadura")[i];
            multiset(r.rows)[t.rows[i]] ==
              if c.Some? && c.value.Day? && lo <= c.value.d <= hi then multiset(t.rows)[t.rows[i]] else 0)
  {
    var r := DateFilter(t, pick);
    var k := IndexOf(t.header, "fecha_tronadura");
    assert r == Select(t, DayBetween(k, lo, hi));
    forall i | 0 <= i < |r.rows|
      ensures exists d :: lo <= d <= hi && Column(r, "fecha_tronadura")[i] == Some(Day(d))
    {
      assert Holds(DayBetween(k, lo, hi), r.rows[i]);
      var d := r.rows[i][k].value.d;
      assert Column(r, "fecha_tronadura")[i] == Some(Day(d));
    }
    forall i, d | 0 <= i < |t.rows| && lo <= d <= hi && Column(t, "fecha_tronadura")[i] == Some(Day(d))
      ensures t.rows[i] in r.rows
    {
      assert Holds(DayBetween(k, lo, hi), t.rows[i]);
    }
    forall i | 0 <= i < |t.rows|
      ensures var c := Column(t, "fecha_tronadura")[i];
        Holds(DayBetween(k, lo, hi), t.rows[i]) <==> c.Some? && c.value.Day? && lo <= c.value.d <= hi
    {
    }
  }

  /** A single date keeps exactly the rows on that day. */
  lemma DateDayKeeps(t: Table, pick: Option<DateChoice>, day: int)
    requires WellFormed(t) && Loader.DatesCoerced(t) && "fecha_tronadura" in t.header
    requires ValidDates(Column(t, "fecha_tronadura")) != []
    requires pick == Some(OnDay(day))
    ensures var r := DateFilter(t, pick);
      (forall i :: 0 <= i < |r.rows| ==> Column(r, "fecha_tronadura")[i] == Some(Day(day)))
      && (forall i :: 0 <= i < |t.rows| && Column(t, "fecha_tronadura")[i] == Some(Day(day))
            ==> t.rows[i] in r.rows)
      && (forall i :: 0 <= i < |t.rows| ==>
            multiset(r.rows)[t.rows[i]] ==
              if Column(t, "fecha_tronadura")[i] == Some(Day(day)) then multiset(t.rows)[t.rows[i]] else 0)
  {
    var r := DateFilter(t, pick);
    var k := IndexOf(t.header, "fecha_tronadura");
    assert r == Select(t, DayIs(k, day));
    forall i | 0 <= i < |r.rows| ensures Column(r, "fecha_tronadura")[i] == Some(Day(day)) {
      assert Holds(DayIs(k, day), r.rows[i]);
    }
    forall i | 0 <= i < |t.rows| && Column(t, "fecha_tronadura")[i] == Some(Day(day))
      ensures t.rows[i] in r.rows
    {
      assert Holds(DayIs(k, day), t.rows[i]);
    }
    forall i | 0 <= i < |t.rows|
      ensures Holds(DayIs(k, day), t.rows[i]) <==> Column(t, "fecha_tronadura")[i] == Some(Day(day))
    {
    }
  }

  /** Without a date column, without any date, or with the input cleared, the
      date filter keeps the table as it is. */
  lemma DateFilterNoop(t: Table, pick: Option<DateChoice>)
    requires WellFormed(t) && Loader.DatesCoerced(t)
    requires "fecha_tronadura" !in t.header || ValidDates(Column(t, "fecha_tronadura")) == []
             || pick == Some(Cleared)
    ensures DateFilter(t, pick) == t
  {
  }

  /** The column step raises exactly when two present values of the column
      are of different kinds. */
  lemma ColumnStepFails(t: Table, col: string, sels: map<string, seq<Value>>)
    requires WellFormed(t) && col in t.header
    ensures var c := Column(t, col);
      ColumnStep(t, col, sels).Err? <==>
        exists i, j :: 0 <= i < |c| && 0 <= j < |c| && c[i].Some? && c[j].Some?
                       && KindOf(c[i].value) != KindOf(c[j].value)
  {
    var c := Column(t, col);
    var vs := Distinct(c);
    if ColumnStep(t, col, sels).Err? {
      var a, b :| 0 <= a < |vs| && 0 <= b < |vs| && KindOf(vs[a]) != KindOf(vs[b]);
      assert Some(vs[a]) in c && Some(vs[b]) in c;
      var i :| 0 <= i < |c| && c[i] == Some(vs[a]);
      var j :| 0 <= j < |c| && c[j] == Some(vs[b]);
      assert c[i].Some? && c[j].Some? && KindOf(c[i].value) != KindOf(c[j].value);
    }
    if exists i, j :: 0 <= i < |c| && 0 <= j < |c| && c[i].Some? && c[j].Some?
                      && KindOf(c[i].value) != KindOf(c[j].value) {
      var i, j :| 0 <= i < |c| && 0 <= j < |c| && c[i].Some? && c[j].Some?
                  && KindOf(c[i].value) != KindOf(c[j].value);
      var v, w := c[i].value, c[j].value;
      assert v in vs && w in vs && v != w;
      var a :| 0 <= a < |vs| && vs[a] == v;
      var b :| 0 <= b < |vs| && vs[b] == w;
      assert a != b;
      assert !Sortable(vs);
    }
  }

  /** An empty (or absent) selection leaves the table unchanged unless the
      options raise. */
  lemma EmptySelectionKeeps(t: Table, col: string, sels: map<string, seq<Value>>)
    requires WellFormed(t) && col in t.header
    requires col !in sels || sels[col] == []
    ensures ColumnStep(t, col, sels).Ok? ==> ColumnStep(t, col, sels).value == t
  {
  }

  /** A non-empty selection on a column still offered keeps exactly the rows
      whose value is among the selected ones, each as often as it occurs. */
  lemma SelectionKeeps(t: Table, col: string, sels: map<string, seq<Value>>)
    requires WellFormed(t) && col in t.header
    requires col in sels && sels[col] != [] && |Distinct(Column(t, col))| > 1
    ensures var r := ColumnStep(t, col, sels); var c := Column(t, col);
      r.Ok? ==>
        (forall i :: 0 <= i < |r.value.rows| ==>
           Column(r.value, col)[i].Some? && Column(r.value, col)[i].value in sels[col])
        && (forall i :: 0 <= i < |t.rows| && c[i].Some? && c[i].value in sels[col] ==> t.rows[i] in r.value.rows)
        && (forall i :: 0 <= i < |t.rows| ==>
              multiset(r.value.rows)[t.rows[i]] ==
                if c[i].Some? && c[i].value in sels[col] then multiset(t.rows)[t.rows[i]] else 0)
  {
    var r := ColumnStep(t, col, sels);
    if r.Ok? {
      var k := IndexOf(t.header, col);
      var test := ValueIn(k, sels[col]);
      assert r.value == Select(t, test);
      forall i | 0 <= i < |r.value.rows|
        ensures Column(r.value, col)[i].Some? && Column(r.value, col)[i].value in sels[col]
      {
        assert Holds(test, r.value.rows[i]);
      }
      forall i | 0 <= i < |t.rows|
        ensures Holds(test, t.rows[i]) <==> Column(t, col)[i].Some? && Column(t, col)[i].value in sels[col]
      {
      }
    }
  }

  // ---------------------------------------------------------------------
  // The sidebar filter procedure
  // ---------------------------------------------------------------------

  /** `_aplicar_filtros_basicos`: narrows a copy of the table step by step;
      building the options of a column whose values mix kinds raises. */
  method AplicarFiltrosBasicos(df: Table, pick: Option<DateChoice>, sels: map<string, seq<Value>>)
    returns (r: Result<Table>)
    requires WellFormed(df) && Loader.DatesCoerced(df)
    ensures r == BasicFilters(df, pick, sels)
    ensures r.Ok? ==> r.value.header == df.header && IsSubseq(r.value.rows, df.rows)
  {
    var filtrado := FiltrarPorFecha(df, pick);
    var columnas := FilterableColumns(filtrado);
    SubseqMembers(columnas, filtrado.header);
    r := FiltrarColumnas(filtrado, columnas, sels);
    BasicFiltersLoop(df, pick, sels);
  }

  /** The loop over the filterable columns, stopping at the first raise. */
  method FiltrarColumnas(filtrado: Table, columnas: seq<string>, sels: map<string, seq<Value>>)
    returns (r: Result<Table>)
    requires WellFormed(filtrado) && forall j :: 0 <= j < |columnas| ==> columnas[j] in filtrado.header
    ensures r == ApplyColumnFilters(filtrado, columnas, sels)
  {
    var i := 0;
    var actual := filtrado;
    assert columnas[..0] == [];
    assert ApplyColumnFilters(filtrado, columnas[..0], sels) == Ok(filtrado);
    while i < |columnas|
      invariant 0 <= i <= |columnas|
      invariant forall j :: 0 <= j < i ==> columnas[..i][j] in filtrado.header
      invariant ApplyColumnFilters(filtrado, columnas[..i], sels) == Ok(actual)
    {
      var paso := PasoColumna(filtrado, columnas, i, actual, sels);
      if paso.Err? {
        ApplyErrSticky(filtrado, columnas, i + 1, sels);
        return paso;
      }
      PrefixIn(columnas, i + 1, filtrado.header);
      actual := paso.value;
      i := i + 1;
    }
    assert columnas[..i] == columnas;
    r := Ok(actual);
  }

  /** One more column of the loop, on the table the previous ones left. */
  method PasoColumna(filtrado: Table, columnas: seq<string>, i: nat, actual: Table, sels: map<string, seq<Value>>)
    returns (paso: Result<Table>)
    requires WellFormed(filtrado) && forall j :: 0 <= j < |columnas| ==> columnas[j] in filtrado.header
    requires i < |columnas| && ApplyColumnFilters(filtrado, columnas[..i], sels) == Ok(actual)
    ensures paso == ApplyColumnFilters(filtrado, columnas[..i + 1], sels)
  {
    ApplyStep(filtrado, columnas, i, sels, actual);
    paso := FiltrarColumna(actual, columnas[i], sels);
  }

  /** The prefixes of a sequence of headers are headers. */
  lemma PrefixIn(cols: seq<string>, n: nat, h: seq<string>)
    requires n <= |cols| && forall j :: 0 <= j < |cols| ==> cols[j] in h
    ensures forall j :: 0 <= j < n ==> cols[..n][j] in h
  {
  }

  /** One column of the loop in `_aplicar_filtros_basicos`. */
  method FiltrarColumna(actual: Table, col: string, sels: map<string, seq<Value>>) returns (r: Result<Table>)
    requires WellFormed(actual) && col in actual.header
    ensures r == ColumnStep(actual, col, sels)
  {
    var valores := Distinct(Column(actual, col));
    r := Ok(actual);
    if |valores| > 1 {
      if !Sortable(valores) {
        return Err(Unsortable(col));
      }
      var seleccion := Chosen(sels, col);
      if seleccion != [] {
        r := Ok(Select(actual, ValueIn(IndexOf(actual.header, col), seleccion)));
      }
    }
  }

  /** The date block of `_aplicar_filtros_basicos`. */
  method FiltrarPorFecha(df: Table, pick: Option<DateChoice>) returns (r: Table)
    requires WellFormed(df) && Loader.DatesCoerced(df)
    ensures r == DateFilter(df, pick)
  {
    r := df;
    if "fecha_tronadura" in df.header {
      var fechas := ValidDates(Column(df, "fecha_tronadura"));
      if fechas != [] {
        var rango := DefaultWindow(fechas);
        if pick.Some? {
          rango := pick.value;
        }
        var k := IndexOf(df.header, "fecha_tronadura");
        if rango.Between? {
          r := Select(df, DayBetween(k, rango.lo, rango.hi));
        } else if rango.OnDay? {
          r := Select(df, DayIs(k, rango.day));
        }
      }
    }
  }

  // ---------------------------------------------------------------------
  // Load factor
  // ---------------------------------------------------------------------

  /** kilos / longitud for one row, with a zero length counted as missing. */
  function Quotient(k: Cell, l: Cell): (r: Cell)
    ensures r.Some? <==> k.Some? && k.value.Num? && l.Some? && l.value.Num? && l.value.n != 0.0
    ensures r.Some? ==> r.value.Num? && r.value.n * l.value.n == k.value.n
  {
    if k.Some? && k.value.Num? && l.Some? && l.value.Num? && l.value.n != 0.0 then
      Some(Num(k.value.n / l.value.n))
    else None
  }

  /** `pd.to_numeric(x, errors="coerce")` on one cell; `parseNum` reads text. */
  function CoerceNum(c: Cell, parseNum: Value -> Option<real>): (r: Cell)
    ensures r.None? || r.value.Num?
    ensures c.Some? && c.value.Num? ==> r == c
    ensures c.None? ==> r.None?
    ensures c.Some? && !c.value.Num? ==>
      r == (match parseNum(c.value) case None => None case Some(x) => Some(Num(x)))
  {
    match c
    case None => None
    case Some(Num(n)) => Some(Num(n))
    case Some(v) => match parseNum(v) { case None => None case Some(x) => Some(Num(x)) }
  }

  /** The division of one row raises: pandas divides object columns only
      where both cells are present (a zero length is already missing), and
      raises there unless both are numbers. */
  predicate DivisionFails(k: Cell, l: Cell)
  {
    k.Some? && l.Some? && l != Some(Num(0.0)) && !(k.value.Num? && l.value.Num?)
  }

  /** The `factor_carga` block: the ratio when both source columns exist (a
      TypeError when some row pairs a present kilos with a present non-zero
      length and either is text or a date), else the existing column coerced
      to numbers, else nothing. */
  function LoadFactor(t: Table, parseNum: Value -> Option<real>): (r: Result<Table>)
    requires WellFormed(t)
    ensures r.Err? ==> "kilos_cargados_real" in t.header && "longitud_real" in t.header
                       && r.error == NonNumeric("factor_carga")
    ensures r.Ok? ==> WellFormed(r.value) && |r.value.rows| == |t.rows|
                      && (forall c :: c in t.header ==> c in r.value.header)
                      && (forall c :: c in t.header && c != "factor_carga" ==> Column(r.value, c) == Column(t, c))
  {
    if "kilos_cargados_real" in t.header && "longitud_real" in t.header then
      var kilos := Column(t, "kilos_cargados_real");
      var longitud := Column(t, "longitud_real");
      if exists i :: 0 <= i < |t.rows| && DivisionFails(kilos[i], longitud[i]) then
        Err(NonNumeric("factor_carga"))
      else Ok(AssignColumn(t, "factor_carga", seq(|t.rows|, i requires 0 <= i < |t.rows| => Quotient(kilos[i], longitud[i]))))
    else if "factor_carga" in t.header then
      var f := Column(t, "factor_carga");
      Ok(AssignColumn(t, "factor_carga", seq(|t.rows|, i requires 0 <= i < |t.rows| => CoerceNum(f[i], parseNum))))
    else Ok(t)
  }

  /** With both source columns the division raises exactly when some row
      pairs a present kilos with a present non-zero length and either is not
      a number; otherwise the factor is present exactly where both are
      numbers and the length is non-zero, and times the length it gives back
      the kilos. */
  lemma LoadFactorRatio(t: Table, parseNum: Value -> Option<real>)
    requires WellFormed(t) && "kilos_cargados_real" in t.header && "longitud_real" in t.header
    ensures var k := Column(t, "kilos_cargados_real"); var l := Column(t, "longitud_real");
      var r := LoadFactor(t, parseNum);
      (r.Err? <==> exists i :: 0 <= i < |t.rows| && k[i].Some? && l[i].Some? && l[i] != Some(Num(0.0))
                                && (!k[i].value.Num? || !l[i].value.Num?))
      && (r.Ok? ==>
            "factor_carga" in r.value.header
            && forall i :: 0 <= i < |t.rows| ==>
                 var f := Column(r.value, "factor_carga")[i];
                 (f.Some? <==> k[i].Some? && k[i].value.Num? && l[i].Some? && l[i].value.Num? && l[i].value.n != 0.0)
                 && (f.Some? ==> f.value.Num? && f.value.n * l[i].value.n == k[i].value.n))
  {
  }

  /** Text in a row whose length is missing does not raise: that row's factor
      is missing, the others are computed. */
  lemma LoadFactorMasked()
    ensures var t := Table(["kilos_cargados_real", "longitud_real"],
                           [[Some(Text("s/i")), None], [Some(Num(50.0)), Some(Num(10.0))]]);
      var r := LoadFactor(t, _ => None);
      r.Ok? && Column(r.value, "factor_carga") == [None, Some(Num(5.0))]
  {
    var t := Table(["kilos_cargados_real", "longitud_real"],
                   [[Some(Text("s/i")), None], [Some(Num(50.0)), Some(Num(10.0))]]);
    var k := Column(t, "kilos_cargados_real");
    var l := Column(t, "longitud_real");
    assert k == [Some(Text("s/i")), Some(Num(50.0))] && l == [None, Some(Num(10.0))];
    assert !DivisionFails(k[0], l[0]) && !DivisionFails(k[1], l[1]);
    var r := LoadFactor(t, _ => None);
    assert r.Ok?;
    var f := Column(r.value, "factor_carga");
    assert f[0] == None && f[1] == Some(Num(5.0));
  }

  /** Without both source columns an existing factor is re-read as numbers:
      numbers stay, everything else becomes a number or missing. */
  lemma LoadFactorFallback(t: Table, parseNum: Value -> Option<real>)
    requires WellFormed(t) && !("kilos_cargados_real" in t.header && "longitud_real" in t.header)
    requires "factor_carga" in t.header
    ensures var r := LoadFactor(t, parseNum);
      r.Ok? && r.value.header == t.header
      && NumericCells(Column(r.value, "factor_carga"))
      && forall i :: 0 <= i < |t.rows| && Column(t, "factor_carga")[i].Some? && Column(t, "factor_carga")[i].value.Num?
           ==> Column(r.value, "factor_carga")[i] == Column(t, "factor_carga")[i]
  {
  }

  /** With neither source columns nor an existing factor, nothing is added. */
  lemma LoadFactorAbsent(t: Table, parseNum: Value -> Option<real>)
    requires WellFormed(t) && !("kilos_cargados_real" in t.header && "longitud_real" in t.header)
    requires "factor_carga" !in t.header
    ensures LoadFactor(t, parseNum) == Ok(t)
  {
  }

  // ---------------------------------------------------------------------
  // The shared pair
  // ---------------------------------------------------------------------

  /** `DatosPozos`: the processed table and its filtered view. */
  datatype DatosPozos = DatosPozos(procesados: Table, filtrados: Table)

  /** `cargar_y_filtrar_datos` after the processed table is at hand. */
  function LoadAndFilter(procesado: Table, pick: Option<DateChoice>, sels: map<string, seq<Value>>,
                         parseNum: Value -> Option<real>): (r: Result<DatosPozos>)
    requires WellFormed(procesado) && Loader.DatesCoerced(procesado)
    ensures r.Ok? ==> r.value.procesados == procesado
  {
    if "este" !in procesado.header then Err(MissingColumn("este"))
    else if "norte" !in procesado.header then Err(MissingColumn("norte"))
    else
      match BasicFilters(procesado, pick, sels)
      case Err(e) => Err(e)
      case Ok(b) =>
        match LoadFactor(b, parseNum)
        case Err(e) => Err(e)
        case Ok(f) => Ok(DatosPozos(procesado, f))
  }

  /** The run halts, naming `este` before `norte`, when one is missing; with
      both it can only raise on the options of a column or on the load
      factor; otherwise the filtered view has at most the processed rows and
      keeps every processed column and is the load factor derived from the
      filtered rows alone. */
  lemma LoadAndFilterShape(procesado: Table, pick: Option<DateChoice>, sels: map<string, seq<Value>>,
                           parseNum: Value -> Option<real>)
    requires WellFormed(procesado) && Loader.DatesCoerced(procesado)
    ensures var r := LoadAndFilter(procesado, pick, sels, parseNum);
      ("este" !in procesado.header ==> r == Err(MissingColumn("este")))
      && ("este" in procesado.header && "norte" !in procesado.header ==> r == Err(MissingColumn("norte")))
      && ("este" in procesado.header && "norte" in procesado.header && r.Err? ==>
            (r.error.Unsortable? && r.error.column in procesado.header) || r.error == NonNumeric("factor_carga"))
      && (r.Ok? ==>
            "este" in procesado.header && "norte" in procesado.header
            && |r.value.filtrados.rows| <= |procesado.rows|
            && (forall c :: c in procesado.header ==> c in r.value.filtrados.header)
            && BasicFilters(procesado, pick, sels).Ok?
            && LoadFactor(BasicFilters(procesado, pick, sels).value, parseNum) == Ok(r.value.filtrados))
  {
    if "este" in procesado.header && "norte" in procesado.header {
      var b := BasicFilters(procesado, pick, sels);
      if b.Ok? {
        SubseqMembers(b.value.rows, procesado.rows);
      }
    }
  }

  /** `cargar_y_filtrar_datos`: checks the coordinates, filters, then derives
      the load factor on the filtered view only. */
  method CargarYFiltrarDatos(procesado: Table, pick: Option<DateChoice>, sels: map<string, seq<Value>>,
                             parseNum: Value -> Option<real>) returns (r: Result<DatosPozos>)
    requires WellFormed(procesado) && Loader.DatesCoerced(procesado)
    ensures r == LoadAndFilter(procesado, pick, sels, parseNum)
  {
    var requeridas := ["este", "norte"];
    assert requeridas[0] == "este" && requeridas[1] == "norte";
    var i := 0;
    while i < |requeridas|
      invariant 0 <= i <= |requeridas|
      invariant forall j :: 0 <= j < i ==> requeridas[j] in procesado.header
    {
      if requeridas[i] !in procesado.header {
        return Err(MissingColumn(requeridas[i]));
      }
      i := i + 1;
    }
    var filtrado := AplicarFiltrosBasicos(procesado, pick, sels);
    if filtrado.Err? {
      return Err(filtrado.error);
    }
    var f := LoadFactor(filtrado.value, parseNum);
    if f.Err? {
      return Err(f.error);
    }
    r := Ok(DatosPozos(procesado, f.value));
  }
}
