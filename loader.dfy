/** The loader: header canonicalisation, alias renaming, the real-length
    fallback, geometry resolution and row cleaning (src/data_loader.py). */
module Loader {
  import opened Tables

  // ---------------------------------------------------------------------
  // Header strings
  // ---------------------------------------------------------------------

  /** The characters Python's `str.strip()` removes (`str.isspace`). */
  predicate IsSpace(c: char)
  {
    ('\U{9}' <= c <= '\U{D}') || ('\U{1C}' <= c <= '\U{20}') || c == '\U{85}' || c == '\U{A0}'
    || c == '\U{1680}' || ('\U{2000}' <= c <= '\U{200A}') || c == '\U{2028}' || c == '\U{2029}'
    || c == '\U{202F}' || c == '\U{205F}' || c == '\U{3000}'
  }

  /** Letters that `str.lower()` changes, restricted to ASCII and Latin-1. */
  predicate IsUpper(c: char)
  {
    ('A' <= c <= 'Z') || ('\U{C0}' <= c <= '\U{DE}' && c != '\U{D7}')
  }

  function LowerChar(c: char): (r: char)
    ensures !IsUpper(r) && !IsSpace(r) == !IsSpace(c)
    ensures !IsUpper(c) ==> r == c
  {
    if IsUpper(c) then (c as int + 32) as char else c
  }

  /** `s.lower()` */
  function ToLower(s: string): (r: string)
    ensures |r| == |s|
    ensures forall i :: 0 <= i < |s| ==> r[i] == LowerChar(s[i])
  {
    seq(|s|, i requires 0 <= i < |s| => LowerChar(s[i]))
  }

  /** Every element equal to `a` becomes `b`: `s.replace(a, b)` for single
      characters, and `df.rename(columns={a: b})` on a header list. */
  function Replace<T(==)>(s: seq<T>, a: T, b: T): (r: seq<T>)
    ensures |r| == |s|
    ensures forall i :: 0 <= i < |s| ==> r[i] == if s[i] == a then b else s[i]
  {
    seq(|s|, i requires 0 <= i < |s| => if s[i] == a then b else s[i])
  }

  function StripLeft(s: string): (r: string)
    ensures |r| <= |s| && r == s[|s| - |r|..]
    ensures forall i :: 0 <= i < |s| - |r| ==> IsSpace(s[i])
    ensures r == [] || !IsSpace(r[0])
  {
    if s != [] && IsSpace(s[0]) then StripLeft(s[1..]) else s
  }

  function StripRight(s: string): (r: string)
    ensures |r| <= |s| && r == s[..|r|]
    ensures forall i :: |r| <= i < |s| ==> IsSpace(s[i])
    ensures r == [] || !IsSpace(r[|r| - 1])
  {
    if s != [] && IsSpace(s[|s| - 1]) then StripRight(s[..|s| - 1]) else s
  }

  /** `s.strip()`: the slice of `s` left after removing whitespace at both ends. */
  function Strip(s: string): (r: string)
    ensures r == [] || (!IsSpace(r[0]) && !IsSpace(r[|r| - 1]))
    ensures var k := |s| - |StripLeft(s)|;
      k + |r| <= |s| && r == s[k..k + |r|]
      && (forall i :: 0 <= i < k ==> IsSpace(s[i]))
      && (forall i :: k + |r| <= i < |s| ==> IsSpace(s[i]))
  {
    StripRight(StripLeft(s))
  }

  /** `normalize_column_name`: strip, lower-case, spaces and hyphens to underscores. */
  function NormalizeColumnName(name: string): (r: string)
    ensures forall i :: 0 <= i < |r| ==> !IsUpper(r[i]) && r[i] != ' ' && r[i] != '-'
  {
    Replace(Replace(ToLower(Strip(name)), ' ', '_'), '-', '_')
  }

  /** The shape every canonical header has. */
  predicate IsCanonicalName(s: string)
  {
    (s == [] || (!IsSpace(s[0]) && !IsSpace(s[|s| - 1])))
    && forall i :: 0 <= i < |s| ==> !IsUpper(s[i]) && s[i] != ' ' && s[i] != '-'
  }

  /** What normalisation does to one character of the stripped name. */
  function NormalizeChar(c: char): (r: char)
    ensures !IsUpper(r) && r != ' ' && r != '-'
    ensures !IsSpace(c) ==> !IsSpace(r)
  {
    var l := LowerChar(c);
    if l == ' ' || l == '-' then '_' else l
  }

  lemma NormalizePointwise(name: string)
    ensures |NormalizeColumnName(name)| == |Strip(name)|
    ensures forall i :: 0 <= i < |Strip(name)| ==> NormalizeColumnName(name)[i] == NormalizeChar(Strip(name)[i])
  {
  }

  lemma NormalizeShape(name: string)
    ensures IsCanonicalName(NormalizeColumnName(name))
    ensures |NormalizeColumnName(name)| <= |name|
  {
    var s := Strip(name);
    var r := NormalizeColumnName(name);
    NormalizePointwise(name);
    if r != [] {
      assert r[0] == NormalizeChar(s[0]);
      assert r[|r| - 1] == NormalizeChar(s[|s| - 1]);
    }
  }

  /** A canonical name is a fixed point of normalisation. */
  lemma NormalizeFixes(s: string)
    requires IsCanonicalName(s)
    ensures NormalizeColumnName(s) == s
  {
    assert StripLeft(s) == s;
    assert StripRight(s) == s;
    assert ToLower(s) == s;
  }

  /** A name without upper-case letters is its own lower-casing. */
  lemma LowerFixes(s: string)
    requires IsCanonicalName(s)
    ensures ToLower(s) == s
  {
  }

  lemma NormalizeIdempotent(name: string)
    ensures NormalizeColumnName(NormalizeColumnName(name)) == NormalizeColumnName(name)
  {
    NormalizeShape(name);
    NormalizeFixes(NormalizeColumnName(name));
  }

  // ---------------------------------------------------------------------
  // The header transformation of cargar_datos
  // ---------------------------------------------------------------------

  /** `col.lower()` followed by `normalize_column_name(col)`. */
  function CanonicalName(col: string): (r: string)
    ensures IsCanonicalName(r) && NormalizeColumnName(r) == r
  {
    NormalizeShape(ToLower(col));
    NormalizeFixes(NormalizeColumnName(ToLower(col)));
    NormalizeColumnName(ToLower(col))
  }

  /** The fixed rename table, applied once after the loop. */
  const ColumnMapping: map<string, string> := map[
    "nombre_banco" := "cota",
    "latitud_geo" := "este",
    "longitud_geo" := "norte",
    "longitud_real" := "longitud_real",
    "kilos_cargados_real" := "kilos_cargados_real",
    "nombre_real_profundidad" := "profundidad"
  ]

  /** `df.rename(columns=column_mapping)` on one label. */
  function MapAlias(h: string): (r: string)
    ensures IsCanonicalName(h) ==> IsCanonicalName(r)
    ensures r in ColumnMapping ==> ColumnMapping[r] == r
  {
    AliasTargetsCanonical();
    if h in ColumnMapping then ColumnMapping[h] else h
  }

  lemma MapAliasTable(h: string)
    ensures h == "nombre_banco" ==> MapAlias(h) == "cota"
    ensures h == "latitud_geo" ==> MapAlias(h) == "este"
    ensures h == "longitud_geo" ==> MapAlias(h) == "norte"
    ensures h == "nombre_real_profundidad" ==> MapAlias(h) == "profundidad"
    ensures h !in {"nombre_banco", "latitud_geo", "longitud_geo", "nombre_real_profundidad"}
            ==> MapAlias(h) == h
  {
  }

  /** The net effect of the renaming loop: `longitud_teo` stands in for a missing `longitud_real`. */
  function LengthFallback(cols: seq<string>): (r: seq<string>)
    ensures |r| == |cols|
    ensures "longitud_real" !in cols ==> "longitud_teo" !in r
  {
    if "longitud_real" !in cols && "longitud_teo" in cols
    then Replace(cols, "longitud_teo", "longitud_real")
    else cols
  }

  function MapAll(cols: seq<string>): (r: seq<string>)
    ensures |r| == |cols|
    ensures forall i :: 0 <= i < |cols| ==> r[i] == MapAlias(cols[i])
  {
    seq(|cols|, i requires 0 <= i < |cols| => MapAlias(cols[i]))
  }

  function NormalizeAll(cols: seq<string>): (r: seq<string>)
    ensures |r| == |cols|
    ensures forall i :: 0 <= i < |cols| ==> r[i] == CanonicalName(cols[i])
  {
    seq(|cols|, i requires 0 <= i < |cols| => CanonicalName(cols[i]))
  }

  /** The renaming that follows canonicalisation: the loop's fallback, then the table. */
  function RenameColumns(n: seq<string>): (r: seq<string>)
    ensures |r| == |n|
  {
    MapAll(LengthFallback(n))
  }

  /** The headers `cargar_datos` produces from the raw headers. */
  function CanonicalHeaders(raw: seq<string>): (r: seq<string>)
    ensures |r| == |raw|
    ensures forall i :: 0 <= i < |r| ==> IsCanonicalName(r[i])
  {
    RenameKeepsCanonical(NormalizeAll(raw));
    RenameColumns(NormalizeAll(raw))
  }

  /** `cargar_datos` after the spreadsheet read: the rows are untouched,
      the headers are canonicalised, renamed in a loop, then mapped. */
  method CargarDatos(raw: Table) returns (df: Table)
    ensures df == Table(CanonicalHeaders(raw.header), raw.rows)
  {
    var cols := seq(|raw.header|, i requires 0 <= i < |raw.header| => ToLower(raw.header[i]));
    cols := seq(|cols|, i requires 0 <= i < |cols| => NormalizeColumnName(cols[i]));
    assert cols == NormalizeAll(raw.header);
    forall i | 0 <= i < |cols| ensures ToLower(cols[i]) == cols[i] {
      LowerFixes(cols[i]);
    }
    cols := RenameLoop(cols);
    cols := seq(|cols|, i requires 0 <= i < |cols| => MapAlias(cols[i]));
    df := Table(cols, raw.rows);
  }

  /** The `for col in df.columns` loop of `cargar_datos`; it walks the index
      as it was when the loop started while `df` is rebound by each rename. */
  method RenameLoop(snapshot: seq<string>) returns (cols: seq<string>)
    requires forall i :: 0 <= i < |snapshot| ==> ToLower(snapshot[i]) == snapshot[i]
    ensures cols == LengthFallback(snapshot)
  {
    cols := snapshot;
    var i := 0;
    while i < |snapshot|
      invariant 0 <= i <= |snapshot|
      invariant cols == if "longitud_real" !in snapshot && "longitud_teo" in snapshot[..i]
                        then Replace(snapshot, "longitud_teo", "longitud_real") else snapshot
    {
      var col := snapshot[i];
      assert snapshot[..i + 1] == snapshot[..i] + [col];
      if ToLower(col) == "kilos_cargados_real" {
        cols := Replace(cols, col, "kilos_cargados_real");
      }
      if ToLower(col) == "longitud_real" {
        cols := Replace(cols, col, "longitud_real");
      }
      if ToLower(col) == "longitud_teo" {
        if "longitud_real" !in cols {
          cols := Replace(cols, col, "longitud_real");
        }
      }
      i := i + 1;
    }
    assert snapshot[..i] == snapshot;
  }

  /** Header count and order are kept; each canonical header is renamed by the
      table, except that `longitud_teo` stands in for an absent `longitud_real`. */
  lemma RenameColumnsPointwise(n: seq<string>, i: nat)
    requires i < |n|
    ensures |RenameColumns(n)| == |n|
    ensures RenameColumns(n)[i] ==
      if n[i] == "longitud_teo" && "longitud_real" !in n then "longitud_real" else MapAlias(n[i])
  {
  }

  /** `longitud_teo` becomes `longitud_real` exactly when no `longitud_real` header exists;
      afterwards a `longitud_teo` header remains only beside a `longitud_real` one. */
  lemma LengthFallbackIff(n: seq<string>)
    ensures var out := RenameColumns(n);
      ("longitud_real" in out <==> "longitud_real" in n || "longitud_teo" in n)
      && ("longitud_teo" in out <==> "longitud_teo" in n && "longitud_real" in n)
      && (forall i :: 0 <= i < |n| && n[i] == "longitud_teo" ==>
            (out[i] == "longitud_real" <==> "longitud_real" !in n))
  {
    var out := RenameColumns(n);
    forall i | 0 <= i < |n|
      ensures out[i] == "longitud_real" <==> n[i] == "longitud_real" || (n[i] == "longitud_teo" && "longitud_real" !in n)
      ensures out[i] == "longitud_teo" <==> n[i] == "longitud_teo" && "longitud_real" in n
    {
      RenameColumnsPointwise(n, i);
      AliasLengths(n[i]);
    }
    if "longitud_real" in n {
      var k :| 0 <= k < |n| && n[k] == "longitud_real";
      assert out[k] == "longitud_real";
    }
    if "longitud_teo" in n {
      var k :| 0 <= k < |n| && n[k] == "longitud_teo";
      if "longitud_real" in n { assert out[k] == "longitud_teo"; }
      else { assert out[k] == "longitud_real"; }
    }
    if "longitud_real" in out {
      var k :| 0 <= k < |out| && out[k] == "longitud_real";
      assert n[k] == "longitud_real" || n[k] == "longitud_teo";
    }
    if "longitud_teo" in out {
      var k :| 0 <= k < |out| && out[k] == "longitud_teo";
      assert n[k] == "longitud_teo";
    }
  }

  /** The rename table sends only `longitud_real` to itself among the two
      length headers, and nothing to `longitud_teo` but itself. */
  lemma AliasLengths(h: string)
    ensures MapAlias(h) == "longitud_real" <==> h == "longitud_real"
    ensures MapAlias(h) == "longitud_teo" <==> h == "longitud_teo"
  {
  }

  lemma AliasTargetsCanonical()
    ensures IsCanonicalName("cota") && IsCanonicalName("este") && IsCanonicalName("norte")
    ensures IsCanonicalName("longitud_real") && IsCanonicalName("kilos_cargados_real")
    ensures IsCanonicalName("profundidad")
  {
  }

  /** Renaming canonical names yields canonical names. */
  lemma RenameKeepsCanonical(n: seq<string>)
    requires forall i :: 0 <= i < |n| ==> IsCanonicalName(n[i])
    ensures forall i :: 0 <= i < |RenameColumns(n)| ==> IsCanonicalName(RenameColumns(n)[i])
  {
    AliasTargetsCanonical();
    forall i | 0 <= i < |n| ensures IsCanonicalName(RenameColumns(n)[i]) {
      RenameColumnsPointwise(n, i);
    }
  }

  /** The renaming is idempotent on any header list. */
  lemma RenameColumnsIdempotent(n: seq<string>)
    ensures RenameColumns(RenameColumns(n)) == RenameColumns(n)
  {
    var out := RenameColumns(n);
    LengthFallbackIff(n);
    assert LengthFallback(out) == out;
    forall i | 0 <= i < |out| ensures MapAlias(out[i]) == out[i] {
      RenameColumnsPointwise(n, i);
    }
  }

  /** Reapplying the header transformation to its own output changes nothing. */
  lemma CanonicalHeadersIdempotent(raw: seq<string>)
    ensures CanonicalHeaders(CanonicalHeaders(raw)) == CanonicalHeaders(raw)
  {
    var n := NormalizeAll(raw);
    var out := RenameColumns(n);
    forall i | 0 <= i < |n| ensures IsCanonicalName(n[i]) { NormalizeShape(ToLower(raw[i])); }
    RenameKeepsCanonical(n);
    forall i | 0 <= i < |out| ensures CanonicalName(out[i]) == out[i] {
      assert ToLower(out[i]) == out[i];
      NormalizeFixes(out[i]);
    }
    assert NormalizeAll(out) == out;
    RenameColumnsIdempotent(n);
  }

  // ---------------------------------------------------------------------
  // procesar_datos
  // ---------------------------------------------------------------------

  /** `if target not in df.columns and source in df.columns: df[target] = df[source]` */
  function FillFrom(t: Table, target: string, source: string): (r: Table)
    requires WellFormed(t)
    ensures WellFormed(r) && |r.rows| == |t.rows|
    ensures forall c :: c in t.header ==> c in r.header && Column(r, c) == Column(t, c)
    ensures forall c :: c in r.header <==> c in t.header || (c == target && source in t.header)
    ensures r.header == if target !in t.header && source in t.header then t.header + [target] else t.header
    ensures t.header <= r.header
    ensures target !in t.header && source in t.header ==> Column(r, target) == Column(t, source)
  {
    if target !in t.header && source in t.header then AssignColumn(t, target, Column(t, source)) else t
  }

  /** The x/y/z assignments. Existing columns are never overwritten; new ones are appended. */
  function ResolveGeometry(t: Table): (r: Table)
    requires WellFormed(t)
    ensures WellFormed(r) && |r.rows| == |t.rows| && t.header <= r.header
    ensures forall c :: c in t.header ==> c in r.header && Column(r, c) == Column(t, c)
  {
    FillFrom(FillFrom(FillFrom(FillFrom(t, "x", "este"), "y", "norte"), "z", "cota"), "z", "profundidad")
  }

  lemma AxisNamesDistinct()
    ensures "x" != "y" && "x" != "z" && "y" != "z"
  {
    assert "x"[0] != "y"[0] && "x"[0] != "z"[0] && "y"[0] != "z"[0];
  }

  /** Which axes exist after resolution. */
  lemma GeometryAxes(t: Table)
    requires WellFormed(t)
    ensures var r := ResolveGeometry(t);
      ("x" in r.header <==> "x" in t.header || "este" in t.header)
      && ("y" in r.header <==> "y" in t.header || "norte" in t.header)
      && ("z" in r.header <==> "z" in t.header || "cota" in t.header || "profundidad" in t.header)
  {
    var t1 := FillFrom(t, "x", "este");
    var t2 := FillFrom(t1, "y", "norte");
    var t3 := FillFrom(t2, "z", "cota");
    var t4 := FillFrom(t3, "z", "profundidad");
    assert t4 == ResolveGeometry(t);
    AxisNamesDistinct();
  }

  /** Where each added axis comes from: x from este, y from norte, z from
      cota, and from profundidad only when there is no cota. */
  lemma GeometrySources(t: Table)
    requires WellFormed(t)
    ensures var r := ResolveGeometry(t);
      ("x" !in t.header && "este" in t.header ==> "x" in r.header && Column(r, "x") == Column(t, "este"))
      && ("y" !in t.header && "norte" in t.header ==> "y" in r.header && Column(r, "y") == Column(t, "norte"))
      && ("z" !in t.header && "cota" in t.header ==> "z" in r.header && Column(r, "z") == Column(t, "cota"))
      && ("z" !in t.header && "cota" !in t.header && "profundidad" in t.header
          ==> "z" in r.header && Column(r, "z") == Column(t, "profundidad"))
  {
    var t1 := FillFrom(t, "x", "este");
    var t2 := FillFrom(t1, "y", "norte");
    var t3 := FillFrom(t2, "z", "cota");
    var t4 := FillFrom(t3, "z", "profundidad");
    assert t4 == ResolveGeometry(t);
    AxisNamesDistinct();
    assert "x" in t1.header ==> Column(t4, "x") == Column(t1, "x");
    assert "y" in t2.header ==> Column(t4, "y") == Column(t2, "y");
    assert "z" in t3.header ==> Column(t4, "z") == Column(t3, "z");
  }

  /** The first of x, y, z that is not a header (`required_columns` order). */
  function MissingAxis(h: seq<string>): (r: Option<string>)
    ensures r == None <==> "x" in h && "y" in h && "z" in h
    ensures r == Some("x") <==> "x" !in h
    ensures r == Some("y") <==> "x" in h && "y" !in h
    ensures r == Some("z") <==> "x" in h && "y" in h && "z" !in h
  {
    if "x" !in h then Some("x") else if "y" !in h then Some("y") else if "z" !in h then Some("z") else None
  }

  /** `pd.to_datetime(value, errors="coerce")` on one cell; `parse` is the date parser. */
  function CoerceDate(c: Cell, parse: Value -> Option<int>): (r: Cell)
    ensures r.None? || r.value.Day?
    ensures c.Some? && c.value.Day? ==> r == c
    ensures c.None? ==> r.None?
    ensures c.Some? && !c.value.Day? ==>
      r == (match parse(c.value) case None => None case Some(d) => Some(Day(d)))
  {
    match c
    case None => None
    case Some(Day(d)) => Some(Day(d))
    case Some(v) => match parse(v) { case None => None case Some(d) => Some(Day(d)) }
  }

  /** Every present cell of `fecha_tronadura` (if any) is a date. */
  predicate DatesCoerced(t: Table)
    requires WellFormed(t)
  {
    "fecha_tronadura" in t.header ==>
      forall i :: 0 <= i < |t.rows| ==> Column(t, "fecha_tronadura")[i].None? || Column(t, "fecha_tronadura")[i].value.Day?
  }

  function CoerceDateColumn(t: Table, parse: Value -> Option<int>): (r: Table)
    requires WellFormed(t)
    ensures WellFormed(r) && r.header == t.header && |r.rows| == |t.rows|
    ensures forall c :: c in t.header && c != "fecha_tronadura" ==> Column(r, c) == Column(t, c)
    ensures DatesCoerced(r)
    ensures "fecha_tronadura" in t.header ==> forall i :: 0 <= i < |t.rows| ==>
      Column(r, "fecha_tronadura")[i] == CoerceDate(Column(t, "fecha_tronadura")[i], parse)
  {
    if "fecha_tronadura" in t.header then
      var col := Column(t, "fecha_tronadura");
      AssignColumn(t, "fecha_tronadura", seq(|col|, i requires 0 <= i < |col| => CoerceDate(col[i], parse)))
    else t
  }

  /** What `procesar_datos` returns, or the error it raises. */
  function Process(t: Table, parse: Value -> Option<int>): (r: Result<Table>)
    requires WellFormed(t)
    ensures r.Err? ==> r.error.MissingColumn? && r.error.column in ["x", "y", "z"]
  {
    var g := ResolveGeometry(t);
    match MissingAxis(g.header)
    case Some(a) => Err(MissingColumn(a))
    case None => Ok(CoerceDateColumn(DropNull(g, ["x", "y", "z"]), parse))
  }

  /** The loader fails exactly when an axis has no source, naming the first such axis. */
  lemma ProcessError(t: Table, parse: Value -> Option<int>)
    requires WellFormed(t)
    ensures var h := t.header;
      var noX := "x" !in h && "este" !in h;
      var noY := "y" !in h && "norte" !in h;
      var noZ := "z" !in h && "cota" !in h && "profundidad" !in h;
      (Process(t, parse).Err? <==> noX || noY || noZ)
      && (noX ==> Process(t, parse) == Err(MissingColumn("x")))
      && (!noX && noY ==> Process(t, parse) == Err(MissingColumn("y")))
      && (!noX && !noY && noZ ==> Process(t, parse) == Err(MissingColumn("z")))
  {
    GeometryAxes(t);
    var g := ResolveGeometry(t);
    var m := MissingAxis(g.header);
    assert Process(t, parse).Err? <==> m.Some?;
    assert m.Some? ==> Process(t, parse) == Err(MissingColumn(m.value));
  }

  /** A successful load is the resolved table with incomplete rows dropped and
      only the date column rewritten; every row left has x, y and z. */
  lemma ProcessRows(t: Table, parse: Value -> Option<int>)
    requires WellFormed(t)
    requires Process(t, parse).Ok?
    ensures var g := ResolveGeometry(t); var c := Process(t, parse).value;
      "x" in g.header && "y" in g.header && "z" in g.header
      && WellFormed(c) && c.header == g.header && |c.rows| <= |t.rows| && DatesCoerced(c)
      && (forall i :: 0 <= i < |c.rows| ==>
            Column(c, "x")[i].Some? && Column(c, "y")[i].Some? && Column(c, "z")[i].Some?)
  {
    var g := ResolveGeometry(t);
    assert MissingAxis(g.header) == None;
    assert Process(t, parse).value == CoerceDateColumn(DropNull(g, ["x", "y", "z"]), parse);
    AxesKept(g, parse);
  }

  /** After `dropna` on the axes and the date coercion, every row has all three axes. */
  lemma AxesKept(g: Table, parse: Value -> Option<int>)
    requires WellFormed(g) && "x" in g.header && "y" in g.header && "z" in g.header
    ensures var c := CoerceDateColumn(DropNull(g, ["x", "y", "z"]), parse);
      forall i :: 0 <= i < |c.rows| ==>
        Column(c, "x")[i].Some? && Column(c, "y")[i].Some? && Column(c, "z")[i].Some?
  {
    var names := ["x", "y", "z"];
    assert names[0] == "x" && names[1] == "y" && names[2] == "z";
    var kept := DropNull(g, names);
    var c := CoerceDateColumn(kept, parse);
    AxisNamesDistinct();
    DropNullColumns(g, names);
    assert Column(c, "x") == Column(kept, names[0]);
    assert Column(c, "y") == Column(kept, names[1]);
    assert Column(c, "z") == Column(kept, names[2]);
  }

  /** The row drop keeps, in order, every resolved row that has x, y and z, and
      the date coercion leaves every other column of those rows as it was. */
  lemma ProcessKeeps(t: Table, parse: Value -> Option<int>)
    requires WellFormed(t)
    requires Process(t, parse).Ok?
    ensures var g := ResolveGeometry(t); var k := DropNull(g, ["x", "y", "z"]);
      var c := Process(t, parse).value;
      "x" in g.header && "y" in g.header && "z" in g.header
      && IsSubseq(k.rows, g.rows) && |c.rows| == |k.rows|
      && (forall i :: 0 <= i < |g.rows| && Present3(g, i) ==> g.rows[i] in k.rows)
      && (forall i :: 0 <= i < |g.rows| ==>
            multiset(k.rows)[g.rows[i]] == if Present3(g, i) then multiset(g.rows)[g.rows[i]] else 0)
      && (forall col :: col in g.header && col != "fecha_tronadura" ==> Column(c, col) == Column(k, col))
  {
    var g := ResolveGeometry(t);
    var names := ["x", "y", "z"];
    assert MissingAxis(g.header) == None;
    var k := DropNull(g, names);
    assert Process(t, parse).value == CoerceDateColumn(k, parse);
    KeptAxes(g);
  }

  /** Row `i` of `t` has all three axes. */
  predicate Present3(t: Table, i: nat)
    requires WellFormed(t) && "x" in t.header && "y" in t.header && "z" in t.header && i < |t.rows|
  {
    Column(t, "x")[i].Some? && Column(t, "y")[i].Some? && Column(t, "z")[i].Some?
  }

  lemma KeptAxes(g: Table)
    requires WellFormed(g) && "x" in g.header && "y" in g.header && "z" in g.header
    ensures forall i :: 0 <= i < |g.rows| && Present3(g, i) ==> g.rows[i] in DropNull(g, ["x", "y", "z"]).rows
    ensures forall i :: 0 <= i < |g.rows| ==>
              multiset(DropNull(g, ["x", "y", "z"]).rows)[g.rows[i]] ==
                if Present3(g, i) then multiset(g.rows)[g.rows[i]] else 0
  {
    var names := ["x", "y", "z"];
    assert names[0] == "x" && names[1] == "y" && names[2] == "z";
    DropNullColumns(g, names);
    forall i | 0 <= i < |g.rows|
      ensures Present3(g, i) <==> forall j :: 0 <= j < |names| ==> Column(g, names[j])[i].Some?
    {
      Present3Axes(g, i);
    }
  }

  lemma Present3Axes(g: Table, i: nat)
    requires WellFormed(g) && "x" in g.header && "y" in g.header && "z" in g.header && i < |g.rows|
    ensures var names := ["x", "y", "z"];
      Present3(g, i) <==> forall j :: 0 <= j < |names| ==> Column(g, names[j])[i].Some?
  {
    var names := ["x", "y", "z"];
    assert names[0] == "x" && names[1] == "y" && names[2] == "z";
    if Present3(g, i) {
      forall j | 0 <= j < |names| ensures Column(g, names[j])[i].Some? {
        assert j == 0 || j == 1 || j == 2;
      }
    }
  }

  /** The pandas frame `procesar_datos` receives and writes x/y/z into. */
  class Frame {
    var header: seq<string>
    var rows: seq<Row>

    function Snapshot(): Table
      reads this
    {
      Table(header, rows)
    }

    constructor (t: Table)
      ensures Snapshot() == t
    {
      header := t.header;
      rows := t.rows;
    }

    /** `df[name] = cells` on this frame. */
    method SetColumn(name: string, cells: seq<Cell>)
      requires WellFormed(Snapshot()) && |cells| == |rows|
      modifies this
      ensures Snapshot() == AssignColumn(old(Snapshot()), name, cells)
    {
      var t := AssignColumn(Snapshot(), name, cells);
      header, rows := t.header, t.rows;
    }
  }

  /** The first block of `procesar_datos`: x/y/z written into the caller's frame. */
  method FillAxes(df: Frame)
    requires WellFormed(df.Snapshot())
    modifies df
    ensures df.Snapshot() == ResolveGeometry(old(df.Snapshot()))
  {
    if "x" !in df.header && "este" in df.header {
      df.SetColumn("x", Column(df.Snapshot(), "este"));
    }
    if "y" !in df.header && "norte" in df.header {
      df.SetColumn("y", Column(df.Snapshot(), "norte"));
    }
    if "z" !in df.header && "cota" in df.header {
      df.SetColumn("z", Column(df.Snapshot(), "cota"));
    }
    if "z" !in df.header && "profundidad" in df.header {
      df.SetColumn("z", Column(df.Snapshot(), "profundidad"));
    }
  }

  /** `procesar_datos`: fills x/y/z into the caller's frame, checks the axes in
      order, drops rows missing any of them and coerces the blast date. */
  method ProcesarDatos(df: Frame, parse: Value -> Option<int>) returns (r: Result<Table>)
    requires WellFormed(df.Snapshot())
    modifies df
    ensures df.Snapshot() == ResolveGeometry(old(df.Snapshot()))
    ensures r == Process(old(df.Snapshot()), parse)
  {
    FillAxes(df);
    var g := df.Snapshot();
    var required := ["x", "y", "z"];
    assert required[0] == "x" && required[1] == "y" && required[2] == "z";
    AxisNamesDistinct();
    var i := 0;
    while i < |required|
      invariant 0 <= i <= |required|
      invariant forall j :: 0 <= j < i ==> required[j] in g.header
    {
      if required[i] !in g.header {
        assert MissingAxis(g.header) == Some(required[i]);
        return Err(MissingColumn(required[i]));
      }
      i := i + 1;
    }
    assert MissingAxis(g.header) == None;
    var t := DropNull(g, required);
    t := CoerceDateColumn(t, parse);
    r := Ok(t);
  }
}
