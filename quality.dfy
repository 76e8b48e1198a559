/** The geotechnics and quality page: the load-factor rows, the length
    deviation with its three-way classification, and the diameter tolerance
    check against the nominal diameter (src/pages/3_Geotecnia_y_Calidad.py). */
module Quality {
  import opened Tables
  import Loader
  import Plots
  import Session

  // ---------------------------------------------------------------------
  // Load factor
  // ---------------------------------------------------------------------

  /** `df[df["factor_carga"].notnull()]`, or nothing without the column. */
  function FactorRows(t: Table): (r: Option<Table>)
    requires WellFormed(t)
    ensures r.Some? <==> "factor_carga" in t.header
    ensures r.Some? ==>
      var k := IndexOf(t.header, "factor_carga");
      WellFormed(r.value) && r.value.header == t.header && IsSubseq(r.value.rows, t.rows)
      && (forall i :: 0 <= i < |r.value.rows| ==> r.value.rows[i][k].Some?)
      && (forall i :: 0 <= i < |t.rows| && t.rows[i][k].Some? ==> t.rows[i] in r.value.rows)
      && (forall i :: 0 <= i < |t.rows| ==>
            multiset(r.value.rows)[t.rows[i]] == if t.rows[i][k].Some? then multiset(t.rows)[t.rows[i]] else 0)
  {
    if "factor_carga" in t.header then
      var names := ["factor_carga"];
      var r := DropNull(t, names);
      assert names[0] == "factor_carga";
      assert forall i :: 0 <= i < |t.rows| ==>
               (HasValues(t.header, names, t.rows[i]) <==> t.rows[i][IndexOf(t.header, "factor_carga")].Some?);
      Some(r)
    else None
  }

  // ---------------------------------------------------------------------
  // Length deviation
  // ---------------------------------------------------------------------

  const LengthColumns: seq<string> := ["numero", "longitud_real", "longitud_teo", "este", "norte"]

  /** `100 * (real - teo) / teo` with a zero (or missing) length counted as missing. */
  function Deviation(medida: Cell, teo: Cell): (d: Option<real>)
    ensures d.Some? <==> medida.Some? && medida.value.Num? && teo.Some? && teo.value.Num? && teo.value.n != 0.0
    ensures d.Some? ==> d.value * teo.value.n == 100.0 * (medida.value.n - teo.value.n)
  {
    if medida.Some? && medida.value.Num? && teo.Some? && teo.value.Num? && teo.value.n != 0.0 then
      Some(100.0 * (medida.value.n - teo.value.n) / teo.value.n)
    else None
  }

  function Deviations(medida: seq<Cell>, teo: seq<Cell>): (r: seq<Option<real>>)
    requires |medida| == |teo|
    ensures |r| == |medida| && forall i :: 0 <= i < |r| ==> r[i] == Deviation(medida[i], teo[i])
  {
    seq(|medida|, i requires 0 <= i < |medida| => Deviation(medida[i], teo[i]))
  }

  /** The `desviacion_%` column. */
  function DeviationCells(d: seq<Option<real>>): (r: seq<Cell>)
    ensures |r| == |d|
    ensures forall i :: 0 <= i < |r| ==> (r[i].Some? <==> d[i].Some?) && (d[i].Some? ==> r[i] == Some(Num(d[i].value)))
  {
    seq(|d|, i requires 0 <= i < |d| => if d[i].Some? then Some(Num(d[i].value)) else None)
  }

  datatype Clase = Dentro | Sub | Sobre

  /** Strictly below -5% is under-drilled, strictly above +5% over-drilled;
      the bounds themselves and a missing deviation are within tolerance. */
  function Classify(d: Option<real>): (c: Clase)
    ensures c == Sub <==> d.Some? && d.value < -5.0
    ensures c == Sobre <==> d.Some? && d.value > 5.0
    ensures c == Dentro <==> d.None? || -5.0 <= d.value <= 5.0
  {
    if d.Some? && d.value > 5.0 then Sobre
    else if d.Some? && d.value < -5.0 then Sub
    else Dentro
  }

  function Classes(d: seq<Option<real>>): (r: seq<Clase>)
    ensures |r| == |d| && forall i :: 0 <= i < |r| ==> r[i] == Classify(d[i])
  {
    seq(|d|, i requires 0 <= i < |d| => Classify(d[i]))
  }

  const DentroLabel: string := "Dentro de tolerancia"
  const SubLabel: string := "Sub-perforado (<-5%)"
  const SobreLabel: string := "Sobre-perforado (>+5%)"

  function Label(c: Clase): string
  {
    match c
    case Dentro => DentroLabel
    case Sub => SubLabel
    case Sobre => SobreLabel
  }

  /** Different classes have different labels, so counting labels counts classes. */
  lemma LabelsDistinct(a: Clase, b: Clase)
    ensures Label(a) == Label(b) <==> a == b
  {
    assert DentroLabel[0] == 'D' && SubLabel[0] == 'S' && SobreLabel[0] == 'S';
    assert SubLabel[1] == 'u' && SobreLabel[1] == 'o';
  }

  /** The `clasificacion` column. */
  function LabelCells(cs: seq<Clase>): (r: seq<Cell>)
    ensures |r| == |cs| && forall i :: 0 <= i < |r| ==> r[i] == Some(Text(Label(cs[i])))
  {
    seq(|cs|, i requires 0 <= i < |cs| => Some(Text(Label(cs[i]))))
  }

  /** `(column == label).sum()`. */
  function CountLabel(c: seq<Cell>, etiqueta: string): nat
  {
    if c == [] then 0 else (if c[0] == Some(Text(etiqueta)) then 1 else 0) + CountLabel(c[1..], etiqueta)
  }

  function CountClass(cs: seq<Clase>, k: Clase): (n: nat)
    ensures n <= |cs|
  {
    if cs == [] then 0 else (if cs[0] == k then 1 else 0) + CountClass(cs[1..], k)
  }

  lemma {:induction false} CountLabelClass(cs: seq<Clase>, k: Clase)
    ensures CountLabel(LabelCells(cs), Label(k)) == CountClass(cs, k)
  {
    if cs != [] {
      CountLabelClass(cs[1..], k);
      LabelsDistinct(cs[0], k);
      assert LabelCells(cs)[1..] == LabelCells(cs[1..]);
    }
  }

  /** Every row falls in exactly one class. */
  lemma {:induction false} ClassesPartition(cs: seq<Clase>)
    ensures CountClass(cs, Sub) + CountClass(cs, Sobre) + CountClass(cs, Dentro) == |cs|
  {
    if cs != [] {
      ClassesPartition(cs[1..]);
    }
  }

  /** `100 * n / total`. */
  function Percent(n: nat, total: nat): (p: real)
    requires total > 0
    ensures p * (total as real) == 100.0 * (n as real)
    ensures 0.0 <= p && (n <= total ==> p <= 100.0)
  {
    var p := 100.0 * (n as real) / (total as real);
    assert n <= total ==> p <= 100.0 by {
      if n <= total {
        assert 100.0 * (n as real) <= 100.0 * (total as real);
      }
    }
    p
  }

  datatype LengthOutcome =
    | NoLengthColumns                            // one of the two lengths is missing
    | NoPairs                                    // no row survives `dropna`
    | LengthReport(tabla: Table, nSub: nat, nSobre: nat, total: nat)

  /** The columns `df_long` receives and the class counts, given the rows
      that survived `dropna`. */
  function LengthReportOf(d: Table): (r: LengthOutcome)
    requires WellFormed(d) && "longitud_real" in d.header && "longitud_teo" in d.header
    ensures r.LengthReport? && r.total == |d.rows| && |r.tabla.rows| == |d.rows|
  {
    var desv := Deviations(Column(d, "longitud_real"), Column(d, "longitud_teo"));
    var t1 := AssignColumn(d, "desviacion_%", DeviationCells(desv));
    var t2 := AssignColumn(t1, "clasificacion", LabelCells(Classes(desv)));
    var etiquetas := Column(t2, "clasificacion");
    LengthReport(t2, CountLabel(etiquetas, SubLabel), CountLabel(etiquetas, SobreLabel), |d.rows|)
  }

  /** `df[LengthColumns].dropna()`. */
  function LengthRowsOf(t: Table): (d: Table)
    requires WellFormed(t) && forall j :: 0 <= j < |LengthColumns| ==> LengthColumns[j] in t.header
    ensures WellFormed(d) && d.header == LengthColumns
  {
    DropNull(Project(t, LengthColumns), LengthColumns)
  }

  /** The length block: select the five columns (a KeyError names any that
      are absent), drop rows with a missing value, add the deviation and the
      class, and count the classes by label; arithmetic on text raises. */
  function LengthControl(t: Table): (r: Result<LengthOutcome>)
    requires WellFormed(t)
    ensures r.Err? ==> r.error.MissingColumns? || r.error.NonNumeric?
    ensures r.Ok? && r.value.LengthReport? ==> 0 < r.value.total <= |t.rows|
  {
    if !("longitud_real" in t.header && "longitud_teo" in t.header) then Ok(NoLengthColumns)
    else match Selection(t, LengthColumns)
      case Err(e) => Err(e)
      case Ok(s) =>
        var d := DropNull(s, LengthColumns);
        if |d.rows| == 0 then Ok(NoPairs)
        else if !NumericCells(Column(d, "longitud_real")) then Err(NonNumeric("longitud_real"))
        else if !NumericCells(Column(d, "longitud_teo")) then Err(NonNumeric("longitud_teo"))
        else Ok(LengthReportOf(d))
  }

  /** The analysis runs exactly when both lengths exist; a missing `numero`,
      `este` or `norte` then raises, naming the absent columns. */
  lemma LengthGuard(t: Table)
    requires WellFormed(t)
    ensures LengthControl(t) == Ok(NoLengthColumns) <==> "longitud_real" !in t.header || "longitud_teo" !in t.header
    ensures "longitud_real" in t.header && "longitud_teo" in t.header ==>
      (LengthControl(t) == Err(MissingColumns(Absent(t.header, LengthColumns))) <==> Absent(t.header, LengthColumns) != [])
  {
    var a := Absent(t.header, LengthColumns);
    if "longitud_real" in t.header && "longitud_teo" in t.header {
      if a != [] {
        assert a[0] in a;
        assert Selection(t, LengthColumns).Err?;
      } else {
        LengthSelected(t);
      }
    }
  }

  /** With all five columns present the length block can only raise on
      arithmetic. */
  lemma LengthSelected(t: Table)
    requires WellFormed(t) && Absent(t.header, LengthColumns) == []
    ensures LengthControl(t).Err? ==> LengthControl(t).error.NonNumeric?
  {
    assert Selection(t, LengthColumns).Ok?;
  }

  /** A report is built from the non-empty `df[LengthColumns].dropna()`,
      whose rows `Tables.DropNullColumns` characterises. */
  lemma LengthRows(t: Table)
    requires WellFormed(t) && LengthControl(t).Ok? && LengthControl(t).value.LengthReport?
    ensures forall j :: 0 <= j < |LengthColumns| ==> LengthColumns[j] in t.header
    ensures LengthControl(t).value == LengthReportOf(LengthRowsOf(t))
    ensures |LengthRowsOf(t).rows| > 0
  {
    assert "longitud_real" in t.header && "longitud_teo" in t.header;
    var sel := Selection(t, LengthColumns);
    assert sel.Ok?;
    var s := Project(t, LengthColumns);
    assert sel.value == s;
    var d := DropNull(s, LengthColumns);
    assert d == LengthRowsOf(t);
    assert |d.rows| != 0;
    assert NumericCells(Column(d, "longitud_real")) && NumericCells(Column(d, "longitud_teo"));
    assert LengthControl(t) == Ok(LengthReportOf(d));
  }

  /** The report keeps the selected columns and adds the deviation and the
      class of every row. */
  lemma ReportColumns(d: Table)
    requires WellFormed(d) && "longitud_real" in d.header && "longitud_teo" in d.header
    ensures var rep := LengthReportOf(d);
      var desv := Deviations(Column(d, "longitud_real"), Column(d, "longitud_teo"));
      rep.total == |d.rows| == |rep.tabla.rows|
      && "clasificacion" in rep.tabla.header && "desviacion_%" in rep.tabla.header
      && Column(rep.tabla, "clasificacion") == LabelCells(Classes(desv))
      && Column(rep.tabla, "desviacion_%") == DeviationCells(desv)
      && forall c :: c in d.header && c != "clasificacion" && c != "desviacion_%" ==>
           c in rep.tabla.header && Column(rep.tabla, c) == Column(d, c)
  {
    var desv := Deviations(Column(d, "longitud_real"), Column(d, "longitud_teo"));
    var t1 := AssignColumn(d, "desviacion_%", DeviationCells(desv));
    assert "desviacion_%"[0] != "clasificacion"[0];
    assert Column(AssignColumn(t1, "clasificacion", LabelCells(Classes(desv))), "desviacion_%") == DeviationCells(desv);
  }

  /** The counts are the rows below -5% and above +5%; with the rows within
      tolerance they partition the table, and both percentages lie in [0, 100]. */
  lemma ReportCounts(d: Table)
    requires WellFormed(d) && "longitud_real" in d.header && "longitud_teo" in d.header && |d.rows| > 0
    ensures var rep := LengthReportOf(d);
      var cs := Classes(Deviations(Column(d, "longitud_real"), Column(d, "longitud_teo")));
      rep.nSub == CountClass(cs, Sub) && rep.nSobre == CountClass(cs, Sobre)
      && rep.nSub + rep.nSobre + CountClass(cs, Dentro) == rep.total
      && 0.0 <= Percent(rep.nSub, rep.total) <= 100.0
      && 0.0 <= Percent(rep.nSobre, rep.total) <= 100.0
  {
    ReportColumns(d);
    var cs := Classes(Deviations(Column(d, "longitud_real"), Column(d, "longitud_teo")));
    CountLabelClass(cs, Sub);
    CountLabelClass(cs, Sobre);
    ClassesPartition(cs);
  }

  /** The default class and the two masked overwrites of `.loc`, in place. */
  method Clasificar(desv: seq<Option<real>>) returns (clases: array<Clase>)
    ensures fresh(clases)
    ensures clases[..] == Classes(desv)
  {
    clases := new Clase[|desv|](_ => Dentro);
    for i := 0 to |desv|
      invariant forall j :: 0 <= j < i ==> clases[j] == (if desv[j].Some? && desv[j].value < -5.0 then Sub else Dentro)
      invariant forall j :: i <= j < |desv| ==> clases[j] == Dentro
    {
      if desv[i].Some? && desv[i].value < -5.0 {
        clases[i] := Sub;
      }
    }
    for i := 0 to |desv|
      invariant forall j :: 0 <= j < i ==> clases[j] == Classify(desv[j])
      invariant forall j :: i <= j < |desv| ==> clases[j] == (if desv[j].Some? && desv[j].value < -5.0 then Sub else Dentro)
    {
      if desv[i].Some? && desv[i].value > 5.0 {
        clases[i] := Sobre;
      }
    }
  }

  /** The length block with the deviation and class columns written into
      the copy `df_long`. */
  method ControlLongitud(df: Table) returns (r: Result<LengthOutcome>)
    requires WellFormed(df)
    ensures r == LengthControl(df)
  {
    if !("longitud_real" in df.header && "longitud_teo" in df.header) {
      return Ok(NoLengthColumns);
    }
    var seleccion := Selection(df, LengthColumns);
    if seleccion.Err? {
      return Err(seleccion.error);
    }
    var dfLong := DropNull(seleccion.value, LengthColumns);
    if |dfLong.rows| == 0 {
      return Ok(NoPairs);
    }
    var medida := Column(dfLong, "longitud_real");
    var teo := Column(dfLong, "longitud_teo");
    if !NumericCells(medida) {
      return Err(NonNumeric("longitud_real"));
    }
    if !NumericCells(teo) {
      return Err(NonNumeric("longitud_teo"));
    }
    var copia := new Loader.Frame(dfLong);
    var desv := Deviations(medida, teo);
    copia.SetColumn("desviacion_%", DeviationCells(desv));
    var clases := Clasificar(desv);
    copia.SetColumn("clasificacion", LabelCells(clases[..]));
    var tabla := copia.Snapshot();
    var etiquetas := Column(tabla, "clasificacion");
    r := Ok(LengthReport(tabla, CountLabel(etiquetas, SubLabel), CountLabel(etiquetas, SobreLabel), |dfLong.rows|));
  }

  // ---------------------------------------------------------------------
  // Diameter tolerance
  // ---------------------------------------------------------------------

  const DiameterSelection: seq<string> := ["numero", "este", "norte", "diametro"]

  /** The numbers among the cells, in order (what `mode` looks at). */
  function Numbers(c: seq<Cell>): (r: seq<real>)
    ensures forall x :: x in r <==> Some(Num(x)) in c
  {
    if c == [] then []
    else
      assert forall x :: Some(Num(x)) in c <==> c[0] == Some(Num(x)) || Some(Num(x)) in c[1..];
      (if c[0].Some? && c[0].value.Num? then [c[0].value.n] else []) + Numbers(c[1..])
  }

  function Occurrences(s: seq<real>, x: real): nat
  {
    if s == [] then 0 else (if s[0] == x then 1 else 0) + Occurrences(s[1..], x)
  }

  lemma {:induction false} OccurrencesAppend(a: seq<real>, b: seq<real>, x: real)
    ensures Occurrences(a + b, x) == Occurrences(a, x) + Occurrences(b, x)
  {
    if a != [] {
      assert (a + b)[1..] == a[1..] + b;
      OccurrencesAppend(a[1..], b, x);
    } else {
      assert a + b == b;
    }
  }

  /** A number occurs in `Numbers(c)` as often as its cell occurs in the column. */
  lemma {:induction false} NumbersCount(c: seq<Cell>, x: real)
    ensures Occurrences(Numbers(c), x) == multiset(c)[Some(Num(x))]
  {
    if c != [] {
      var head := if c[0].Some? && c[0].value.Num? then [c[0].value.n] else [];
      NumbersCount(c[1..], x);
      OccurrencesAppend(head, Numbers(c[1..]), x);
      assert c == [c[0]] + c[1..];
      assert multiset(c) == multiset{c[0]} + multiset(c[1..]);
      assert Occurrences(head, x) == if c[0] == Some(Num(x)) then 1 else 0;
    }
  }

  /** Among `cands`, the most frequent value in `s`, the smallest on a tie. */
  function MostFrequent(s: seq<real>, cands: seq<real>): (m: real)
    requires cands != []
    ensures m in cands
    ensures forall x :: x in cands ==>
      Occurrences(s, x) < Occurrences(s, m) || (Occurrences(s, x) == Occurrences(s, m) && m <= x)
  {
    if |cands| == 1 then cands[0]
    else
      var rest := MostFrequent(s, cands[1..]);
      assert forall x :: x in cands <==> x == cands[0] || x in cands[1..];
      var c := cands[0];
      if Occurrences(s, c) > Occurrences(s, rest)
         || (Occurrences(s, c) == Occurrences(s, rest) && c < rest) then c
      else rest
  }

  /** `mode().iloc[0]`: the smallest of the most frequent values; the
      `mean()` of nothing (NaN) when there is no number at all. */
  function Nominal(c: seq<Cell>): (r: Option<real>)
    ensures r.None? <==> Numbers(c) == []
    ensures r.Some? ==>
      var s := Numbers(c);
      r.value in s
      && forall x :: x in s ==> (Occurrences(s, x) < Occurrences(s, r.value)
                                || (Occurrences(s, x) == Occurrences(s, r.value) && r.value <= x))
  {
    var s := Numbers(c);
    if s == [] then None else Some(MostFrequent(s, s))
  }

  /** `|d - nominal| > tol`, false for a missing value or a NaN nominal. */
  function OutOfTolerance(c: Cell, nominal: Option<real>, tol: real): (b: bool)
    ensures b <==> c.Some? && c.value.Num? && nominal.Some? && Plots.Abs(c.value.n - nominal.value) > tol
  {
    c.Some? && c.value.Num? && nominal.Some? && Plots.Abs(c.value.n - nominal.value) > tol
  }

  function Flags(c: seq<Cell>, nominal: Option<real>, tol: real): (r: seq<bool>)
    ensures |r| == |c| && forall i :: 0 <= i < |r| ==> r[i] == OutOfTolerance(c[i], nominal, tol)
  {
    seq(|c|, i requires 0 <= i < |c| => OutOfTolerance(c[i], nominal, tol))
  }

  function CountTrue(b: seq<bool>): (n: nat)
    ensures n <= |b|
  {
    if b == [] then 0 else (if b[0] then 1 else 0) + CountTrue(b[1..])
  }

  datatype DiameterOutcome =
    | NoDiameterColumn
    | NoDiameterData
    | DiameterReport(tabla: Table, nominal: Option<real>, fuera: seq<bool>, pctFuera: real)

  /** The nominal from the raw diameters, the auxiliary columns, one flag
      per row against the tolerance, and the flagged percentage. */
  function DiameterReportOf(d: Table, tol: real, parseNum: Value -> Option<real>, fmt: int -> string)
    : (r: DiameterOutcome)
    requires WellFormed(d) && "diametro" in d.header && |d.rows| > 0
    ensures r.DiameterReport? && |r.tabla.rows| == |r.fuera| == |d.rows|
  {
    var nominal := Nominal(Column(d, "diametro"));
    var aux := Plots.PrepararColumnasAux(d, parseNum, fmt);
    Plots.DiameterAdded(d, parseNum);
    Plots.DateLabelsRule(Plots.DiameterColumns(d, parseNum), fmt);
    var fuera := Flags(Column(aux, "diametro"), nominal, tol);
    DiameterReport(aux, nominal, fuera, Percent(CountTrue(fuera), |aux.rows|))
  }

  /** `df[DiameterSelection].dropna()`. */
  function DiameterRowsOf(t: Table): (d: Table)
    requires WellFormed(t) && forall j :: 0 <= j < |DiameterSelection| ==> DiameterSelection[j] in t.header
    ensures WellFormed(d) && d.header == DiameterSelection
  {
    DropNull(Project(t, DiameterSelection), DiameterSelection)
  }

  /** The diameter block: select and `dropna` the four columns, and report
      on the rows left; the tolerance `tol` comes from a widget that keeps
      it in [0, 20]. `describe()[["mean", "std", "min", "max"]]` on the
      diameters raises unless every present diameter is a number. */
  function DiameterControl(t: Table, tol: real, parseNum: Value -> Option<real>, fmt: int -> string)
    : (r: Result<DiameterOutcome>)
    requires WellFormed(t) && 0.0 <= tol <= 20.0
    ensures r.Err? ==> r.error.MissingColumns? || r.error.NonNumeric?
  {
    if "diametro" !in t.header then Ok(NoDiameterColumn)
    else match Selection(t, DiameterSelection)
      case Err(e) => Err(e)
      case Ok(s) =>
        var d := DropNull(s, DiameterSelection);
        assert DiameterSelection[3] == "diametro";
        if |d.rows| == 0 then Ok(NoDiameterData)
        else if !NumericCells(Column(d, "diametro")) then Err(NonNumeric("diametro"))
        else Ok(DiameterReportOf(d, tol, parseNum, fmt))
  }

  /** The analysis runs exactly when `diametro` exists; a missing `numero`,
      `este` or `norte` then raises, naming them. */
  lemma DiameterGuard(t: Table, tol: real, parseNum: Value -> Option<real>, fmt: int -> string)
    requires WellFormed(t) && 0.0 <= tol <= 20.0
    ensures DiameterControl(t, tol, parseNum, fmt) == Ok(NoDiameterColumn) <==> "diametro" !in t.header
    ensures "diametro" in t.header && Absent(t.header, DiameterSelection) != [] ==>
      DiameterControl(t, tol, parseNum, fmt) == Err(MissingColumns(Absent(t.header, DiameterSelection)))
  {
    var a := Absent(t.header, DiameterSelection);
    if "diametro" in t.header {
      if a != [] {
        assert a[0] in a;
        assert Selection(t, DiameterSelection).Err?;
      } else {
        DiameterAllPresent(t);
        DiameterUnfold(t, tol, parseNum, fmt);
      }
    }
  }

  lemma DiameterAllPresent(t: Table)
    requires WellFormed(t) && Absent(t.header, DiameterSelection) == []
    ensures forall j :: 0 <= j < |DiameterSelection| ==> DiameterSelection[j] in t.header
  {
    assert Selection(t, DiameterSelection).Ok?;
  }

  /** A report is built from the non-empty `df[DiameterSelection].dropna()`,
      whose diameters are then all present numbers. */
  lemma DiameterRows(t: Table, tol: real, parseNum: Value -> Option<real>, fmt: int -> string)
    requires WellFormed(t) && 0.0 <= tol <= 20.0
    requires DiameterControl(t, tol, parseNum, fmt).Ok? && DiameterControl(t, tol, parseNum, fmt).value.DiameterReport?
    ensures forall j :: 0 <= j < |DiameterSelection| ==> DiameterSelection[j] in t.header
    ensures DiameterControl(t, tol, parseNum, fmt).value == DiameterReportOf(DiameterRowsOf(t), tol, parseNum, fmt)
    ensures var d := DiameterRowsOf(t);
      |d.rows| > 0
      && forall i :: 0 <= i < |d.rows| ==>
           Column(d, "diametro")[i].Some? && Column(d, "diametro")[i].value.Num?
  {
    DiameterSelected(t, tol, parseNum, fmt);
    DiameterReported(t, tol, parseNum, fmt);
    DiameterPresent(t);
    var d := DiameterRowsOf(t);
    PresentNumbers(Column(d, "diametro"), |d.rows|);
  }

  /** Present cells of a numeric column are numbers. */
  lemma PresentNumbers(c: seq<Cell>, n: nat)
    requires |c| == n && NumericCells(c)
    requires forall i :: 0 <= i < n ==> c[i].Some?
    ensures forall i :: 0 <= i < n ==> c[i].Some? && c[i].value.Num?
  {
  }

  /** A report means the rows are there and their diameters pass `describe`. */
  lemma DiameterReported(t: Table, tol: real, parseNum: Value -> Option<real>, fmt: int -> string)
    requires WellFormed(t) && 0.0 <= tol <= 20.0
    requires forall j :: 0 <= j < |DiameterSelection| ==> DiameterSelection[j] in t.header
    requires DiameterControl(t, tol, parseNum, fmt).Ok? && DiameterControl(t, tol, parseNum, fmt).value.DiameterReport?
    ensures var d := DiameterRowsOf(t);
      |d.rows| > 0 && NumericCells(Column(d, "diametro"))
      && DiameterControl(t, tol, parseNum, fmt).value == DiameterReportOf(d, tol, parseNum, fmt)
  {
    DiameterUnfold(t, tol, parseNum, fmt);
  }

  /** A report needs `diametro` and a successful selection. */
  lemma DiameterSelected(t: Table, tol: real, parseNum: Value -> Option<real>, fmt: int -> string)
    requires WellFormed(t) && 0.0 <= tol <= 20.0
    requires DiameterControl(t, tol, parseNum, fmt).Ok? && DiameterControl(t, tol, parseNum, fmt).value.DiameterReport?
    ensures forall j :: 0 <= j < |DiameterSelection| ==> DiameterSelection[j] in t.header
  {
    assert "diametro" in t.header;
    assert Selection(t, DiameterSelection).Ok?;
  }

  /** With all four columns present the block works on `DiameterRowsOf`. */
  lemma DiameterUnfold(t: Table, tol: real, parseNum: Value -> Option<real>, fmt: int -> string)
    requires WellFormed(t) && 0.0 <= tol <= 20.0
    requires forall j :: 0 <= j < |DiameterSelection| ==> DiameterSelection[j] in t.header
    ensures var d := DiameterRowsOf(t);
      DiameterControl(t, tol, parseNum, fmt) ==
        if |d.rows| == 0 then Ok(NoDiameterData)
        else if !NumericCells(Column(d, "diametro")) then Err(NonNumeric("diametro"))
        else Ok(DiameterReportOf(d, tol, parseNum, fmt))
  {
    assert "diametro" == DiameterSelection[3];
    assert Selection(t, DiameterSelection) == Ok(Project(t, DiameterSelection));
  }

  /** Every row left by `dropna` has a diameter. */
  lemma DiameterPresent(t: Table)
    requires WellFormed(t) && forall j :: 0 <= j < |DiameterSelection| ==> DiameterSelection[j] in t.header
    ensures var d := DiameterRowsOf(t);
      forall i :: 0 <= i < |d.rows| ==> Column(d, "diametro")[i].Some?
  {
    DropNullColumns(Project(t, DiameterSelection), DiameterSelection);
    assert DiameterSelection[3] == "diametro";
  }

  /** On rows whose diameters are all present numbers: the mode exists, so
      the mean fallback is never taken; each flag is the strict tolerance
      test on that row's diameter; the percentage lies in [0, 100]. */
  lemma DiameterFlags(d: Table, tol: real, parseNum: Value -> Option<real>, fmt: int -> string)
    requires WellFormed(d) && "diametro" in d.header && |d.rows| > 0
    requires forall i :: 0 <= i < |d.rows| ==> Column(d, "diametro")[i].Some? && Column(d, "diametro")[i].value.Num?
    ensures var rep := DiameterReportOf(d, tol, parseNum, fmt); var c := Column(d, "diametro");
      rep.nominal.Some?
      && |rep.fuera| == |d.rows|
      && (forall i :: 0 <= i < |d.rows| ==>
            (rep.fuera[i] <==> Plots.Abs(c[i].value.n - rep.nominal.value) > tol))
      && 0.0 <= rep.pctFuera <= 100.0
      && rep.pctFuera == Percent(CountTrue(rep.fuera), |d.rows|)
  {
    var c := Column(d, "diametro");
    NominalPresent(c);
    AuxKeepsDiameter(d, parseNum, fmt);
    var aux := Plots.PrepararColumnasAux(d, parseNum, fmt);
    var fuera := Flags(c, Nominal(c), tol);
    assert DiameterReportOf(d, tol, parseNum, fmt)
           == DiameterReport(aux, Nominal(c), fuera, Percent(CountTrue(fuera), |d.rows|));
  }

  /** With a nominal, each flag tests the coerced diameter of its row, so a
      diameter that does not read as a number is never flagged, and the
      percentage is the flagged share of all rows, in [0, 100]. */
  lemma DiameterFlagsCoerced(d: Table, tol: real, parseNum: Value -> Option<real>, fmt: int -> string)
    requires WellFormed(d) && "diametro" in d.header && |d.rows| > 0
    requires Nominal(Column(d, "diametro")).Some?
    ensures var rep := DiameterReportOf(d, tol, parseNum, fmt); var c := Column(d, "diametro");
      rep.nominal == Nominal(c)
      && |rep.fuera| == |d.rows|
      && (forall i :: 0 <= i < |d.rows| ==>
            var a := Session.CoerceNum(c[i], parseNum);
            (rep.fuera[i] <==> a.Some? && Plots.Abs(a.value.n - rep.nominal.value) > tol))
      && 0.0 <= rep.pctFuera <= 100.0
      && rep.pctFuera == Percent(CountTrue(rep.fuera), |d.rows|)
  {
    var c := Column(d, "diametro");
    AuxCoercesDiameter(d, parseNum, fmt);
    var aux := Plots.PrepararColumnasAux(d, parseNum, fmt);
    var fuera := Flags(Column(aux, "diametro"), Nominal(c), tol);
    assert DiameterReportOf(d, tol, parseNum, fmt)
           == DiameterReport(aux, Nominal(c), fuera, Percent(CountTrue(fuera), |d.rows|));
    CoercedFlags(c, Nominal(c).value, tol, parseNum);
  }

  /** The flags over a coerced column test each coerced cell. */
  lemma CoercedFlags(c: seq<Cell>, nominal: real, tol: real, parseNum: Value -> Option<real>)
    ensures var f := Flags(Plots.CoerceColumn(c, parseNum), Some(nominal), tol);
      |f| == |c|
      && forall i :: 0 <= i < |c| ==>
           var a := Session.CoerceNum(c[i], parseNum);
           (f[i] <==> a.Some? && Plots.Abs(a.value.n - nominal) > tol)
  {
  }

  /** The auxiliary columns hold the coerced diameters. */
  lemma AuxCoercesDiameter(d: Table, parseNum: Value -> Option<real>, fmt: int -> string)
    requires WellFormed(d) && "diametro" in d.header
    ensures var aux := Plots.PrepararColumnasAux(d, parseNum, fmt);
      "diametro" in aux.header && |aux.rows| == |d.rows|
      && Column(aux, "diametro") == Plots.CoerceColumn(Column(d, "diametro"), parseNum)
  {
    Plots.DiameterCoerced(d, parseNum);
    Plots.DateLabelsRule(Plots.DiameterColumns(d, parseNum), fmt);
  }

  /** A present diameter that is not a number, on a row `dropna` keeps,
      makes the block raise instead of reporting. */
  lemma DiameterTextRaises(t: Table, i: int, tol: real, parseNum: Value -> Option<real>, fmt: int -> string)
    requires WellFormed(t) && 0.0 <= tol <= 20.0
    requires forall j :: 0 <= j < |DiameterSelection| ==> DiameterSelection[j] in t.header
    requires 0 <= i < |DiameterRowsOf(t).rows|
    requires !Column(DiameterRowsOf(t), "diametro")[i].value.Num?
    ensures DiameterControl(t, tol, parseNum, fmt) == Err(NonNumeric("diametro"))
  {
    DiameterPresent(t);
    DiameterUnfold(t, tol, parseNum, fmt);
  }

  /** Two equal numbers beside the text "s/i": the block raises. */
  lemma DiameterTextExample(t: Table, tol: real, parseNum: Value -> Option<real>, fmt: int -> string)
    requires WellFormed(t) && 0.0 <= tol <= 20.0
    requires forall j :: 0 <= j < |DiameterSelection| ==> DiameterSelection[j] in t.header
    requires Column(DiameterRowsOf(t), "diametro") == [Some(Num(165.0)), Some(Num(165.0)), Some(Text("s/i"))]
    ensures DiameterControl(t, tol, parseNum, fmt) == Err(NonNumeric("diametro"))
  {
    var d := DiameterRowsOf(t);
    assert |Column(d, "diametro")| == 3;
    DiameterTextRaises(t, 2, tol, parseNum, fmt);
  }

  /** A column whose first cell is a number has a nominal value. */
  lemma NominalPresent(c: seq<Cell>)
    requires |c| > 0 && c[0].Some? && c[0].value.Num?
    ensures Nominal(c).Some?
  {
    assert Some(Num(c[0].value.n)) == c[0];
    assert c[0].value.n in Numbers(c);
  }

  /** The auxiliary columns leave numeric diameters as they are. */
  lemma AuxKeepsDiameter(d: Table, parseNum: Value -> Option<real>, fmt: int -> string)
    requires WellFormed(d) && "diametro" in d.header
    requires forall i :: 0 <= i < |d.rows| ==> Column(d, "diametro")[i].Some? && Column(d, "diametro")[i].value.Num?
    ensures var aux := Plots.PrepararColumnasAux(d, parseNum, fmt);
      "diametro" in aux.header && Column(aux, "diametro") == Column(d, "diametro") && |aux.rows| == |d.rows|
  {
    var c := Column(d, "diametro");
    Plots.DiameterCoerced(d, parseNum);
    var dc := Plots.DiameterColumns(d, parseNum);
    assert Plots.CoerceColumn(c, parseNum) == c by {
      assert forall i :: 0 <= i < |c| ==> Plots.CoerceColumn(c, parseNum)[i] == c[i];
    }
    Plots.DateLabelsRule(dc, fmt);
  }

  /** The nominal diameter is the smallest of the numbers the column holds
      most often. */
  lemma NominalIsSmallestMode(c: seq<Cell>, x: real)
    requires Nominal(c).Some? && Some(Num(x)) in c
    ensures var m := Nominal(c).value;
      Some(Num(m)) in c
      && multiset(c)[Some(Num(x))] <= multiset(c)[Some(Num(m))]
      && (multiset(c)[Some(Num(x))] == multiset(c)[Some(Num(m))] ==> m <= x)
  {
    var m := Nominal(c).value;
    NumbersCount(c, x);
    NumbersCount(c, m);
  }

  /** A diameter exactly `tol` away from the nominal is within tolerance. */
  lemma ToleranceBoundary(nominal: real, tol: real)
    requires 0.0 <= tol
    ensures !OutOfTolerance(Some(Num(nominal + tol)), Some(nominal), tol)
    ensures !OutOfTolerance(Some(Num(nominal - tol)), Some(nominal), tol)
  {
  }
}
