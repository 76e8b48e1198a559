/** Display helpers: the millimetre-to-inch mixed-fraction label, the inch
    columns, the formatted blast date and the hover fields (src/ui/plots.py). */
module Plots {
  import opened Tables
  import Loader
  import Session

  // ---------------------------------------------------------------------
  // Decimal rendering of integers (`f"{n}"`)
  // ---------------------------------------------------------------------

  predicate IsDigit(c: char)
  {
    '0' <= c <= '9'
  }

  function DigitChar(d: nat): (c: char)
    requires d < 10
    ensures IsDigit(c) && c as int - '0' as int == d
  {
    ('0' as int + d) as char
  }

  function NatToString(n: nat): (s: string)
    ensures |s| >= 1 && forall i :: 0 <= i < |s| ==> IsDigit(s[i])
    decreases n
  {
    if n < 10 then [DigitChar(n)] else NatToString(n / 10) + [DigitChar(n % 10)]
  }

  /** The number a string of decimal digits spells. */
  function DigitsValue(s: string): int
  {
    if s == [] then 0 else DigitsValue(s[..|s| - 1]) * 10 + (s[|s| - 1] as int - '0' as int)
  }

  /** Decimal rendering reads back as the same number, with no leading zero. */
  lemma {:induction false} NatToStringValue(n: nat)
    ensures DigitsValue(NatToString(n)) == n
    ensures NatToString(n)[0] != '0' || n == 0
    decreases n
  {
    var s := NatToString(n);
    if n >= 10 {
      NatToStringValue(n / 10);
      assert s[..|s| - 1] == NatToString(n / 10);
    }
  }

  /** `f"{n}"`: a minus sign for negatives, then the digits. */
  function IntToString(n: int): (s: string)
    ensures n >= 0 ==> s == NatToString(n)
    ensures n < 0 ==> s == "-" + NatToString(-n)
  {
    if n < 0 then "-" + NatToString(-n) else NatToString(n)
  }

  // ---------------------------------------------------------------------
  // Nearest fraction with a denominator of at most 16
  // ---------------------------------------------------------------------

  function Abs(x: real): real
  {
    if x < 0.0 then -x else x
  }

  /** Distance from `x` to the fraction p/q. */
  function Dist(x: real, p: int, q: int): real
    requires q >= 1
  {
    Abs(x - p as real / q as real)
  }

  /** The distance to p/q is the distance of x*q to p, scaled down by q. */
  lemma DistScaled(x: real, p: int, q: int, y: real)
    requires q >= 1 && y == x * q as real
    ensures Dist(x, p, q) == Abs(y - p as real) / q as real
  {
    var qr := q as real;
    var d := x - p as real / qr;
    assert y - p as real == d * qr;
    AbsMul(d, qr);
  }

  lemma AbsMul(d: real, q: real)
    requires q > 0.0
    ensures Abs(d * q) / q == Abs(d)
  {
    if d < 0.0 { assert d * q < 0.0; } else { assert d * q >= 0.0; }
  }

  lemma DivLe(a: real, b: real, q: real)
    requires q > 0.0 && a <= b
    ensures a / q <= b / q
  {
  }

  /** The numerator closest to `x` for denominator `q`. */
  function Nearest(x: real, q: int): (p: int)
    requires q >= 1
    ensures forall p' :: Dist(x, p, q) <= Dist(x, p', q)
    ensures 0.0 <= x < 1.0 ==> 0 <= p <= q
    ensures Dist(x, p, q) <= 0.5 / q as real
  {
    var y := x * q as real;
    var f := y.Floor;
    var p := if Abs(y - (f + 1) as real) < Abs(y - f as real) then f + 1 else f;
    NearestIsClosest(x, q, y, f, p);
    p
  }

  /** Of the integers just below and just above x*q, the nearer one is nearest. */
  lemma NearestIsClosest(x: real, q: int, y: real, f: int, p: int)
    requires q >= 1 && y == x * q as real && f as real <= y < f as real + 1.0
    requires p == if Abs(y - (f + 1) as real) < Abs(y - f as real) then f + 1 else f
    ensures forall p' :: Dist(x, p, q) <= Dist(x, p', q)
    ensures 0.0 <= x < 1.0 ==> 0 <= p <= q
    ensures Dist(x, p, q) <= 0.5 / q as real
  {
    forall p' ensures Dist(x, p, q) <= Dist(x, p', q) {
      NearestBeats(x, q, y, f, p, p');
    }
    DistScaled(x, p, q, y);
    FloorNearest(y, f, p, p);
    DivLe(Abs(y - p as real), 0.5, q as real);
    if 0.0 <= x < 1.0 {
      MulBounds(x, q as real);
      assert 0.0 <= y < q as real;
      NumeratorRange(y, q, f, p);
    }
  }

  lemma NearestBeats(x: real, q: int, y: real, f: int, p: int, p': int)
    requires q >= 1 && y == x * q as real && f as real <= y < f as real + 1.0
    requires p == if Abs(y - (f + 1) as real) < Abs(y - f as real) then f + 1 else f
    ensures Dist(x, p, q) <= Dist(x, p', q)
  {
    DistScaled(x, p, q, y);
    DistScaled(x, p', q, y);
    FloorNearest(y, f, p, p');
    DivLe(Abs(y - p as real), Abs(y - p' as real), q as real);
  }

  lemma FloorNearest(y: real, f: int, p: int, p': int)
    requires f as real <= y < f as real + 1.0
    requires p == if Abs(y - (f + 1) as real) < Abs(y - f as real) then f + 1 else f
    ensures Abs(y - p as real) <= Abs(y - p' as real)
    ensures Abs(y - p as real) <= 0.5
  {
    var a := y - f as real;
    var b := (f + 1) as real - y;
    assert Abs(y - f as real) == a && Abs(y - (f + 1) as real) == b;
    if p' <= f {
      assert p' as real <= f as real;
      assert Abs(y - p' as real) == y - p' as real;
    } else {
      assert p' as real >= (f + 1) as real;
      assert Abs(y - p' as real) == p' as real - y;
    }
  }

  lemma NumeratorRange(y: real, q: int, f: int, p: int)
    requires 0.0 <= y < q as real && f as real <= y < f as real + 1.0
    requires p == f || p == f + 1
    ensures 0 <= p <= q
  {
  }

  lemma MulBounds(x: real, q: real)
    requires 0.0 <= x < 1.0 && q >= 1.0
    ensures 0.0 <= x * q < q
  {
  }

  /** Scanning denominators q, q+1, ..., 16, keeping the first strictly closer fraction. */
  function Search(x: real, q: int, bp: int, bq: int): (r: (int, int))
    requires 1 <= bq < q <= 17
    requires forall q', p' :: 1 <= q' < q ==> Dist(x, bp, bq) <= Dist(x, p', q')
    requires forall q', p' :: 1 <= q' < bq ==> Dist(x, p', q') > Dist(x, bp, bq)
    requires 0.0 <= x < 1.0 ==> 0 <= bp <= bq
    requires q == 17 ==> Dist(x, bp, bq) <= 1.0 / 32.0
    ensures 1 <= r.1 <= 16
    ensures forall q', p' :: 1 <= q' <= 16 ==> Dist(x, r.0, r.1) <= Dist(x, p', q')
    ensures forall q', p' :: 1 <= q' < r.1 ==> Dist(x, p', q') > Dist(x, r.0, r.1)
    ensures 0.0 <= x < 1.0 ==> 0 <= r.0 <= r.1
    ensures Dist(x, r.0, r.1) <= 1.0 / 32.0
    decreases 17 - q
  {
    if q == 17 then (bp, bq)
    else
      var p := Nearest(x, q);
      assert q == 16 ==> Dist(x, p, q) <= 1.0 / 32.0;
      if Dist(x, p, q) < Dist(x, bp, bq) then Search(x, q + 1, p, q) else Search(x, q + 1, bp, bq)
  }

  /** `Fraction(x).limit_denominator(16)` for 0 < x < 1: a closest fraction
      with denominator 1..16, the one with the smallest denominator among the
      closest, so in lowest terms. */
  function Closest(x: real): (r: (int, int))
    requires 0.0 < x < 1.0
    ensures 1 <= r.1 <= 16 && 0 <= r.0 <= r.1
    ensures forall q', p' :: 1 <= q' <= 16 ==> Dist(x, r.0, r.1) <= Dist(x, p', q')
    ensures forall q', p' :: 1 <= q' < r.1 ==> Dist(x, p', q') > Dist(x, r.0, r.1)
    ensures Dist(x, r.0, r.1) <= 1.0 / 32.0
  {
    Search(x, 2, Nearest(x, 1), 1)
  }

  // ---------------------------------------------------------------------
  // pulgadas_a_mixto
  // ---------------------------------------------------------------------

  /** `int(v)`: truncation toward zero. */
  function Trunc(v: real): (e: int)
    ensures v >= 0.0 ==> e as real <= v < e as real + 1.0
    ensures v < 0.0 ==> e as real - 1.0 < v <= e as real
  {
    if v >= 0.0 then v.Floor else -((-v).Floor)
  }

  /** `float(valor)`: numbers as they are, text through `parseFloat`, dates raise. */
  function AsFloat(valor: Cell, parseFloat: string -> Option<real>): Option<real>
  {
    match valor
    case None => None
    case Some(Num(n)) => Some(n)
    case Some(Text(s)) => parseFloat(s)
    case Some(Day(_)) => None
  }

  /** The integer alone. */
  function Whole(entero: int): string
  {
    if entero != 0 then IntToString(entero) else "0"
  }

  /** A mixed number e + num/den; a zero numerator means the integer alone. */
  datatype Mixed = Mixed(entero: int, num: int, den: int)

  function MixedValue(m: Mixed): real
    requires m.den >= 1
  {
    m.entero as real + m.num as real / m.den as real
  }

  /** The parts `pulgadas_a_mixto` computes from a float: the truncated
      integer, and the fraction limited to denominator 16 unless the
      (clamped) remainder is zero. */
  function Parts(v: real): (m: Mixed)
    ensures m.entero == Trunc(v) && 1 <= m.den <= 16 && 0 <= m.num <= m.den
  {
    var entero := Trunc(v);
    var fraccion := if v - entero as real > 0.0 then v - entero as real else 0.0;
    if fraccion == 0.0 then Mixed(entero, 0, 1)
    else
      var (p, q) := Closest(fraccion);
      Mixed(entero, p, q)
  }

  /** How the source lays out the parts: the integer alone for a zero
      numerator, `n/d` for a zero integer part, `e n/d` otherwise. */
  function Render(m: Mixed): (r: string)
    ensures r != []
    ensures '/' in r <==> m.num != 0
  {
    NoSlash(m.entero);
    NoSlash(m.num);
    NoSlash(m.den);
    if m.num == 0 then Whole(m.entero)
    else if m.entero == 0 then IntToString(m.num) + "/" + IntToString(m.den)
    else IntToString(m.entero) + " " + IntToString(m.num) + "/" + IntToString(m.den)
  }

  /** An integer's digits hold no fraction bar. */
  lemma NoSlash(n: int)
    ensures '/' !in IntToString(n) && IntToString(n) != []
  {
    var s := if n < 0 then NatToString(-n) else NatToString(n);
    assert forall i :: 0 <= i < |s| ==> s[i] != '/';
  }

  /** `pulgadas_a_mixto` once the value is a float: never empty, and a whole
      or negative value shows no fraction. */
  function MixtoFromFloat(v: real): (r: string)
    ensures r != []
    ensures v < 0.0 || v == Trunc(v) as real ==> '/' !in r
  {
    Render(Parts(v))
  }

  /** `pulgadas_a_mixto`. */
  function PulgadasAMixto(valor: Cell, parseFloat: string -> Option<real>): (r: string)
    ensures r == "" <==> AsFloat(valor, parseFloat).None?
  {
    match AsFloat(valor, parseFloat)
    case None => ""
    case Some(v) => MixtoFromFloat(v)
  }

  /** Missing values, dates and unreadable text give the empty label. */
  lemma PulgadasEmpty(valor: Cell, parseFloat: string -> Option<real>)
    requires valor.None? || valor.value.Day? || (valor.value.Text? && parseFloat(valor.value.s).None?)
    ensures PulgadasAMixto(valor, parseFloat) == ""
  {
  }

  /** A value whose fraction is zero, or a negative value (its fraction is
      clamped to zero), shows only its truncated integer part, `"0"` for zero. */
  lemma PulgadasWhole(v: real)
    requires v < 0.0 || v == Trunc(v) as real
    ensures Parts(v) == Mixed(Trunc(v), 0, 1)
    ensures MixtoFromFloat(v) == IntToString(Trunc(v))
    ensures Trunc(v) == 0 ==> MixtoFromFloat(v) == "0"
  {
  }

  /** A non-negative value with a fraction gets its integer part and the
      closest fraction of denominator at most 16: the parts are within 1/32
      of the input. */
  lemma PartsValue(v: real)
    requires v >= 0.0
    ensures Abs(v - MixedValue(Parts(v))) <= 1.0 / 32.0
  {
    var m := Parts(v);
    var e := Trunc(v);
    var x := v - e as real;
    if x == 0.0 {
      assert m.num as real / m.den as real == 0.0;
    } else {
      assert v - MixedValue(m) == x - m.num as real / m.den as real;
    }
  }

  /** The three layouts of the label. */
  lemma RenderLayouts(m: Mixed)
    ensures m.num == 0 ==> Render(m) == Whole(m.entero)
    ensures m.num != 0 && m.entero == 0 ==> Render(m) == IntToString(m.num) + "/" + IntToString(m.den)
    ensures m.num != 0 && m.entero != 0 ==>
      Render(m) == IntToString(m.entero) + " " + IntToString(m.num) + "/" + IntToString(m.den)
    ensures m.num == 0 && m.entero == 0 ==> Render(m) == "0"
  {
  }

  /** 2.99 inches gets the parts 2 + 1/1 and the label "2 1/1": the fraction
      0.99 rounds to 1/1 and nothing carries it into the integer part. */
  lemma NoCarryExample()
    ensures Parts(2.99) == Mixed(2, 1, 1)
    ensures MixtoFromFloat(2.99) == "2 1/1"
  {
    var e := Trunc(2.99);
    assert e == 2;
    var x := 2.99 - e as real;
    assert x == 0.99;
    var (p, q) := Closest(x);
    assert Dist(x, 1, 1) == 0.01;
    ClosestToOne(x, p, q);
    assert Parts(2.99) == Mixed(2, 1, 1);
    assert IntToString(2) == "2" && IntToString(1) == "1";
  }

  /** Near 0.99, the only fraction within 0.01 with denominator at most 16,
      and the smallest denominator among equally close ones, is 1/1. */
  lemma ClosestToOne(x: real, p: int, q: int)
    requires x == 0.99 && 1 <= q <= 16 && 0 <= p <= q
    requires Dist(x, p, q) <= 0.01
    requires forall q', p' :: 1 <= q' < q ==> Dist(x, p', q') > Dist(x, p, q)
    ensures p == 1 && q == 1
  {
    var y := x * q as real;
    DistScaled(x, p, q, y);
    AbsBound(Abs(y - p as real), 0.01, q as real);
    assert q as real - p as real <= 0.01 * q as real + 0.01 * q as real;
    assert p == q;
    OneOver(p, q);
    var d1 := Dist(x, 1, 1);
    assert d1 == Dist(x, p, q);
  }

  lemma AbsBound(a: real, c: real, q: real)
    requires q > 0.0 && a / q <= c
    ensures a <= c * q
  {
    assert a == (a / q) * q;
  }

  lemma OneOver(p: int, q: int)
    requires q >= 1 && p == q
    ensures p as real / q as real == 1.0
  {
  }

  /** The intended parts: a fraction that rounds up to a whole inch is
      carried into the integer part. */
  function Carry(m: Mixed): Mixed
  {
    if m.num == m.den then Mixed(m.entero + 1, 0, 1) else m
  }

  function CarriedParts(v: real): (m: Mixed)
    ensures 1 <= m.den <= 16
  {
    Carry(Parts(v))
  }

  /** The intended label. */
  function MixtoCorregido(v: real): (r: string)
    ensures r != []
    ensures '/' in r ==> CarriedParts(v).num < CarriedParts(v).den
  {
    CarryProper(Parts(v));
    Render(CarriedParts(v))
  }

  /** With the carry every fraction is proper, 0 <= n < d, and the value is kept. */
  lemma CarryProper(m: Mixed)
    requires 1 <= m.den && 0 <= m.num <= m.den
    ensures 1 <= Carry(m).den && 0 <= Carry(m).num < Carry(m).den
    ensures MixedValue(Carry(m)) == MixedValue(m)
  {
    if m.num == m.den {
      OneOver(m.num, m.den);
      assert MixedValue(m) == m.entero as real + 1.0;
    }
  }

  /** So every carried label shows a proper fraction, and for a non-negative
      input its value stays within 1/32. */
  lemma CarriedProper(v: real)
    ensures var m := CarriedParts(v); 0 <= m.num < m.den
    ensures v >= 0.0 ==> Abs(v - MixedValue(CarriedParts(v))) <= 1.0 / 32.0
  {
    var m := Parts(v);
    CarryProper(m);
    if v >= 0.0 {
      PartsValue(v);
      AbsEq(v, MixedValue(Carry(m)), MixedValue(m));
    }
  }

  lemma AbsEq(v: real, a: real, b: real)
    requires a == b
    ensures Abs(v - a) == Abs(v - b)
  {
  }

  /** 2.99 inches is labelled "3" once the carry is made. */
  lemma CorregidoExample()
    ensures CarriedParts(2.99) == Mixed(3, 0, 1)
    ensures MixtoCorregido(2.99) == "3"
  {
    NoCarryExample();
    assert IntToString(3) == "3";
  }

  // ---------------------------------------------------------------------
  // agregar_diametro_pulgadas
  // ---------------------------------------------------------------------

  /** Millimetres to inches. */
  function Inches(c: Cell): (r: Cell)
    ensures r.Some? <==> c.Some? && c.value.Num?
    ensures r.Some? ==> r.value.Num? && r.value.n * 25.4 == c.value.n
  {
    if c.Some? && c.value.Num? then Some(Num(c.value.n / 25.4)) else None
  }

  /** The label column holds a text for every row, empty where there is no
      value; it is `pulgadas_a_mixto` as written, without the carry. */
  function InchLabel(c: Cell): (r: Cell)
    ensures r.Some? && r.value.Text?
    ensures r.value.s == "" <==> !(c.Some? && c.value.Num?)
  {
    Some(Text(if c.Some? && c.value.Num? then MixtoFromFloat(c.value.n) else ""))
  }

  /** On the inch column, which holds numbers or nothing, the label is
      `pulgadas_a_mixto` of the cell, whatever reads text. */
  lemma InchLabelIsPulgadas(c: Cell, parseFloat: string -> Option<real>)
    requires c.None? || c.value.Num?
    ensures InchLabel(c) == Some(Text(PulgadasAMixto(c, parseFloat)))
  {
  }

  /** The label of 2.99 inches keeps the rounded-up fraction: "2 1/1". */
  lemma InchLabelExample()
    ensures InchLabel(Some(Num(2.99))) == Some(Text("2 1/1"))
  {
    NoCarryExample();
  }

  function CoerceColumn(c: seq<Cell>, parseNum: Value -> Option<real>): (r: seq<Cell>)
    ensures |r| == |c| && forall i :: 0 <= i < |c| ==> r[i] == Session.CoerceNum(c[i], parseNum)
  {
    seq(|c|, i requires 0 <= i < |c| => Session.CoerceNum(c[i], parseNum))
  }

  function InchColumn(c: seq<Cell>): (r: seq<Cell>)
    ensures |r| == |c| && forall i :: 0 <= i < |c| ==> r[i] == Inches(c[i])
  {
    seq(|c|, i requires 0 <= i < |c| => Inches(c[i]))
  }

  function LabelColumn(c: seq<Cell>): (r: seq<Cell>)
    ensures |r| == |c| && forall i :: 0 <= i < |c| ==> r[i] == InchLabel(c[i])
  {
    seq(|c|, i requires 0 <= i < |c| => InchLabel(c[i]))
  }

  /** The table `agregar_diametro_pulgadas` returns. */
  function DiameterColumns(t: Table, parseNum: Value -> Option<real>): (r: Table)
    requires WellFormed(t)
    ensures WellFormed(r) && |r.rows| == |t.rows|
  {
    if "diametro" !in t.header then t
    else
      var t1 := AssignColumn(t, "diametro", CoerceColumn(Column(t, "diametro"), parseNum));
      var t2 := AssignColumn(t1, "diametro_pulgadas", InchColumn(Column(t1, "diametro")));
      AssignColumn(t2, "diametro_pulgadas_str", LabelColumn(Column(t2, "diametro_pulgadas")))
  }

  lemma DiameterNamesDistinct()
    ensures "diametro" != "diametro_pulgadas" && "diametro" != "diametro_pulgadas_str"
    ensures "diametro_pulgadas" != "diametro_pulgadas_str"
  {
    assert "diametro"[8..] == [] && "diametro_pulgadas"[8..] != [];
    assert "diametro_pulgadas"[17..] == [] && "diametro_pulgadas_str"[17..] != [];
  }

  /** Without a diameter the table is returned as it is. */
  lemma DiameterAbsent(t: Table, parseNum: Value -> Option<real>)
    requires WellFormed(t) && "diametro" !in t.header
    ensures DiameterColumns(t, parseNum) == t
  {
  }

  /** The coerced `diametro` is what the diameter columns leave in place. */
  lemma DiameterCoerced(t: Table, parseNum: Value -> Option<real>)
    requires WellFormed(t) && "diametro" in t.header
    ensures var r := DiameterColumns(t, parseNum);
      "diametro" in r.header && Column(r, "diametro") == CoerceColumn(Column(t, "diametro"), parseNum)
  {
    DiameterNamesDistinct();
    var t1 := AssignColumn(t, "diametro", CoerceColumn(Column(t, "diametro"), parseNum));
    var t2 := AssignColumn(t1, "diametro_pulgadas", InchColumn(Column(t1, "diametro")));
    assert Column(t2, "diametro") == Column(t1, "diametro");
  }

  /** With a diameter: the diameter becomes numeric, the inch column times
      25.4 gives it back wherever it is present, the label is the mixed
      fraction of the inches, and every other column is unchanged. */
  lemma DiameterAdded(t: Table, parseNum: Value -> Option<real>)
    requires WellFormed(t) && "diametro" in t.header
    ensures var r := DiameterColumns(t, parseNum);
      var d := Column(r, "diametro");
      "diametro_pulgadas" in r.header && "diametro_pulgadas_str" in r.header
      && (forall c :: c in t.header ==> c in r.header)
      && NumericCells(d) && d == CoerceColumn(Column(t, "diametro"), parseNum)
      && (forall i :: 0 <= i < |t.rows| ==>
            var inch := Column(r, "diametro_pulgadas")[i];
            (inch.Some? <==> d[i].Some?)
            && (inch.Some? ==> inch.value.Num? && inch.value.n * 25.4 == d[i].value.n)
            && Column(r, "diametro_pulgadas_str")[i] == InchLabel(inch))
      && (forall c :: c in t.header && c != "diametro" && c != "diametro_pulgadas" && c != "diametro_pulgadas_str"
            ==> Column(r, c) == Column(t, c))
  {
    DiameterNamesDistinct();
    var t1 := AssignColumn(t, "diametro", CoerceColumn(Column(t, "diametro"), parseNum));
    var t2 := AssignColumn(t1, "diametro_pulgadas", InchColumn(Column(t1, "diametro")));
    var r := AssignColumn(t2, "diametro_pulgadas_str", LabelColumn(Column(t2, "diametro_pulgadas")));
    assert r == DiameterColumns(t, parseNum);
    assert Column(r, "diametro") == Column(t2, "diametro") == Column(t1, "diametro");
    assert Column(r, "diametro_pulgadas") == Column(t2, "diametro_pulgadas");
  }

  /** `agregar_diametro_pulgadas`: writes the columns into a fresh copy, so
      the caller's table is untouched. */
  method AgregarDiametroPulgadas(df: Table, parseNum: Value -> Option<real>) returns (r: Table)
    requires WellFormed(df)
    ensures r == DiameterColumns(df, parseNum)
  {
    if "diametro" !in df.header {
      return df;
    }
    var salida := new Loader.Frame(df);
    salida.SetColumn("diametro", CoerceColumn(Column(salida.Snapshot(), "diametro"), parseNum));
    salida.SetColumn("diametro_pulgadas", InchColumn(Column(salida.Snapshot(), "diametro")));
    salida.SetColumn("diametro_pulgadas_str", LabelColumn(Column(salida.Snapshot(), "diametro_pulgadas")));
    r := salida.Snapshot();
  }

  // ---------------------------------------------------------------------
  // fecha_tronadura_str
  // ---------------------------------------------------------------------

  /** `.dt.strftime("%d-%m-%Y")` on one cell; `fmt` is the formatter. */
  function FormatDate(c: Cell, fmt: int -> string): (r: Cell)
    ensures r.Some? <==> c.Some? && c.value.Day?
    ensures r.Some? ==> r == Some(Text(fmt(c.value.d)))
  {
    if c.Some? && c.value.Day? then Some(Text(fmt(c.value.d))) else None
  }

  /** The formatted-date rule of `preparar_columnas_aux`. */
  function DateLabels(t: Table, fmt: int -> string): (r: Table)
    requires WellFormed(t)
    ensures WellFormed(r) && |r.rows| == |t.rows|
  {
    if "fecha_tronadura" in t.header && "fecha_tronadura_str" !in t.header then
      var f := Column(t, "fecha_tronadura");
      AssignColumn(t, "fecha_tronadura_str", seq(|f|, i requires 0 <= i < |f| => FormatDate(f[i], fmt)))
    else t
  }

  /** The label column is added exactly when the date exists and the label
      does not; it then holds the formatted date where there is one, and
      nothing else changes. */
  lemma DateLabelsRule(t: Table, fmt: int -> string)
    requires WellFormed(t)
    ensures var r := DateLabels(t, fmt);
      (r.header == t.header + ["fecha_tronadura_str"] <==>
         "fecha_tronadura" in t.header && "fecha_tronadura_str" !in t.header)
      && (r.header == t.header ==> r == t)
      && (r.header != t.header ==>
            forall i :: 0 <= i < |t.rows| ==>
              Column(r, "fecha_tronadura_str")[i] == FormatDate(Column(t, "fecha_tronadura")[i], fmt))
      && forall c :: c in t.header ==> c in r.header && Column(r, c) == Column(t, c)
  {
    var r := DateLabels(t, fmt);
    if "fecha_tronadura" in t.header && "fecha_tronadura_str" !in t.header {
      assert r.header == t.header + ["fecha_tronadura_str"];
      assert |r.header| != |t.header|;
    } else {
      assert r == t;
      assert |t.header + ["fecha_tronadura_str"]| != |t.header|;
    }
  }

  /** `preparar_columnas_aux` without the two-decimal rounding. */
  function PrepararColumnasAux(t: Table, parseNum: Value -> Option<real>, fmt: int -> string): (r: Table)
    requires WellFormed(t)
    ensures WellFormed(r) && |r.rows| == |t.rows|
  {
    DateLabels(DiameterColumns(t, parseNum), fmt)
  }

  // ---------------------------------------------------------------------
  // obtener_hover
  // ---------------------------------------------------------------------

  /** The hover candidates and their labels, in display order. */
  const HoverCandidates: seq<(string, string)> := [
    ("numero", "Pozo"), ("nombre_banco", "Banco"), ("kilos_cargados_real", "Kg"),
    ("longitud_real", "L (m)"), ("factor_carga", "FC"), ("fecha_tronadura_str", "Fecha"),
    ("holes_polygon", "Malla"), ("diametro_pulgadas_str", "\U{D8} (pulg)")
  ]

  /** The candidates among `cands` that are headers, in order. */
  function HoverFields(h: seq<string>, cands: seq<(string, string)>): seq<string>
  {
    if cands == [] then []
    else
      var rest := HoverFields(h, cands[..|cands| - 1]);
      var last := cands[|cands| - 1];
      if last.0 in h then rest + [last.0] else rest
  }

  /** The label map filled alongside the fields. */
  function HoverLabels(h: seq<string>, cands: seq<(string, string)>): map<string, string>
  {
    if cands == [] then map[]
    else
      var rest := HoverLabels(h, cands[..|cands| - 1]);
      var last := cands[|cands| - 1];
      if last.0 in h then rest[last.0 := last.1] else rest
  }

  /** Exactly the candidates that are headers are shown; the label map has
      exactly the shown fields as keys, each with one of its candidate labels. */
  lemma {:induction false} HoverMembers(h: seq<string>, cands: seq<(string, string)>)
    ensures var r := HoverFields(h, cands); var m := HoverLabels(h, cands);
      (forall c :: c in r <==> c in h && exists j :: 0 <= j < |cands| && cands[j].0 == c)
      && (forall c :: c in m <==> c in r)
      && (forall c :: c in m ==> exists j :: 0 <= j < |cands| && cands[j] == (c, m[c]))
      && |r| <= |cands|
    decreases |cands|
  {
    if cands != [] {
      var init := cands[..|cands| - 1];
      HoverMembers(h, init);
      assert forall j :: 0 <= j < |init| ==> init[j] == cands[j];
    }
  }

  /** Fields follow the candidates' order: they form a subsequence of the
      candidate names. */
  lemma {:induction false} HoverOrder(h: seq<string>, cands: seq<(string, string)>)
    ensures IsSubseq(HoverFields(h, cands), seq(|cands|, j requires 0 <= j < |cands| => cands[j].0))
    decreases |cands|
  {
    var names := seq(|cands|, j requires 0 <= j < |cands| => cands[j].0);
    if cands != [] {
      var init := cands[..|cands| - 1];
      var initNames := seq(|init|, j requires 0 <= j < |init| => init[j].0);
      HoverOrder(h, init);
      assert initNames == names[..|names| - 1];
      var rest := HoverFields(h, init);
      SubseqSnoc(rest, initNames, names[|names| - 1], cands[|cands| - 1].0 in h);
      assert initNames + [names[|names| - 1]] == names;
    }
  }

  /** Extending both sequences by the same element, or only the larger one,
      keeps a subsequence. */
  lemma {:induction false} SubseqSnoc<T>(a: seq<T>, b: seq<T>, x: T, both: bool)
    requires IsSubseq(a, b)
    ensures IsSubseq(if both then a + [x] else a, b + [x])
    decreases |b|
  {
    if b == [] {
      assert a == [];
      if both {
        assert ([] + [x])[1..] == [];
      }
    } else if a == [] {
      if both {
        SubseqSnoc(a, b[1..], x, both);
        assert (b + [x])[1..] == b[1..] + [x];
      }
    } else if a[0] == b[0] && IsSubseq(a[1..], b[1..]) {
      SubseqSnoc(a[1..], b[1..], x, both);
      assert (b + [x])[1..] == b[1..] + [x];
      if both { assert (a + [x])[1..] == a[1..] + [x]; }
    } else {
      SubseqSnoc(a, b[1..], x, both);
      assert (b + [x])[1..] == b[1..] + [x];
    }
  }

  /** Adding one more candidate extends the fields and labels by it, if present. */
  lemma HoverSnoc(h: seq<string>, cands: seq<(string, string)>, i: nat)
    requires i < |cands|
    ensures HoverFields(h, cands[..i + 1]) ==
      HoverFields(h, cands[..i]) + (if cands[i].0 in h then [cands[i].0] else [])
    ensures HoverLabels(h, cands[..i + 1]) ==
      if cands[i].0 in h then HoverLabels(h, cands[..i])[cands[i].0 := cands[i].1] else HoverLabels(h, cands[..i])
  {
    assert cands[..i + 1][..i] == cands[..i];
  }

  lemma HoverAll(h: seq<string>)
    ensures HoverFields(h, HoverCandidates[..8]) == HoverFields(h, HoverCandidates)
    ensures HoverLabels(h, HoverCandidates[..8]) == HoverLabels(h, HoverCandidates)
  {
    assert HoverCandidates[..8] == HoverCandidates;
  }

  lemma HoverStep(h: seq<string>, cands: seq<(string, string)>, i: nat,
                  c: seq<string>, e: map<string, string>, c': seq<string>, e': map<string, string>)
    requires i < |cands|
    requires c == HoverFields(h, cands[..i]) && e == HoverLabels(h, cands[..i])
    requires cands[i].0 in h ==> c' == c + [cands[i].0] && e' == e[cands[i].0 := cands[i].1]
    requires cands[i].0 !in h ==> c' == c && e' == e
    ensures c' == HoverFields(h, cands[..i + 1]) && e' == HoverLabels(h, cands[..i + 1])
  {
    HoverSnoc(h, cands, i);
  }

  /** `agregar_si_existe`, the helper nested in `obtener_hover`: one
      candidate, appended when it is a header. Its caller passes the
      candidates in order; the ghost index `i` says which one this is. */
  method AgregarSiExiste(h: seq<string>, columna: string, etiqueta: string,
                         campos: seq<string>, etiquetas: map<string, string>, ghost i: nat)
    returns (campos': seq<string>, etiquetas': map<string, string>)
    requires i < |HoverCandidates| && HoverCandidates[i] == (columna, etiqueta)
    requires campos == HoverFields(h, HoverCandidates[..i]) && etiquetas == HoverLabels(h, HoverCandidates[..i])
    ensures columna in h ==> campos' == campos + [columna] && etiquetas' == etiquetas[columna := etiqueta]
    ensures columna !in h ==> campos' == campos && etiquetas' == etiquetas
    ensures campos' == HoverFields(h, HoverCandidates[..i + 1]) && etiquetas' == HoverLabels(h, HoverCandidates[..i + 1])
  {
    campos', etiquetas' := campos, etiquetas;
    if columna in h {
      campos' := campos' + [columna];
      etiquetas' := etiquetas'[columna := etiqueta];
    }
    HoverStep(h, HoverCandidates, i, campos, etiquetas, campos', etiquetas');
  }

  /** `obtener_hover`: the fields and labels of the candidates present. */
  method ObtenerHover(df: Table) returns (campos: seq<string>, etiquetas: map<string, string>)
    ensures campos == HoverFields(df.header, HoverCandidates)
    ensures etiquetas == HoverLabels(df.header, HoverCandidates)
  {
    var h := df.header;
    campos, etiquetas := [], map[];
    assert HoverCandidates[..0] == [];
    campos, etiquetas := AgregarSiExiste(h, "numero", "Pozo", campos, etiquetas, 0);
    campos, etiquetas := AgregarSiExiste(h, "nombre_banco", "Banco", campos, etiquetas, 1);
    campos, etiquetas := AgregarSiExiste(h, "kilos_cargados_real", "Kg", campos, etiquetas, 2);
    campos, etiquetas := AgregarSiExiste(h, "longitud_real", "L (m)", campos, etiquetas, 3);
    campos, etiquetas := AgregarSiExiste(h, "factor_carga", "FC", campos, etiquetas, 4);
    campos, etiquetas := AgregarSiExiste(h, "fecha_tronadura_str", "Fecha", campos, etiquetas, 5);
    campos, etiquetas := AgregarSiExiste(h, "holes_polygon", "Malla", campos, etiquetas, 6);
    campos, etiquetas := AgregarSiExiste(h, "diametro_pulgadas_str", "\U{D8} (pulg)", campos, etiquetas, 7);
    HoverAll(h);
  }
}
