/** The zone page: the columns offered for categorical colouring, the choice
    of the zone column and the per-zone load summary
    (src/pages/2_Mapa_y_Zonas.py). */
module Zones {
  import opened Tables
  import Session

  // ---------------------------------------------------------------------
  // Categorical columns
  // ---------------------------------------------------------------------

  /** Columns never used for categorical colouring (case-sensitive here). */
  const NonCategorical: seq<string> := [
    "este", "norte", "cota", "x", "y", "z", "factor_carga", "kilos_cargados_real", "longitud_real"
  ]

  /** A column of dtype kind i, f or c: every present value is a number. */
  predicate NumericDtype(c: seq<Cell>)
  {
    NumericCells(c)
  }

  predicate IsCategorical(t: Table, col: string)
    requires WellFormed(t) && col in t.header
  {
    var n := |Session.Distinct(Column(t, col))|;
    1 < n <= 20 && col !in NonCategorical && !NumericDtype(Column(t, col))
  }

  function CategoricalAmong(t: Table, h: seq<string>): (r: seq<string>)
    requires WellFormed(t) && forall j :: 0 <= j < |h| ==> h[j] in t.header
  {
    if h == [] then []
    else (if IsCategorical(t, h[0]) then [h[0]] else []) + CategoricalAmong(t, h[1..])
  }

  /** `columnas_categoricas`, in header order. */
  function CategoricalColumns(t: Table): (r: seq<string>)
    requires WellFormed(t)
    ensures IsSubseq(r, t.header)
    ensures forall c :: c in r <==> c in t.header && 1 < |Session.Distinct(Column(t, c))| <= 20
                                    && c !in NonCategorical
                                    && exists i :: 0 <= i < |t.rows| && Column(t, c)[i].Some? && !Column(t, c)[i].value.Num?
  {
    CategoricalRule(t, t.header);
    CategoricalAmong(t, t.header)
  }

  /** A column is offered iff it has 2 to 20 distinct present values, is not
      excluded, and holds something other than numbers; the offers keep the
      header order. */
  lemma {:induction false} CategoricalRule(t: Table, h: seq<string>)
    requires WellFormed(t) && forall j :: 0 <= j < |h| ==> h[j] in t.header
    ensures var r := CategoricalAmong(t, h);
      IsSubseq(r, h)
      && forall c :: c in r <==> c in h && 1 < |Session.Distinct(Column(t, c))| <= 20
                                 && c !in NonCategorical
                                 && exists i :: 0 <= i < |t.rows| && Column(t, c)[i].Some? && !Column(t, c)[i].value.Num?
  {
    if h != [] {
      CategoricalRule(t, h[1..]);
      var rest := CategoricalAmong(t, h[1..]);
      assert forall c :: c in h <==> c == h[0] || c in h[1..];
      if IsCategorical(t, h[0]) {
        assert ([h[0]] + rest)[1..] == rest;
      } else {
        assert [] + rest == rest;
      }
    }
  }

  // ---------------------------------------------------------------------
  // The zone column
  // ---------------------------------------------------------------------

  const ZoneOptions: seq<string> := ["holes_polygon", "banco", "zona"]

  /** The first of `holes_polygon`, `banco`, `zona` that is a column. */
  function ZoneKey(h: seq<string>): (r: Option<string>)
    ensures r.None? <==> "holes_polygon" !in h && "banco" !in h && "zona" !in h
    ensures r == Some("holes_polygon") <==> "holes_polygon" in h
    ensures r == Some("banco") <==> "holes_polygon" !in h && "banco" in h
    ensures r == Some("zona") <==> "holes_polygon" !in h && "banco" !in h && "zona" in h
  {
    if "holes_polygon" in h then Some("holes_polygon")
    else if "banco" in h then Some("banco")
    else if "zona" in h then Some("zona")
    else None
  }

  /** The search loop with `break`. */
  method ElegirColumnaZona(h: seq<string>) returns (colZona: Option<string>)
    ensures colZona == ZoneKey(h)
  {
    var opciones := ZoneOptions;
    assert opciones[0] == "holes_polygon" && opciones[1] == "banco" && opciones[2] == "zona";
    colZona := None;
    var i := 0;
    while i < |opciones|
      invariant 0 <= i <= |opciones|
      invariant colZona.None? ==> forall j :: 0 <= j < i ==> opciones[j] !in h
      invariant colZona.Some? ==> colZona == ZoneKey(h)
    {
      if opciones[i] in h {
        colZona := Some(opciones[i]);
        break;
      }
      i := i + 1;
    }
  }

  // ---------------------------------------------------------------------
  // Group sums
  // ---------------------------------------------------------------------

  /** The number in a cell, 0 when missing (what `sum` adds). */
  function Val(c: Cell): real
  {
    if c.Some? && c.value.Num? then c.value.n else 0.0
  }

  /** 1 for a present cell (what `count` counts). */
  function Presence(c: Cell): real
  {
    if c.Some? then 1.0 else 0.0
  }

  /** Sum of `w(v[i])` over the rows whose zone cell is `key`. */
  function GroupWeight(z: seq<Cell>, v: seq<Cell>, key: Value, w: Cell -> real): real
    requires |z| == |v|
  {
    if z == [] then 0.0
    else (if z[0] == Some(key) then w(v[0]) else 0.0) + GroupWeight(z[1..], v[1..], key, w)
  }

  /** Number of rows of the group with a present value. */
  function GroupCount(z: seq<Cell>, v: seq<Cell>, key: Value): nat
    requires |z| == |v|
  {
    if z == [] then 0
    else (if z[0] == Some(key) && v[0].Some? then 1 else 0) + GroupCount(z[1..], v[1..], key)
  }

  /** Sum of `w(v[i])` over the rows with any zone (pandas drops a missing key). */
  function KeyedWeight(z: seq<Cell>, v: seq<Cell>, w: Cell -> real): real
    requires |z| == |v|
  {
    if z == [] then 0.0
    else (if z[0].Some? then w(v[0]) else 0.0) + KeyedWeight(z[1..], v[1..], w)
  }

  /** Rows with a zone and a present value. */
  function KeyedCount(z: seq<Cell>, v: seq<Cell>): nat
    requires |z| == |v|
  {
    if z == [] then 0
    else (if z[0].Some? && v[0].Some? then 1 else 0) + KeyedCount(z[1..], v[1..])
  }

  /** One line of the summary. */
  datatype ZoneRow = ZoneRow(zona: Value, totalKg: real, totalLong: real, nPozos: nat, kgPorM: Option<real>)

  /** `total_kg / total_long.replace(0, nan)`. */
  function KgPorM(totalKg: real, totalLong: real): (r: Option<real>)
    ensures r.None? <==> totalLong == 0.0
    ensures r.Some? ==> r.value * totalLong == totalKg
  {
    if totalLong == 0.0 then None else Some(totalKg / totalLong)
  }

  function Summarise(z: seq<Cell>, kilos: seq<Cell>, longitud: seq<Cell>, keys: seq<Value>): (r: seq<ZoneRow>)
    requires |z| == |kilos| == |longitud|
    ensures |r| == |keys|
    ensures forall g :: 0 <= g < |r| ==> r[g].zona == keys[g]
  {
    seq(|keys|, g requires 0 <= g < |keys| =>
      var kg := GroupWeight(z, kilos, keys[g], Val);
      var long := GroupWeight(z, longitud, keys[g], Val);
      ZoneRow(keys[g], kg, long, GroupCount(z, kilos, keys[g]), KgPorM(kg, long)))
  }

  const ZoneSelection: seq<string> := ["kilos_cargados_real", "longitud_real", "este", "norte"]

  /** The summary block: `None` when there is no zone column or no kilos;
      the column selection raises a KeyError listing absent columns (it also
      needs `longitud_real`, `este` and `norte`, which the guard does not
      check); sums over text or dates raise. */
  function ZoneSummary(t: Table): (r: Result<Option<seq<ZoneRow>>>)
    requires WellFormed(t)
    ensures r.Err? ==> r.error.MissingColumns? || r.error.NonNumeric?
    ensures r.Ok? && r.value.Some? ==>
      ZoneKey(t.header).Some? && "kilos_cargados_real" in t.header && "longitud_real" in t.header
      && |r.value.value| == |Session.Distinct(Column(t, ZoneKey(t.header).value))|
  {
    match ZoneKey(t.header)
    case None => Ok(None)
    case Some(zc) =>
      if "kilos_cargados_real" !in t.header then Ok(None)
      else
        var names := [zc] + ZoneSelection;
        match Selection(t, names)
        case Err(e) => Err(e)
        case Ok(_) =>
          assert names[1] == "kilos_cargados_real" && names[2] == "longitud_real";
          var z := Column(t, zc);
          var kilos := Column(t, "kilos_cargados_real");
          var longitud := Column(t, "longitud_real");
          if !NumericCells(kilos) then Err(NonNumeric("kilos_cargados_real"))
          else if !NumericCells(longitud) then Err(NonNumeric("longitud_real"))
          else Ok(Some(Summarise(z, kilos, longitud, Session.Distinct(z))))
  }

  /** The summary exists exactly when a zone column and the kilos exist and
      nothing raises; a missing selected column is reported by name. */
  lemma SummaryGuard(t: Table)
    requires WellFormed(t)
    ensures ZoneSummary(t) == Ok(None) <==> ZoneKey(t.header).None? || "kilos_cargados_real" !in t.header
    ensures ZoneKey(t.header).Some? && "kilos_cargados_real" in t.header && "longitud_real" !in t.header
            ==> ZoneSummary(t).Err? && ZoneSummary(t).error.MissingColumns?
                && "longitud_real" in ZoneSummary(t).error.columns
  {
    match ZoneKey(t.header)
    case None =>
    case Some(zc) =>
      if "kilos_cargados_real" in t.header && "longitud_real" !in t.header {
        var names := [zc] + ZoneSelection;
        assert names[2] == "longitud_real";
        assert Selection(t, names) == Err(MissingColumns(Absent(t.header, names)));
        assert "longitud_real" in Absent(t.header, names);
      }
  }

  /** A summary aggregates the zone, kilos and length columns of the table,
      with one line per distinct zone value. */
  lemma SummaryShape(t: Table)
    requires WellFormed(t) && ZoneSummary(t).Ok? && ZoneSummary(t).value.Some?
    ensures ZoneKey(t.header).Some?
    ensures var zc := ZoneKey(t.header).value;
      zc in t.header && "kilos_cargados_real" in t.header && "longitud_real" in t.header
      && ZoneSummary(t).value.value
         == Summarise(Column(t, zc), Column(t, "kilos_cargados_real"), Column(t, "longitud_real"),
                      Session.Distinct(Column(t, zc)))
  {
    var zc := ZoneKey(t.header).value;
    var names := [zc] + ZoneSelection;
    assert Selection(t, names).Ok?;
    assert names[1] == "kilos_cargados_real" && names[2] == "longitud_real";
    assert names[2] in t.header;
  }

  /** Each line is one distinct zone value present in the data, and every
      such value has a line. */
  lemma SummaryZones(z: seq<Cell>, kilos: seq<Cell>, longitud: seq<Cell>)
    requires |z| == |kilos| == |longitud|
    ensures var rows := Summarise(z, kilos, longitud, Session.Distinct(z));
      (forall g, h :: 0 <= g < h < |rows| ==> rows[g].zona != rows[h].zona)
      && (forall v :: (exists g :: 0 <= g < |rows| && rows[g].zona == v) <==> Some(v) in z)
  {
    var keys := Session.Distinct(z);
    var rows := Summarise(z, kilos, longitud, keys);
    forall v ensures (exists g :: 0 <= g < |rows| && rows[g].zona == v) <==> Some(v) in z {
      if Some(v) in z {
        assert v in keys;
        var g :| 0 <= g < |keys| && keys[g] == v;
        assert rows[g].zona == v;
      }
    }
  }

  /** A line's totals are the sums over the rows of its zone, and its ratio
      is `KgPorM` of those totals. */
  lemma SummaryLine(z: seq<Cell>, kilos: seq<Cell>, longitud: seq<Cell>, keys: seq<Value>, g: nat)
    requires |z| == |kilos| == |longitud| && g < |keys|
    ensures var row := Summarise(z, kilos, longitud, keys)[g];
      row.totalKg == GroupWeight(z, kilos, keys[g], Val)
      && row.totalLong == GroupWeight(z, longitud, keys[g], Val)
      && row.nPozos == GroupCount(z, kilos, keys[g])
      && row.kgPorM == KgPorM(row.totalKg, row.totalLong)
  {
    var kg := GroupWeight(z, kilos, keys[g], Val);
    var long := GroupWeight(z, longitud, keys[g], Val);
    var ratio := KgPorM(kg, long);
    assert Summarise(z, kilos, longitud, keys)[g] == ZoneRow(keys[g], kg, long, GroupCount(z, kilos, keys[g]), ratio);
  }

  // ---------------------------------------------------------------------
  // Conservation
  // ---------------------------------------------------------------------

  function SumKg(rows: seq<ZoneRow>): real
  {
    if rows == [] then 0.0 else rows[0].totalKg + SumKg(rows[1..])
  }

  function SumPozos(rows: seq<ZoneRow>): nat
  {
    if rows == [] then 0 else rows[0].nPozos + SumPozos(rows[1..])
  }

  predicate NoDup<T(==)>(s: seq<T>)
  {
    forall i, j :: 0 <= i < j < |s| ==> s[i] != s[j]
  }

  /** Sum over the keys of the weight of one row. */
  function HeadWeight(keys: seq<Value>, zc: Cell, vc: Cell, w: Cell -> real): real
  {
    if keys == [] then 0.0 else (if zc == Some(keys[0]) then w(vc) else 0.0) + HeadWeight(keys[1..], zc, vc, w)
  }

  /** Sum over the keys of the group weights. */
  function WeightOver(keys: seq<Value>, z: seq<Cell>, v: seq<Cell>, w: Cell -> real): real
    requires |z| == |v|
  {
    if keys == [] then 0.0 else GroupWeight(z, v, keys[0], w) + WeightOver(keys[1..], z, v, w)
  }

  /** A row lands in at most one group: in the one of its key, if listed. */
  lemma {:induction false} HeadWeightOne(keys: seq<Value>, zc: Cell, vc: Cell, w: Cell -> real)
    requires NoDup(keys)
    ensures HeadWeight(keys, zc, vc, w) == if zc.Some? && zc.value in keys then w(vc) else 0.0
  {
    if keys != [] {
      HeadWeightOne(keys[1..], zc, vc, w);
      if zc == Some(keys[0]) {
        assert keys[0] !in keys[1..] by {
          forall j | 0 <= j < |keys[1..]| ensures keys[1..][j] != keys[0] {
            assert keys[1..][j] == keys[j + 1];
          }
        }
      }
      assert forall x :: x in keys <==> x == keys[0] || x in keys[1..];
    }
  }

  /** Splitting off the first row of every group. */
  lemma {:induction false} WeightOverSplit(keys: seq<Value>, z: seq<Cell>, v: seq<Cell>, w: Cell -> real)
    requires |z| == |v| && z != []
    ensures WeightOver(keys, z, v, w) == HeadWeight(keys, z[0], v[0], w) + WeightOver(keys, z[1..], v[1..], w)
  {
    if keys != [] {
      WeightOverSplit(keys[1..], z, v, w);
    }
  }

  /** Group weights over duplicate-free keys covering every zone add up to
      the weight of all rows with a zone. */
  lemma {:induction false} Conservation(keys: seq<Value>, z: seq<Cell>, v: seq<Cell>, w: Cell -> real)
    requires |z| == |v| && NoDup(keys)
    requires forall i :: 0 <= i < |z| && z[i].Some? ==> z[i].value in keys
    ensures WeightOver(keys, z, v, w) == KeyedWeight(z, v, w)
    decreases |z|
  {
    if z == [] {
      WeightOverEmpty(keys, z, v, w);
    } else {
      WeightOverSplit(keys, z, v, w);
      HeadWeightOne(keys, z[0], v[0], w);
      assert forall i :: 1 <= i < |z| ==> z[1..][i - 1] == z[i];
      Conservation(keys, z[1..], v[1..], w);
    }
  }

  lemma {:induction false} WeightOverEmpty(keys: seq<Value>, z: seq<Cell>, v: seq<Cell>, w: Cell -> real)
    requires |z| == |v| && z == []
    ensures WeightOver(keys, z, v, w) == 0.0
  {
    if keys != [] {
      WeightOverEmpty(keys[1..], z, v, w);
    }
  }

  lemma {:induction false} CountIsWeight(z: seq<Cell>, v: seq<Cell>, key: Value)
    requires |z| == |v|
    ensures GroupCount(z, v, key) as real == GroupWeight(z, v, key, Presence)
  {
    if z != [] {
      CountIsWeight(z[1..], v[1..], key);
    }
  }

  lemma {:induction false} KeyedCountIsWeight(z: seq<Cell>, v: seq<Cell>)
    requires |z| == |v|
    ensures KeyedCount(z, v) as real == KeyedWeight(z, v, Presence)
  {
    if z != [] {
      KeyedCountIsWeight(z[1..], v[1..]);
    }
  }

  lemma {:induction false} SummarySums(z: seq<Cell>, kilos: seq<Cell>, longitud: seq<Cell>, keys: seq<Value>)
    requires |z| == |kilos| == |longitud|
    ensures SumKg(Summarise(z, kilos, longitud, keys)) == WeightOver(keys, z, kilos, Val)
    ensures SumPozos(Summarise(z, kilos, longitud, keys)) as real == WeightOver(keys, z, kilos, Presence)
  {
    if keys != [] {
      SummarySums(z, kilos, longitud, keys[1..]);
      var r := Summarise(z, kilos, longitud, keys);
      assert r[1..] == Summarise(z, kilos, longitud, keys[1..]);
      CountIsWeight(z, kilos, keys[0]);
    }
  }

  /** `total_kg` over all zones is the kilos of every row with a zone, and
      `n_pozos` over all zones is the number of those rows with kilos. */
  lemma SummaryConserves(z: seq<Cell>, kilos: seq<Cell>, longitud: seq<Cell>)
    requires |z| == |kilos| == |longitud|
    ensures var rows := Summarise(z, kilos, longitud, Session.Distinct(z));
      SumKg(rows) == KeyedWeight(z, kilos, Val) && SumPozos(rows) == KeyedCount(z, kilos)
  {
    var keys := Session.Distinct(z);
    SummarySums(z, kilos, longitud, keys);
    assert forall i :: 0 <= i < |z| && z[i].Some? ==> z[i].value in keys by {
      forall i | 0 <= i < |z| && z[i].Some? ensures z[i].value in keys {
        assert Some(z[i].value) in z;
      }
    }
    Conservation(keys, z, kilos, Val);
    Conservation(keys, z, kilos, Presence);
    KeyedCountIsWeight(z, kilos);
  }

  /** The summary block of the page: chooses the zone column with the
      search loop, then aggregates. */
  method ResumenPorZona(df: Table) returns (r: Result<Option<seq<ZoneRow>>>)
    requires WellFormed(df)
    ensures r == ZoneSummary(df)
  {
    var colZona := ElegirColumnaZona(df.header);
    if colZona.None? || "kilos_cargados_real" !in df.header {
      return Ok(None);
    }
    var zc := colZona.value;
    var names := [zc] + ZoneSelection;
    var seleccion := Selection(df, names);
    if seleccion.Err? {
      return Err(seleccion.error);
    }
    assert names[1] == "kilos_cargados_real" && names[2] == "longitud_real";
    var z := Column(df, zc);
    var kilos := Column(df, "kilos_cargados_real");
    var longitud := Column(df, "longitud_real");
    if !NumericCells(kilos) {
      return Err(NonNumeric("kilos_cargados_real"));
    }
    if !NumericCells(longitud) {
      return Err(NonNumeric("longitud_real"));
    }
    r := Ok(Some(Summarise(z, kilos, longitud, Session.Distinct(z))));
  }
}
