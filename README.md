# Drill-hole dashboard core, modelled in Dafny

The drill-hole dashboard (visualizador-pozos) loads a spreadsheet of blast holes. Each row is one hole: its
coordinates, blast date, explosive charge, real and design lengths, diameter and the polygon or bench it
belongs to. The dashboard:

- canonicalises the headers;
- resolves the `x`/`y`/`z` geometry and drops incomplete rows;
- lets the user narrow the table by date and by categorical columns;
- derives the load factor `factor_carga` (kg per metre);
- shows per-zone charge summaries and quality controls: length deviation against design, and diameter
  against its nominal value.

This project models that pipeline and proves what it promises.

A table is a header sequence plus rows of optional cells (`Tables.Table`). A cell is `None` for NaN/NaT, or a
number (`real`), a text or a date. Dates are whole day numbers; the time of day is not modelled (see "## Left out").
Every Streamlit widget result becomes an explicit parameter:

- the date choice `pick`;
- the multiselect choices `sels`;
- the diameter tolerance `tol`.

Every parser the code delegates to becomes a function parameter: `pd.to_datetime`, `pd.to_numeric`, `float()`
and `strftime`. An `st.stop()` after an error message is an `Err` result.

Modules follow the source files:

| module | file | contents |
|---|---|---|
| `Tables` | `tables.dfy` | the table value and the pandas operations used on it: column lookup and assignment, boolean-mask selection, `dropna(subset=…)`, column projection and the `KeyError` of a missing projected column |
| `Loader` | `loader.dfy` | `src/data_loader.py`: `normalize_column_name`, the header logic of `cargar_datos`, `procesar_datos` (a `Frame` class for the caller's frame it writes `x`/`y`/`z` into) |
| `Session` | `session.dfy` | `src/ui/data_context.py`: the date window and date filter, filterable columns, the multiselect loop, the `este`/`norte` check, `factor_carga`, `DatosPozos` |
| `Plots` | `plots.dfy` | `src/ui/plots.py`: `pulgadas_a_mixto` with `limit_denominator(16)` specified by its contract, `agregar_diametro_pulgadas`, the date label of `preparar_columnas_aux`, `obtener_hover` |
| `Zones` | `zones.dfy` | `src/pages/2_Mapa_y_Zonas.py`: categorical columns, the zone-key loop, the group sums and counts, `kg_por_m`, conservation of the totals |
| `Quality` | `quality.dfy` | `src/pages/3_Geotecnia_y_Calidad.py`: factor rows, the length deviation and its three classes with counts and percentages, nominal diameter as the smallest mode, the strict tolerance flag |

Where the code works by changing state, the model does too:

- `cargar_datos` renames in a loop over the columns (`Loader.RenameLoop`).
- `procesar_datos` writes into its argument (`Loader.Frame`, `Loader.FillAxes`).
- `_aplicar_filtros_basicos` narrows the table column by column (`Session.AplicarFiltrosBasicos`, `Session.FiltrarColumnas`).
- The zone key is found by a loop with `break` (`Zones.ElegirColumnaZona`).
- `obtener_hover` appends through a nested helper (`Plots.AgregarSiExiste`).
- The length control fills a default class and overwrites it with two masked writes (`Quality.Clasificar`, over an `array`).

Each of these methods is proved equal to a specification function, and the properties are proved about that function.

## Model

| member | source | states |
|---|---|---|
| Tables.IndexOf | src/data_loader.py:101-102 | a header name is looked up at its first occurrence |
| Tables.Column | src/data_loader.py:101-102 | `df[name]` has one cell per row, taken from the named position |
| Tables.AssignColumn | src/data_loader.py:101-108 | `df[name] = cells` replaces an existing column in place or appends a new one; every other column is unchanged |
| Tables.Filter | src/ui/data_context.py:70-78 | a boolean mask keeps, in order, exactly the rows satisfying the test: kept rows pass, passing rows are kept |
| Tables.FilterCount | src/ui/data_context.py:70-78 | the mask keeps every passing row as often as it occurs and drops every failing one |
| Tables.Select | src/ui/data_context.py:70-78 | `df[mask]` keeps the header and a subsequence of the rows; each row occurs as often as in the input if it passes the test, otherwise not at all |
| Tables.DropNull | src/data_loader.py:116 | `dropna(subset=names)` keeps, in order, exactly the rows with every named column present, each as often as it occurs in the input, and never more rows |
| Tables.DropNullColumns | src/data_loader.py:116 | the same, stated through `Column`: a row occurs as often as in the input when every named cell of it is present, otherwise not at all |
| Tables.Project | src/pages/3_Geotecnia_y_Calidad.py:75 | `df[names]` has exactly those columns, in that order, with the same rows |
| Tables.Absent | src/pages/2_Mapa_y_Zonas.py:94 | the requested names missing from the header |
| Tables.Selection | src/pages/2_Mapa_y_Zonas.py:94 | `df[names]` fails exactly when a name is missing, reporting the missing names; otherwise every name is a column and the result is the projection onto `names` |
| Loader.LowerChar | src/data_loader.py:46 | `lower()` on one character leaves no upper-case letter and keeps whitespace-ness |
| Loader.Replace | src/data_loader.py:46 | `replace(a, b)` substitutes every `a` and nothing else, keeping the length; the header renames of lines 79-85 use it too |
| Loader.StripLeft | src/data_loader.py:46 | removes exactly the leading whitespace |
| Loader.StripRight | src/data_loader.py:46 | removes exactly the trailing whitespace |
| Loader.Strip | src/data_loader.py:46 | the result is the slice between the whitespace runs at both ends and has no whitespace at either end |
| Loader.NormalizeColumnName | src/data_loader.py:44-46 | a normalised name holds no upper-case letter, no space and no hyphen |
| Loader.NormalizeChar | src/data_loader.py:44-46 | a normalised character is never upper-case, a space or a hyphen |
| Loader.NormalizePointwise | src/data_loader.py:44-46 | the normalised name is the stripped name with each character normalised |
| Loader.NormalizeShape | src/data_loader.py:44-46 | a normalised name has no outer whitespace, no upper-case letter, no space and no hyphen, and is no longer than the input |
| Loader.NormalizeFixes | src/data_loader.py:44-46 | a name already in that shape is left unchanged |
| Loader.NormalizeIdempotent | src/data_loader.py:44-46 | normalising twice equals normalising once |
| Loader.CanonicalName | src/data_loader.py:63-64 | lower-casing then normalising gives a canonical name, which normalisation leaves unchanged |
| Loader.MapAlias | src/data_loader.py:86 | the rename table keeps canonical names canonical, and every target it reaches maps to itself |
| Loader.MapAliasTable | src/data_loader.py:67-75 | the four aliases map to `cota`, `este`, `norte`, `profundidad`; every other header passes through |
| Loader.LengthFallback | src/data_loader.py:77-85 | the loop keeps the header count; without `longitud_real`, no `longitud_teo` is left |
| Loader.RenameColumns | src/data_loader.py:77-86 | the renaming keeps the header count |
| Loader.CanonicalHeaders | src/data_loader.py:63-86 | the header transformation keeps the header count and yields only canonical names |
| Loader.CargarDatos | src/data_loader.py:63-86 | the loaded table keeps its rows and carries the canonical headers |
| Loader.RenameLoop | src/data_loader.py:77-85 | the renaming loop over the column snapshot has the net effect of the `longitud_teo` fallback |
| Loader.RenameColumnsPointwise | src/data_loader.py:77-86 | each header becomes `longitud_real` if it is `longitud_teo` and no `longitud_real` exists, otherwise its alias |
| Loader.LengthFallbackIff | src/data_loader.py:82-85 | `longitud_real` exists afterwards iff it or `longitud_teo` existed; `longitud_teo` survives iff both existed |
| Loader.AliasTargetsCanonical | src/data_loader.py:67-75 | every rename target is already a canonical name |
| Loader.RenameKeepsCanonical | src/data_loader.py:77-86 | renaming canonical headers gives canonical headers |
| Loader.RenameColumnsIdempotent | src/data_loader.py:77-86 | renaming renamed headers changes nothing |
| Loader.CanonicalHeadersIdempotent | src/data_loader.py:63-86 | the whole header transformation applied to its own output changes nothing |
| Loader.FillFrom | src/data_loader.py:101-102 | an axis is copied from its source only if it is absent and the source exists; existing columns are never overwritten |
| Loader.ResolveGeometry | src/data_loader.py:101-108 | geometry resolution keeps every row and every existing column |
| Loader.GeometryAxes | src/data_loader.py:101-108 | after resolution `x`, `y` and `z` exist iff they or one of their sources existed |
| Loader.GeometrySources | src/data_loader.py:101-108 | `x` comes from `este`, `y` from `norte`, `z` from `cota`, and from `profundidad` only when `cota` is absent |
| Loader.MissingAxis | src/data_loader.py:111-114 | names the first missing axis in the order x, y, z, or none |
| Loader.Process | src/data_loader.py:90-122 | `procesar_datos` can only fail by naming a missing axis among `x`, `y`, `z` |
| Loader.CoerceDate | src/data_loader.py:119-120 | a coerced cell is null or a date; dates and nulls are kept; any other value becomes the date `parse` reads from it, or null when it reads none |
| Loader.CoerceDateColumn | src/data_loader.py:119-120 | coercion keeps the header and the row count, changes only `fecha_tronadura`, leaves only dates or nulls there, and each of its cells is the coerced original cell of that row |
| Loader.ProcessError | src/data_loader.py:111-114 | loading fails exactly when an axis has no source, naming the first such axis |
| Loader.ProcessRows | src/data_loader.py:111-120 | every row left has `x`, `y` and `z`; every date is coerced |
| Loader.ProcessKeeps | src/data_loader.py:116-120 | the rows left are, in order, exactly the resolved rows with all three axes, each as often as it occurs; only the date column is rewritten |
| Loader.Frame.constructor | src/data_loader.py:90 | the frame holds the given table |
| Loader.Frame.SetColumn | src/data_loader.py:102 | `df[name] = cells` on the frame is the column assignment |
| Loader.FillAxes | src/data_loader.py:100-108 | the caller's frame ends up as the geometry-resolved table |
| Loader.ProcesarDatos | src/data_loader.py:90-122 | the caller's frame is left geometry-resolved (in place) and the result is the loader's outcome |
| Session.Distinct | src/ui/data_context.py:91 | the distinct non-null values of a column, each once |
| Session.ValidDates | src/ui/data_context.py:53 | the valid dates of the date column |
| Session.SeqMin | src/ui/data_context.py:55 | the minimum valid date |
| Session.SeqMax | src/ui/data_context.py:56 | the maximum valid date |
| Session.DefaultWindow | src/ui/data_context.py:57-61 | the default is the range (max(min, max − 30), max) when min ≠ max, otherwise the single day min |
| Session.DateFilter | src/ui/data_context.py:52-78 | the date filter keeps the header and a subsequence of the rows |
| Session.DateFilterDefault | src/ui/data_context.py:57-69 | with no choice made yet, the filter is the one for the default window |
| Session.DateRangeKeeps | src/ui/data_context.py:70-74 | a two-date choice keeps exactly the rows with a date d, a ≤ d ≤ b, each as often as it occurs |
| Session.DateDayKeeps | src/ui/data_context.py:75-78 | a single-date choice keeps exactly the rows on that day, each as often as it occurs |
| Session.DateFilterNoop | src/ui/data_context.py:52-54 | no date column, no valid date, or a cleared choice leaves the table unchanged |
| Session.FilterableAmong | src/ui/data_context.py:84-88 | a column is offered iff it has more than one distinct value and its lower-cased name is not excluded; order kept |
| Session.FilterableColumns | src/ui/data_context.py:15-36 | the same rule over the whole header |
| Session.ColumnStep | src/ui/data_context.py:91-97 | one multiselect narrows to a subsequence with the same header; `sorted` on the options can only raise `Unsortable` for that column |
| Session.EmptySelectionKeeps | src/ui/data_context.py:96 | an empty selection leaves the table unchanged whenever the options do not raise |
| Session.SelectionKeeps | src/ui/data_context.py:96-97 | a non-empty selection keeps exactly the rows whose value is selected, each as often as it occurs |
| Session.ColumnStepFails | src/ui/data_context.py:91-94 | the column step raises iff two present values of the column are of different kinds |
| Session.ApplyErrSticky | src/ui/data_context.py:90-97 | once a prefix of the loop raises, the whole loop raises the same error |
| Session.ApplyColumnFilters | src/ui/data_context.py:90-97 | the filter loop keeps the header and a subsequence of the rows, or raises `Unsortable` for one of the columns it visits |
| Session.BasicFilters | src/ui/data_context.py:47-99 | date and column filters together keep the header and a subsequence of the rows, or raise `Unsortable` for a header column |
| Session.AplicarFiltrosBasicos | src/ui/data_context.py:47-99 | the step-by-step narrowing, stopping at the first raise, computes the filters and yields a subsequence of the input |
| Session.FiltrarColumna | src/ui/data_context.py:91-97 | one iteration of the column loop computes the column step |
| Session.FiltrarColumnas | src/ui/data_context.py:90-97 | the loop over the filterable columns, stopping at the first raise, computes the column filters |
| Session.PasoColumna | src/ui/data_context.py:90-97 | one more iteration extends the loop's outcome by one column |
| Session.FiltrarPorFecha | src/ui/data_context.py:52-78 | the date block computes the date filter |
| Session.Quotient | src/ui/data_context.py:134 | the ratio is present iff both numbers are present and the divisor is non-zero, and then it times the divisor gives the dividend |
| Session.CoerceNum | src/ui/data_context.py:140 | numeric coercion keeps numbers and nulls, yields only numbers or nulls, and turns any other value into the number `parseNum` reads from it, or null when it reads none |
| Session.LoadFactor | src/ui/data_context.py:132-141 | the load-factor step keeps every row and every column other than `factor_carga`; it can raise only when both source columns exist |
| Session.LoadFactorRatio | src/ui/data_context.py:133-137 | with both sources the division raises iff some row has both cells present, a non-zero length, and a cell that is not a number; otherwise `factor_carga` is kilos / length, null when either is null or the length is 0 |
| Session.LoadFactorMasked | src/ui/data_context.py:133-137 | text kilos beside a missing length do not raise: that factor is null and the other rows are divided |
| Session.LoadFactorFallback | src/ui/data_context.py:138-141 | without both sources, an existing `factor_carga` is re-coerced, keeping its numbers |
| Session.LoadFactorAbsent | src/ui/data_context.py:132-141 | with neither, the table is unchanged |
| Session.LoadAndFilter | src/ui/data_context.py:143 | `procesados` is the unfiltered processed table |
| Session.LoadAndFilterShape | src/ui/data_context.py:124-143 | a table lacking `este` (then `norte`) halts naming it; with both, a raise is `Unsortable` of a column or the load-factor division; otherwise the filtered view has no more rows, keeps every column, and is the load factor computed on the filtered rows alone |
| Session.CargarYFiltrarDatos | src/ui/data_context.py:124-145 | the imperative sequence computes the load-and-filter outcome |
| Plots.DigitChar | src/ui/plots.py:26 | the character of one decimal digit |
| Plots.NatToString | src/ui/plots.py:26 | a natural number renders as decimal digits |
| Plots.NatToStringValue | src/ui/plots.py:26 | the digits read back as the number, without a leading zero |
| Plots.NoSlash | src/ui/plots.py:26 | an integer's decimal text is non-empty and has no fraction bar |
| Plots.Nearest | src/ui/plots.py:28 | the nearest numerator for a given denominator, within half a step |
| Plots.NearestIsClosest | src/ui/plots.py:28 | rounding the scaled value gives the nearest numerator |
| Plots.NearestBeats | src/ui/plots.py:28 | no other numerator is closer |
| Plots.Search | src/ui/plots.py:28 | the search over denominators finds the closest fraction with the smallest denominator among equally close ones |
| Plots.Closest | src/ui/plots.py:28 | `limit_denominator(16)`: the closest fraction with denominator 1..16, within 1/32, numerator between 0 and the denominator |
| Plots.Trunc | src/ui/plots.py:22 | `int()` truncates toward zero |
| Plots.Parts | src/ui/plots.py:22-30 | the integer part is the truncation; the fraction has denominator 1..16 and a numerator between 0 and the denominator, 1/1 included |
| Plots.Render | src/ui/plots.py:25-35 | the label is never empty and shows a fraction bar iff the numerator is non-zero |
| Plots.MixtoFromFloat | src/ui/plots.py:22-35 | the label of a float is never empty and shows no fraction for a whole or negative value |
| Plots.PulgadasAMixto | src/ui/plots.py:11-35 | the label is empty iff the value is null or does not read as a float |
| Plots.PulgadasEmpty | src/ui/plots.py:14-20 | a null, a date or an unparsable text renders as "" |
| Plots.PulgadasWhole | src/ui/plots.py:22-26 | a whole or negative value renders as its integer part alone, 0 as "0" |
| Plots.PartsValue | src/ui/plots.py:22-30 | the mixed number lies within 1/32 of a non-negative value |
| Plots.RenderLayouts | src/ui/plots.py:29-35 | zero numerator: integer alone; zero integer: "n/d"; otherwise "e n/d" |
| Plots.NoCarryExample | src/ui/plots.py:28-35 | as written, 2.99 renders as "2 1/1" |
| Plots.ClosestToOne | src/ui/plots.py:28 | the fraction closest to 0.99 is 1/1 |
| Plots.CarriedParts | src/ui/plots.py:28-35 | the corrected parts keep a denominator in 1..16 |
| Plots.CarryProper | src/ui/plots.py:28-35 | carrying a whole fraction into the integer part gives a proper fraction of the same value |
| Plots.CarriedProper | src/ui/plots.py:28-35 | the corrected parts are proper and still within 1/32 of the value |
| Plots.MixtoCorregido | src/ui/plots.py:28-35 | the corrected label is never empty, and any fraction it shows is proper |
| Plots.CorregidoExample | src/ui/plots.py:28-35 | corrected, 2.99 renders as "3" |
| Plots.Inches | src/ui/plots.py:46 | inches are present iff millimetres are, and times 25.4 give the millimetres |
| Plots.InchLabel | src/ui/plots.py:47 | every row gets a text label, empty exactly where the inch cell holds no number |
| Plots.InchLabelIsPulgadas | src/ui/plots.py:11-35 | on a number or null cell the label is `pulgadas_a_mixto` of it |
| Plots.InchLabelExample | src/ui/plots.py:28-35 | as written, the label of 2.99 inches is "2 1/1" |
| Plots.DiameterColumns | src/ui/plots.py:38-48 | the diameter columns keep every row |
| Plots.DiameterNamesDistinct | src/ui/plots.py:45-47 | the three diameter column names differ |
| Plots.DiameterCoerced | src/ui/plots.py:45 | the diameter columns hold the coerced `diametro` |
| Plots.DiameterAbsent | src/ui/plots.py:41-42 | without `diametro` the table is returned unchanged |
| Plots.DiameterAdded | src/ui/plots.py:44-47 | with `diametro`: it is coerced to numbers, `diametro_pulgadas` = diametro / 25.4, its label is the mixed number as the code writes it, and every other column is kept |
| Plots.AgregarDiametroPulgadas | src/ui/plots.py:38-48 | the column assignments on the copy compute the diameter columns |
| Plots.DateLabels | src/ui/plots.py:58-59 | the date label keeps every row |
| Plots.DateLabelsRule | src/ui/plots.py:58-59 | `fecha_tronadura_str` is added iff `fecha_tronadura` exists and it does not; then it formats each date, otherwise nothing changes |
| Plots.PrepararColumnasAux | src/ui/plots.py:51-61 | the auxiliary columns keep every row |
| Plots.HoverMembers | src/ui/plots.py:64-84 | a field is chosen iff it is a present candidate; the label keys are exactly the fields, each with its candidate's label |
| Plots.HoverOrder | src/ui/plots.py:75-82 | the fields keep the candidates' fixed order |
| Plots.HoverSnoc | src/ui/plots.py:70-73 | one candidate appends its field and label iff its column is present |
| Plots.HoverAll | src/ui/plots.py:75-82 | the eight calls cover all candidates |
| Plots.AgregarSiExiste | src/ui/plots.py:70-73 | the helper appends the field and sets its label iff the column is present, otherwise changes nothing |
| Plots.ObtenerHover | src/ui/plots.py:64-84 | the imperative sequence yields the fields and labels of all present candidates |
| Zones.CategoricalRule | src/pages/2_Mapa_y_Zonas.py:29-46 | a column is categorical iff it has 2..20 distinct values, is not excluded and is not numeric; order kept |
| Zones.CategoricalColumns | src/pages/2_Mapa_y_Zonas.py:29-46 | the categorical columns are a subsequence of the header: exactly those with 2..20 distinct values, not excluded, holding a non-number |
| Zones.ZoneKey | src/pages/2_Mapa_y_Zonas.py:85-89 | the zone key is the first present of `holes_polygon`, `banco`, `zona`, or none |
| Zones.ElegirColumnaZona | src/pages/2_Mapa_y_Zonas.py:85-89 | the loop with `break` finds the zone key |
| Zones.KgPorM | src/pages/2_Mapa_y_Zonas.py:100 | `kg_por_m` is null iff the total length is 0, and otherwise times it gives the total charge |
| Zones.Summarise | src/pages/2_Mapa_y_Zonas.py:95-99 | one summary line per group key, in key order |
| Zones.ZoneSummary | src/pages/2_Mapa_y_Zonas.py:85-100 | the zone block fails only on a missing selected column or a non-number; a summary needs a zone key, kilos and lengths, and has one line per distinct zone value |
| Zones.SummaryGuard | src/pages/2_Mapa_y_Zonas.py:91-94 | no summary iff there is no zone key or no kilos; with both but no `longitud_real` the selection fails naming it |
| Zones.SummaryShape | src/pages/2_Mapa_y_Zonas.py:94-99 | a summary groups the kilos and lengths by the distinct zone values |
| Zones.SummaryZones | src/pages/2_Mapa_y_Zonas.py:95 | the groups are distinct and are exactly the non-null zone values |
| Zones.SummaryLine | src/pages/2_Mapa_y_Zonas.py:95-100 | per group: the sum of non-null kilos, the sum of non-null lengths, the count of non-null kilos, and their guarded ratio |
| Zones.Conservation | src/pages/2_Mapa_y_Zonas.py:95-99 | summing a weight over the groups equals summing it over the rows with a non-null zone |
| Zones.SummarySums | src/pages/2_Mapa_y_Zonas.py:95-99 | the summed totals of the lines equal the sums over groups |
| Zones.SummaryConserves | src/pages/2_Mapa_y_Zonas.py:95-99 | the sum of `total_kg` is the sum of non-null kilos over zoned rows; the sum of `n_pozos` is their count |
| Zones.ResumenPorZona | src/pages/2_Mapa_y_Zonas.py:85-124 | the page's zone block computes the summary |
| Quality.FactorRows | src/pages/3_Geotecnia_y_Calidad.py:22-24 | with `factor_carga`, exactly the rows where it is present are kept, in order, each as often as it occurs |
| Quality.Deviation | src/pages/3_Geotecnia_y_Calidad.py:79 | the deviation exists iff both lengths are numbers and the design length is non-zero, and then d·teo = 100·(real − teo) |
| Quality.DeviationCells | src/pages/3_Geotecnia_y_Calidad.py:79 | the `desviacion_%` cells are present exactly where a deviation exists |
| Quality.Classify | src/pages/3_Geotecnia_y_Calidad.py:91-93 | below −5 is under-drilled, above 5 over-drilled, everything else (±5 and null included) within tolerance |
| Quality.LabelsDistinct | src/pages/3_Geotecnia_y_Calidad.py:91-93 | the three labels differ, so counting labels counts classes |
| Quality.LabelCells | src/pages/3_Geotecnia_y_Calidad.py:91-93 | the `clasificacion` cells are the class labels |
| Quality.CountClass | src/pages/3_Geotecnia_y_Calidad.py:96-97 | a class count never exceeds the rows |
| Quality.CountLabelClass | src/pages/3_Geotecnia_y_Calidad.py:96-97 | counting a label in the column equals counting its class |
| Quality.ClassesPartition | src/pages/3_Geotecnia_y_Calidad.py:95-97 | the three class counts add up to the row count |
| Quality.Percent | src/pages/3_Geotecnia_y_Calidad.py:98-99 | `100 * n / total`, non-negative and at most 100 when n ≤ total |
| Quality.LengthRowsOf | src/pages/3_Geotecnia_y_Calidad.py:75 | the length rows carry exactly the five selected columns |
| Quality.LengthReportOf | src/pages/3_Geotecnia_y_Calidad.py:79-99 | a report over the complete rows keeps every row and counts all of them |
| Quality.LengthControl | src/pages/3_Geotecnia_y_Calidad.py:73-99 | the length block fails only on a missing selected column or a non-number; a report covers at least one and at most all rows |
| Quality.LengthGuard | src/pages/3_Geotecnia_y_Calidad.py:73-75 | no analysis iff a length column is missing; with both, the selection fails iff another selected column is missing |
| Quality.LengthRows | src/pages/3_Geotecnia_y_Calidad.py:73-77 | a report is built from the selected complete rows, of which there is at least one |
| Quality.ReportColumns | src/pages/3_Geotecnia_y_Calidad.py:79-95 | the report adds `desviacion_%` and `clasificacion` as computed and keeps every other column and every row |
| Quality.ReportCounts | src/pages/3_Geotecnia_y_Calidad.py:95-99 | the counts are the class counts, partition the rows, and both percentages lie in [0, 100] |
| Quality.Clasificar | src/pages/3_Geotecnia_y_Calidad.py:91-93 | the default fill and the two masked overwrites give each row its class |
| Quality.ControlLongitud | src/pages/3_Geotecnia_y_Calidad.py:73-99 | the step-by-step column writes compute the length control |
| Quality.Numbers | src/pages/3_Geotecnia_y_Calidad.py:155 | the numbers present in the diameter column |
| Quality.NumbersCount | src/pages/3_Geotecnia_y_Calidad.py:155 | each number occurs among them as often as its cell occurs in the column |
| Quality.MostFrequent | src/pages/3_Geotecnia_y_Calidad.py:155 | a most frequent candidate, the smallest one on a tie |
| Quality.Nominal | src/pages/3_Geotecnia_y_Calidad.py:154-158 | the nominal diameter is the smallest mode, and is null only without numbers |
| Quality.OutOfTolerance | src/pages/3_Geotecnia_y_Calidad.py:160-162 | a hole is flagged iff its diameter differs from the nominal by strictly more than the tolerance |
| Quality.CountTrue | src/pages/3_Geotecnia_y_Calidad.py:163 | the flagged count never exceeds the rows |
| Quality.DiameterRowsOf | src/pages/3_Geotecnia_y_Calidad.py:134 | the diameter rows carry exactly the four selected columns |
| Quality.DiameterReportOf | src/pages/3_Geotecnia_y_Calidad.py:154-163 | a report over the complete rows has one table row and one flag per row |
| Quality.DiameterControl | src/pages/3_Geotecnia_y_Calidad.py:132-163 | the diameter block fails only on a missing selected column, or when `describe()[["mean", "std", "min", "max"]]` meets a present diameter that is not a number |
| Quality.DiameterGuard | src/pages/3_Geotecnia_y_Calidad.py:132-134 | no analysis iff `diametro` is missing; with it, a missing selected column fails naming the missing ones |
| Quality.DiameterRows | src/pages/3_Geotecnia_y_Calidad.py:132-145 | a report is built from at least one complete row, and every diameter there is a present number |
| Quality.DiameterReported | src/pages/3_Geotecnia_y_Calidad.py:134-145 | with the four columns present, a report means complete rows exist, every present diameter is a number, and the report is computed from those rows |
| Quality.DiameterFlags | src/pages/3_Geotecnia_y_Calidad.py:154-163 | on such rows a nominal exists, each row is flagged iff it is out of tolerance, and the percentage is the flagged share in [0, 100] |
| Quality.DiameterFlagsCoerced | src/pages/3_Geotecnia_y_Calidad.py:154-163 | for the report step on any rows (the block itself reaches it only with numeric diameters): with a nominal, each row is flagged iff its coerced diameter is a number out of tolerance, and the percentage is the flagged share of all rows in [0, 100] |
| Quality.AuxCoercesDiameter | src/ui/plots.py:45 | the auxiliary columns keep every row and hold the coerced diameters |
| Quality.DiameterTextRaises | src/pages/3_Geotecnia_y_Calidad.py:134-145 | a kept row whose diameter is a text or a date makes the block raise `NonNumeric("diametro")` |
| Quality.DiameterTextExample | src/pages/3_Geotecnia_y_Calidad.py:134-145 | two diameters of 165 beside the text "s/i" make the block raise |
| Quality.NominalIsSmallestMode | src/pages/3_Geotecnia_y_Calidad.py:154-158 | the nominal's cell is in the column; no number occurs in the column more often than it, and any number as frequent is not smaller |
| Quality.ToleranceBoundary | src/pages/3_Geotecnia_y_Calidad.py:160-162 | a diameter exactly at nominal ± tolerance is within tolerance |

## Left out

- The spreadsheet read (`pd.read_excel`, openpyxl warnings) is foreign I/O. The model starts from a header list and rows.
- `convertir_coordenadas` (UTM to latitude/longitude) is floating-point geodesy in the `utm` library.
- Streamlit is not modelled: the uploader, sidebar widgets, `session_state`, messages and `obtener_datos_en_sesion`. Widget results are parameters, and `st.stop()` is an `Err`.
- The session branch that reuses a stored table without a new upload is not modelled; the processed table is a parameter.
- Plotly figures, `scatter_base` and every chart call.
- Pages `1_Dashboard.py` and `4_Visualizacion_3D.py`, `styles.py` and `main.py` are presentation. The categorical rule of page 1 repeats the one of page 2.
- Two-decimal rounding is float formatting: `formatear_tabla`, the `round(2)` loop of `preparar_columnas_aux`, and `resumen.round(2)`.
- The values of the `describe()` statistics (mean, std, min, max) are float formatting and are left out; the KeyError that selecting them raises on a non-numeric column is modelled.
- The "single factor value" notice (`nunique() <= 1`) only selects a message.
- Parsing is an opaque partial function: `pd.to_datetime`, `pd.to_numeric`, `float()` on text, and `strftime`. Dates are whole days; the time of day is dropped.
- Session.FilterableAmong, Session.ColumnStep and Zones.CategoricalColumns: a date cell is a whole day, while `nunique`, `unique`, `sorted` and `isin` in pandas compare full timestamps. Two timestamps on the same day are two distinct values in pandas and one in the model, so for a datetime column other than `fecha_tronadura` the distinct count, the offered options and the selection can differ.
- Quality.DiameterControl: the model has no dtypes, so a column that holds only numbers counts as numeric. In pandas an object-dtype column of numbers also makes `describe()[["mean", "std", "min", "max"]]` raise (src/pages/3_Geotecnia_y_Calidad.py:142, and :86 for the length block); the model cannot show that case.
- Loader.CargarDatos: the reader is taken to yield only text headers. A non-text header makes `col.lower()` raise AttributeError (src/data_loader.py:63), which the app reports and then stops (src/ui/data_context.py:116-118); that path is not modelled.
- Plots.Closest: it specifies `Fraction.limit_denominator(16)` by its contract: the closest fraction, smallest denominator on a tie. The tie-breaking of the library's continued-fraction algorithm is not modelled bit for bit.
- Plots.Trunc: Python's `float` is modelled as an exact real. The text "nan" and "inf" pass `float()` at src/ui/plots.py:18, and `int()` at src/ui/plots.py:22 then raises `ValueError` or `OverflowError`; an infinite diameter raises the same way. The model has no NaN or infinite reals, so these raising inputs are not represented. The `float()` parse is a parameter that yields finite values only.
- Session.LoadFactor: the raise is named `factor_carga`, not the offending column. A whole-column dtype mismatch that pandas rejects before looking at the rows (a datetime column divided with no present pair) is not modelled.
- Session.ColumnStep: sortability is modelled by value kind only; numbers, texts and dates each compare among themselves. Mixed bool/number or NaN orderings are not modelled.
- Loader.LowerChar: case mapping covers ASCII and Latin-1 letters only. Other Unicode case pairs are not modelled.
- Tables.IndexOf: a duplicated header is read at its first occurrence. pandas would return a multi-column frame there.
- The date input's choice is a range, one day, or cleared (an empty result, which keeps every row). A 1-tuple, returned while a range is being picked, is not modelled.
- Zones.Summarise: groups are listed in order of first appearance. pandas `groupby` sorts the keys. The values of each line are the same.
- `Zones.ZoneSummary` and `Quality.LengthControl` treat a non-numeric cell where pandas would compute as a `NonNumeric` error. pandas may instead raise a different error, or concatenate strings in `sum`.
- Zones.CategoricalRule and Zones.CategoricalColumns: "numeric dtype" means every present cell is a number. Boolean and complex dtypes are not modelled.
- Plots.PrepararColumnasAux: without `diametro`, `agregar_diametro_pulgadas` returns its argument itself (src/ui/plots.py:41-42). `preparar_columnas_aux` then writes the rounded columns and `fecha_tronadura_str` into the caller's frame (src/ui/plots.py:55-59). Pages 2 and 4 pass the session's filtered table without a copy, so it changes for later pages. The model returns a new table and does not capture this aliasing.
- Quality.DiameterFlags and Quality.DiameterFlagsCoerced: the rounding of `preparar_columnas_aux` between the nominal and the flag is left out. The flag is computed on the unrounded diameter.

Where the documented behaviour and the code disagree, the model follows the code:

- Duplicate headers produced by renaming are kept as duplicates. They are not merged last-write-wins.
- `normalize_column_name` is documented as leaving no doubled underscores, but the code only replaces characters: "a  b" becomes "a__b". `Loader.NormalizeColumnName` follows the code.
- `factor_carga` is left absent, not set to null, when neither both sources nor an existing `factor_carga` are present.

## Findings

| source | as written | input that shows it | evidently intended | confidence | as-written member | corrected member |
|---|---|---|---|---|---|---|
| src/ui/plots.py:28-35 | `limit_denominator(16)` can round the fraction up to 1/1, and there is no carry into the integer part | inch value 2.99: integer part 2, fraction 0.99 ≈ 1/1, rendered "2 1/1" | a whole fraction carries into the integer part, rendering "3" | not executed | Plots.NoCarryExample | Plots.CarriedProper |

The diameter label (`Plots.InchLabel`) follows the code as written: `Plots.InchLabelExample` shows "2 1/1" for 2.99 inches, 76 mm. `Plots.MixtoCorregido`, `Plots.CarriedProper` and `Plots.CorregidoExample` are the corrected rendering, which renders that input as "3".
