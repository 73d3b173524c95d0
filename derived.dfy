/**
 * Stage 6, `create_derived_columns`: eleven steps, each adding or rewriting
 * columns when its input columns exist. Three steps can raise; a raised step
 * ends the stage with the earlier steps' columns in place.
 */
module Derived {
  import opened Wrappers
  import opened Text
  import opened Values
  import opened Tables
  import opened Rules
  import opened Stages

  /** An exception that escapes a stage; `column` is the column whose cells raised it. */
  datatype Failure = Failure(column: string)

  /**
   * The table as a stage leaves it, and the exception that ended the stage
   * early, if any (the assignments made before it stay in place).
   */
  datatype Run = Run(table: Table, failure: Option<Failure>)

  /**
   * `r` grows `t`: same height, every column of `t` still there, new columns
   * only among `written`, and columns outside `written` untouched.
   */
  predicate Extends(t: Table, r: Table, written: set<string>)
    requires WellFormed(t) && WellFormed(r)
  {
    && r.height == t.height
    && (forall n :: n in t.names ==> n in r.names)
    && (forall n :: n in r.names ==> n in t.names || n in written)
    && (forall n :: n in t.names && n !in written ==> Column(r, n) == Column(t, n))
  }

  lemma ExtendsTrans(a: Table, b: Table, c: Table, w1: set<string>, w2: set<string>)
    requires WellFormed(a) && WellFormed(b) && WellFormed(c)
    requires Extends(a, b, w1) && Extends(b, c, w2)
    ensures Extends(a, c, w1 + w2)
  {
  }

  lemma SetColumnExtends(t: Table, name: string, col: Cells)
    requires WellFormed(t) && |col| == t.height
    ensures Extends(t, SetColumn(t, name, col), {name})
  {
  }

  /** `astype("Float64").fillna(0)` on one cell that allows the cast. */
  function FloatOrZero(v: Value): real {
    if CastToFloat(v).Number? then CastToFloat(v).x else 0.0
  }

  /** Light plus serious injuries of one row, missing counted as none. */
  function InjurySum(l: Value, g: Value): real {
    FloatOrZero(l) + FloatOrZero(g)
  }

  /**
   * Step 1, `feridos`: the float sum of both injury columns, missing read as
   * 0, cast to a nullable integer. Either cast to float can raise. The sum is
   * a masked Float64 series, and its cast to Int64 truncates toward zero
   * without raising.
   */
  function FeridosStep(t: Table): (r: Run)
    requires WellFormed(t)
    ensures WellFormed(r.table) && Extends(t, r.table, {"feridos"})
    ensures r.failure.Some? ==> r.table == t && r.failure.value.column in {"feridos_leves", "feridos_graves"}
    ensures r.failure.Some? <==>
              && "feridos_leves" in t.names && "feridos_graves" in t.names
              && (!AllFloatable(Column(t, "feridos_leves")) || !AllFloatable(Column(t, "feridos_graves")))
    ensures r.failure.None? && "feridos_leves" in t.names && "feridos_graves" in t.names ==>
              "feridos" in r.table.names &&
              forall i :: 0 <= i < t.height ==>
                Column(r.table, "feridos")[i] ==
                  Int(Truncate(InjurySum(Column(t, "feridos_leves")[i], Column(t, "feridos_graves")[i])))
  {
    if "feridos_leves" in t.names && "feridos_graves" in t.names then
      var l := Column(t, "feridos_leves");
      var g := Column(t, "feridos_graves");
      if !AllFloatable(l) then Run(t, Some(Failure("feridos_leves")))
      else if !AllFloatable(g) then Run(t, Some(Failure("feridos_graves")))
      else
        var col := seq(t.height, i requires 0 <= i < t.height => Int(Truncate(InjurySum(l[i], g[i]))));
        SetColumnExtends(t, "feridos", col);
        Run(SetColumn(t, "feridos", col), None)
    else Run(t, None)
  }

  /** Step 2, `rodovia` formatted and `rodovia_numero` taken from the formatted route. */
  function RodoviaStep(env: Env, t: Table): (r: Table)
    requires WellFormed(t)
    ensures WellFormed(r) && Extends(t, r, {"rodovia", "rodovia_numero"})
    ensures "rodovia" in t.names ==>
              "rodovia_numero" in r.names &&
              forall i :: 0 <= i < t.height ==>
                && Column(r, "rodovia")[i] == MesclaRodovia(env, Column(t, "rodovia")[i])
                && Column(r, "rodovia_numero")[i] == ExtrairNumeroRodovia(env, Column(r, "rodovia")[i])
  {
    if "rodovia" in t.names then
      var route := MapCells(Column(t, "rodovia"), v => MesclaRodovia(env, v));
      var t1 := SetColumn(t, "rodovia", route);
      var number := MapCells(route, v => ExtrairNumeroRodovia(env, v));
      SetColumnExtends(t, "rodovia", route);
      SetColumnExtends(t1, "rodovia_numero", number);
      assert "rodovia" != "rodovia_numero";
      SetColumn(t1, "rodovia_numero", number)
    else t
  }

  /**
   * The format-less parse of `data` and `horario` joined by a space; a
   * missing cell of either is a failed parse, `NaT`.
   */
  function StampOf(env: Env, d: Value, h: Value): Option<Timestamp> {
    env.parseStamp(Render(Parsed(env), d) + " " + Render(Parsed(env), h))
  }

  /** `dt.weekday.map(dias_semana)`: a known weekday index gives its name, anything else is missing. */
  function WeekdayName(env: Env, s: Option<Timestamp>): (r: Value)
    ensures r.Null? || exists w :: w in DiasSemana && r == Str(DiasSemana[w])
  {
    if s.Some? && env.weekday(s.value.date) in DiasSemana then Str(DiasSemana[env.weekday(s.value.date)])
    else Null
  }

  const TemporalColumns: set<string> := {"data_hora", "dia_semana", "data", "ano", "hora"}

  /**
   * Step 3: `data_hora` is the joined parse; `dia_semana`, `data`, `ano` and
   * `hora` are read from it, and are missing where it is.
   */
  function TemporalStep(env: Env, t: Table): (r: Table)
    requires WellFormed(t)
    ensures WellFormed(r) && Extends(t, r, TemporalColumns)
  {
    if "data" in t.names && "horario" in t.names then
      var stamps := Stamps(env, t);
      var t1 := SetColumn(t, "data_hora", StampCells(stamps));
      var t2 := SetColumn(t1, "dia_semana", WeekdayCells(env, stamps));
      var t3 := SetColumn(t2, "data", DayCells(stamps));
      var t4 := SetColumn(t3, "ano", YearCells(stamps));
      var t5 := SetColumn(t4, "hora", HourCells(stamps));
      SetColumnExtends(t, "data_hora", Column(t1, "data_hora"));
      SetColumnExtends(t1, "dia_semana", Column(t2, "dia_semana"));
      SetColumnExtends(t2, "data", Column(t3, "data"));
      SetColumnExtends(t3, "ano", Column(t4, "ano"));
      SetColumnExtends(t4, "hora", Column(t5, "hora"));
      ExtendsTrans(t, t1, t2, {"data_hora"}, {"dia_semana"});
      ExtendsTrans(t, t2, t3, {"data_hora", "dia_semana"}, {"data"});
      ExtendsTrans(t, t3, t4, {"data_hora", "dia_semana", "data"}, {"ano"});
      ExtendsTrans(t, t4, t5, {"data_hora", "dia_semana", "data", "ano"}, {"hora"});
      t5
    else t
  }

  /** The joined parse of every row (both columns present). */
  function Stamps(env: Env, t: Table): (s: seq<Option<Timestamp>>)
    requires WellFormed(t) && "data" in t.names && "horario" in t.names
    ensures |s| == t.height
  {
    var d := Column(t, "data");
    var h := Column(t, "horario");
    seq(t.height, i requires 0 <= i < t.height => StampOf(env, d[i], h[i]))
  }

  function MapStamps(s: seq<Option<Timestamp>>, f: Option<Timestamp> -> Value): (c: Cells)
    ensures |c| == |s| && forall i :: 0 <= i < |s| ==> c[i] == f(s[i])
  {
    seq(|s|, i requires 0 <= i < |s| => f(s[i]))
  }

  /** `data_hora`: the timestamp, missing where the parse failed. */
  function StampCells(s: seq<Option<Timestamp>>): (c: Cells)
    ensures |c| == |s| && forall i :: 0 <= i < |s| ==> c[i] == if s[i].Some? then Stamp(s[i].value) else Null
  {
    MapStamps(s, (x: Option<Timestamp>) => if x.Some? then Stamp(x.value) else Null)
  }

  /** `dia_semana`: the weekday name of each timestamp. */
  function WeekdayCells(env: Env, s: seq<Option<Timestamp>>): (c: Cells)
    ensures |c| == |s| && forall i :: 0 <= i < |s| ==> c[i] == WeekdayName(env, s[i])
  {
    MapStamps(s, (x: Option<Timestamp>) => WeekdayName(env, x))
  }

  /** `data`: the date part of each timestamp. */
  function DayCells(s: seq<Option<Timestamp>>): (c: Cells)
    ensures |c| == |s| && forall i :: 0 <= i < |s| ==> c[i] == if s[i].Some? then Date(s[i].value.date) else Null
  {
    MapStamps(s, (x: Option<Timestamp>) => if x.Some? then Date(x.value.date) else Null)
  }

  /** `ano`: the year of each timestamp. */
  function YearCells(s: seq<Option<Timestamp>>): (c: Cells)
    ensures |c| == |s| && forall i :: 0 <= i < |s| ==> c[i] == if s[i].Some? then Int(s[i].value.date.year) else Null
  {
    MapStamps(s, (x: Option<Timestamp>) => if x.Some? then Int(x.value.date.year) else Null)
  }

  /** `hora`: the hour of each timestamp. */
  function HourCells(s: seq<Option<Timestamp>>): (c: Cells)
    ensures |c| == |s| && forall i :: 0 <= i < |s| ==> c[i] == if s[i].Some? then Int(s[i].value.time.hour) else Null
  {
    MapStamps(s, (x: Option<Timestamp>) => if x.Some? then Int(x.value.time.hour) else Null)
  }

  /**
   * With both `data` and `horario` present, the five temporal columns exist
   * and every row reads its timestamp, date, year, hour and weekday name from
   * the joined parse, all missing where the parse failed.
   */
  lemma TemporalStepEffect(env: Env, t: Table)
    requires WellFormed(t) && "data" in t.names && "horario" in t.names
    ensures var r := TemporalStep(env, t);
            && "data_hora" in r.names && "dia_semana" in r.names && "data" in r.names
            && "ano" in r.names && "hora" in r.names
            && forall i :: 0 <= i < t.height ==>
                 var s := StampOf(env, Column(t, "data")[i], Column(t, "horario")[i]);
                 && Column(r, "data_hora")[i] == (if s.Some? then Stamp(s.value) else Null)
                 && Column(r, "dia_semana")[i] == WeekdayName(env, s)
                 && Column(r, "data")[i] == (if s.Some? then Date(s.value.date) else Null)
                 && Column(r, "ano")[i] == (if s.Some? then Int(s.value.date.year) else Null)
                 && Column(r, "hora")[i] == (if s.Some? then Int(s.value.time.hour) else Null)
  {
    TemporalNamesApart();
    var stamps := Stamps(env, t);
    var t1 := SetColumn(t, "data_hora", StampCells(stamps));
    var t2 := SetColumn(t1, "dia_semana", WeekdayCells(env, stamps));
    var t3 := SetColumn(t2, "data", DayCells(stamps));
    var t4 := SetColumn(t3, "ano", YearCells(stamps));
    var t5 := SetColumn(t4, "hora", HourCells(stamps));
    assert TemporalStep(env, t) == t5;
    assert Column(t5, "ano") == Column(t4, "ano");
    assert Column(t5, "data") == Column(t4, "data") == Column(t3, "data");
    assert Column(t5, "dia_semana") == Column(t3, "dia_semana") == Column(t2, "dia_semana");
    assert Column(t5, "data_hora") == Column(t3, "data_hora") == Column(t1, "data_hora");
    forall i | 0 <= i < t.height
      ensures stamps[i] == StampOf(env, Column(t, "data")[i], Column(t, "horario")[i])
    {
    }
  }

  lemma TemporalNamesApart()
    ensures "data_hora" != "dia_semana" && "data_hora" != "data" && "data_hora" != "ano" && "data_hora" != "hora"
    ensures "dia_semana" != "data" && "dia_semana" != "ano" && "dia_semana" != "hora"
    ensures "data" != "ano" && "data" != "hora" && "ano" != "hora"
  {
  }

  /**
   * A rule on a nullable integer column (`apply` then `astype("string")`),
   * written to `dst`: `int()` must succeed on every present cell of `src`,
   * otherwise the step raises and nothing is written.
   */
  function IntRuleStep(t: Table, src: string, dst: string, rule: int -> Option<string>): (r: Run)
    requires WellFormed(t)
    ensures WellFormed(r.table) && Extends(t, r.table, {dst})
    ensures src !in t.names ==> r == Run(t, None)
    ensures r.failure.Some? ==>
              && r.table == t && r.failure == Some(Failure(src)) && src in t.names
              && exists i :: 0 <= i < t.height && !Column(t, src)[i].Null? && PyInt(Column(t, src)[i]).None?
    ensures r.failure.None? && src in t.names ==>
              && dst in r.table.names
              && forall i :: 0 <= i < t.height ==> ApplyIntRule(rule, Column(t, src)[i]) == Some(Column(r.table, dst)[i])
  {
    if src in t.names then
      var c := Column(t, src);
      if forall i :: 0 <= i < |c| ==> ApplyIntRule(rule, c[i]).Some? then
        var col := seq(|c|, i requires 0 <= i < |c| => ApplyIntRule(rule, c[i]).value);
        SetColumnExtends(t, dst, col);
        Run(SetColumn(t, dst, col), None)
      else Run(t, Some(Failure(src)))
    else Run(t, None)
  }

  /** Step 4, `periodo` from `hora`. */
  function PeriodoStep(t: Table): (r: Run)
    requires WellFormed(t)
    ensures WellFormed(r.table) && Extends(t, r.table, {"periodo"})
  {
    IntRuleStep(t, "hora", "periodo", h => Some(PeriodOfDay(h)))
  }

  /**
   * Once the hour is in place, every row's period is the bucket of its hour,
   * missing where the hour is; the step raises only on an hour `int()` refuses.
   */
  lemma PeriodoStepEffect(t: Table)
    requires WellFormed(t) && "hora" in t.names
    ensures var r := PeriodoStep(t);
            && (r.failure.Some? <==> exists i :: 0 <= i < t.height && !Column(t, "hora")[i].Null? && PyInt(Column(t, "hora")[i]).None?)
            && (r.failure.None? ==>
                  "periodo" in r.table.names &&
                  forall i :: 0 <= i < t.height ==>
                    Column(r.table, "periodo")[i] ==
                      if Column(t, "hora")[i].Null? then Null else Str(PeriodOfDay(PyInt(Column(t, "hora")[i]).value)))
  {
    var r := PeriodoStep(t);
    var c := Column(t, "hora");
    if r.failure.None? {
      forall i | 0 <= i < t.height
        ensures Column(r.table, "periodo")[i] == if c[i].Null? then Null else Str(PeriodOfDay(PyInt(c[i]).value))
      {
        assert ApplyIntRule(h => Some(PeriodOfDay(h)), c[i]) == Some(Column(r.table, "periodo")[i]);
      }
    }
  }

  /** Step 5, `periodo_semana` from `dia_semana`. */
  function PeriodoSemanaStep(t: Table): (r: Table)
    requires WellFormed(t)
    ensures WellFormed(r) && Extends(t, r, {"periodo_semana"})
    ensures "dia_semana" in t.names ==>
              "periodo_semana" in r.names &&
              forall i :: 0 <= i < t.height ==> Column(r, "periodo_semana")[i] == PeriodoSemana(Column(t, "dia_semana")[i])
  {
    if "dia_semana" in t.names then
      var col := MapCells(Column(t, "dia_semana"), PeriodoSemana);
      SetColumnExtends(t, "periodo_semana", col);
      SetColumn(t, "periodo_semana", col)
    else t
  }

  /** Steps 6 and 7, `localidade` and `regiao` looked up from `uf`. */
  function StateSteps(t: Table): (r: Table)
    requires WellFormed(t)
    ensures WellFormed(r) && Extends(t, r, {"localidade", "regiao"})
    ensures "uf" in t.names ==>
              "localidade" in r.names && "regiao" in r.names &&
              forall i :: 0 <= i < t.height ==>
                && Column(r, "localidade")[i] == LookupUf(UfToLocalidade, Column(t, "uf")[i])
                && Column(r, "regiao")[i] == LookupUf(UfToRegiao, Column(t, "uf")[i])
  {
    if "uf" in t.names then
      var uf := Column(t, "uf");
      var local := MapCells(uf, v => LookupUf(UfToLocalidade, v));
      var t1 := SetColumn(t, "localidade", local);
      assert "uf" != "localidade" && "localidade" != "regiao";
      var region := MapCells(Column(t1, "uf"), v => LookupUf(UfToRegiao, v));
      SetColumnExtends(t, "localidade", local);
      SetColumnExtends(t1, "regiao", region);
      SetColumn(t1, "regiao", region)
    else t
  }

  /**
   * Steps 8 and 9, the two age buckets of `envolvido_idade`; `int()` runs on
   * the age in both, so the first raises whenever the second would.
   */
  function AgeSteps(t: Table): (r: Run)
    requires WellFormed(t)
    ensures WellFormed(r.table) && Extends(t, r.table, {"faixa_etaria_ano", "faixa_etaria_classe"})
    ensures r.failure.Some? ==> r.table == t && r.failure == Some(Failure("envolvido_idade"))
  {
    var s8 := IntRuleStep(t, "envolvido_idade", "faixa_etaria_ano", FaixaEtariaAno);
    if s8.failure.Some? then s8
    else
      var s9 := IntRuleStep(s8.table, "envolvido_idade", "faixa_etaria_classe", FaixaEtariaClasse);
      if s9.failure.Some? then
        assert false;
        s9
      else
        ExtendsTrans(t, s8.table, s9.table, {"faixa_etaria_ano"}, {"faixa_etaria_classe"});
        Run(s9.table, None)
  }

  /**
   * The age steps raise exactly when some present age is not an integer;
   * otherwise each row's two bands are the rules applied to its age.
   */
  lemma AgeStepsEffect(t: Table)
    requires WellFormed(t) && "envolvido_idade" in t.names
    ensures AgeSteps(t).failure.Some? <==>
              exists i :: 0 <= i < t.height && !Column(t, "envolvido_idade")[i].Null? && PyInt(Column(t, "envolvido_idade")[i]).None?
    ensures AgeSteps(t).failure.None? ==>
              && "faixa_etaria_ano" in AgeSteps(t).table.names && "faixa_etaria_classe" in AgeSteps(t).table.names
              && forall i :: 0 <= i < t.height ==>
                   && ApplyIntRule(FaixaEtariaAno, Column(t, "envolvido_idade")[i]) == Some(Column(AgeSteps(t).table, "faixa_etaria_ano")[i])
                   && ApplyIntRule(FaixaEtariaClasse, Column(t, "envolvido_idade")[i]) == Some(Column(AgeSteps(t).table, "faixa_etaria_classe")[i])
  {
    var age := Column(t, "envolvido_idade");
    var s8 := IntRuleStep(t, "envolvido_idade", "faixa_etaria_ano", FaixaEtariaAno);
    if s8.failure.None? {
      forall i | 0 <= i < t.height
        ensures !(!age[i].Null? && PyInt(age[i]).None?)
      {
        assert ApplyIntRule(FaixaEtariaAno, age[i]).Some?;
      }
      var s9 := IntRuleStep(s8.table, "envolvido_idade", "faixa_etaria_classe", FaixaEtariaClasse);
      assert Column(s8.table, "envolvido_idade") == age;
      assert Column(s9.table, "faixa_etaria_ano") == Column(s8.table, "faixa_etaria_ano");
    }
  }

  /** Step 10, `gravidade` from the death and injury counts. */
  function GravidadeStep(t: Table): (r: Table)
    requires WellFormed(t)
    ensures WellFormed(r) && Extends(t, r, {"gravidade"})
    ensures "mortos" in t.names && "feridos" in t.names ==>
              "gravidade" in r.names &&
              forall i :: 0 <= i < t.height ==>
                Column(r, "gravidade")[i] == GravidadeCell(Column(t, "mortos")[i], Column(t, "feridos")[i])
  {
    if "mortos" in t.names && "feridos" in t.names then
      var m := Column(t, "mortos");
      var f := Column(t, "feridos");
      var col := seq(t.height, i requires 0 <= i < t.height => GravidadeCell(m[i], f[i]));
      SetColumnExtends(t, "gravidade", col);
      SetColumn(t, "gravidade", col)
    else t
  }

  /** Step 11, `ups` from the counts and the accident type. */
  function UpsStep(t: Table): (r: Table)
    requires WellFormed(t)
    ensures WellFormed(r) && Extends(t, r, {"ups"})
    ensures "mortos" in t.names && "feridos" in t.names && "sinistro_tipo" in t.names ==>
              "ups" in r.names &&
              forall i :: 0 <= i < t.height ==>
                Column(r, "ups")[i] == UpsCell(Column(t, "mortos")[i], Column(t, "feridos")[i], Column(t, "sinistro_tipo")[i])
  {
    if "mortos" in t.names && "feridos" in t.names && "sinistro_tipo" in t.names then
      var m := Column(t, "mortos");
      var f := Column(t, "feridos");
      var k := Column(t, "sinistro_tipo");
      var col := seq(t.height, i requires 0 <= i < t.height => UpsCell(m[i], f[i], k[i]));
      SetColumnExtends(t, "ups", col);
      SetColumn(t, "ups", col)
    else t
  }

  const DerivedColumns: set<string> :=
    {"feridos", "rodovia", "rodovia_numero", "data_hora", "dia_semana", "data", "ano", "hora", "periodo",
     "periodo_semana", "localidade", "regiao", "faixa_etaria_ano", "faixa_etaria_classe", "gravidade", "ups"}

  /** The columns whose cells can make the stage raise. */
  const RaisingColumns: set<string> := {"feridos_leves", "feridos_graves", "hora", "envolvido_idade"}

  /** One more step that writes only derived columns keeps the stage within them. */
  lemma Grow(a: Table, b: Table, c: Table, w: set<string>, within: set<string> := DerivedColumns)
    requires WellFormed(a) && WellFormed(b) && WellFormed(c)
    requires a == b || Extends(a, b, within)
    requires Extends(b, c, w) && w <= within
    ensures Extends(a, c, within)
  {
  }

  /** The eleven steps in order, stopping at the first that raises. */
  function CreateDerived(env: Env, t: Table): (r: Run)
    requires WellFormed(t)
    ensures WellFormed(r.table) && Extends(t, r.table, DerivedColumns)
    ensures r.failure.Some? ==> r.failure.value.column in RaisingColumns
  {
    var s1 := FeridosStep(t);
    if s1.failure.Some? then s1
    else
      var t2 := RodoviaStep(env, s1.table);
      var t3 := TemporalStep(env, t2);
      Grow(t, t, s1.table, {"feridos"});
      Grow(t, s1.table, t2, {"rodovia", "rodovia_numero"});
      Grow(t, t2, t3, TemporalColumns);
      var s4 := PeriodoStep(t3);
      if s4.failure.Some? then s4
      else
        var t5 := PeriodoSemanaStep(s4.table);
        var t7 := StateSteps(t5);
        Grow(t, t3, s4.table, {"periodo"});
        Grow(t, s4.table, t5, {"periodo_semana"});
        Grow(t, t5, t7, {"localidade", "regiao"});
        var s9 := AgeSteps(t7);
        if s9.failure.Some? then s9
        else
          var t10 := GravidadeStep(s9.table);
          var t11 := UpsStep(t10);
          Grow(t, t7, s9.table, {"faixa_etaria_ano", "faixa_etaria_classe"});
          Grow(t, s9.table, t10, {"gravidade"});
          Grow(t, t10, t11, {"ups"});
          Run(t11, None)
  }

  /** The tables between the steps of a stage run that did not raise. */
  lemma Unfold(env: Env, t: Table) returns (s1: Run, t2: Table, t3: Table, s4: Run, t5: Table, t7: Table, s9: Run, t10: Table, t11: Table)
    requires WellFormed(t) && CreateDerived(env, t).failure.None?
    ensures s1 == FeridosStep(t) && s1.failure.None?
    ensures t2 == RodoviaStep(env, s1.table) && t3 == TemporalStep(env, t2)
    ensures s4 == PeriodoStep(t3) && s4.failure.None?
    ensures t5 == PeriodoSemanaStep(s4.table) && t7 == StateSteps(t5)
    ensures s9 == AgeSteps(t7) && s9.failure.None?
    ensures t10 == GravidadeStep(s9.table) && t11 == UpsStep(t10)
    ensures CreateDerived(env, t).table == t11
  {
    s1 := FeridosStep(t);
    t2 := RodoviaStep(env, s1.table);
    t3 := TemporalStep(env, t2);
    s4 := PeriodoStep(t3);
    t5 := PeriodoSemanaStep(s4.table);
    t7 := StateSteps(t5);
    s9 := AgeSteps(t7);
    t10 := GravidadeStep(s9.table);
    t11 := UpsStep(t10);
  }

  /** The hour the temporal step writes is always an integer or missing, so the period step never raises on it. */
  lemma PeriodNeverRaisesAfterTemporal(env: Env, t: Table)
    requires WellFormed(t) && "data" in t.names && "horario" in t.names
    ensures PeriodoStep(TemporalStep(env, t)).failure.None?
  {
    var t3 := TemporalStep(env, t);
    TemporalStepEffect(env, t);
    var hora := Column(t3, "hora");
    forall i | 0 <= i < t3.height
      ensures hora[i].Null? || hora[i].Int?
    {
      var s := StampOf(env, Column(t, "data")[i], Column(t, "horario")[i]);
      assert hora[i] == if s.Some? then Int(s.value.time.hour) else Null;
    }
    PeriodoStepEffect(t3);
  }

  /**
   * After the whole stage the severity score and the severity label agree
   * row by row: 13 exactly when there is a death, 4 only with an injury.
   */
  lemma SeverityColumnsAgree(env: Env, t: Table)
    requires WellFormed(t) && CreateDerived(env, t).failure.None?
    requires "mortos" in t.names && "feridos" in t.names && "sinistro_tipo" in t.names
    ensures var r := CreateDerived(env, t).table;
            && "gravidade" in r.names && "ups" in r.names
            && forall i :: 0 <= i < t.height ==>
                 && (Column(r, "ups")[i] == Int(13) <==> Column(r, "gravidade")[i] == Str("Com morto"))
                 && (Column(r, "ups")[i] == Int(4) ==> Column(r, "gravidade")[i] == Str("Com ferido"))
                 && (Column(r, "gravidade")[i] == Str("Com ferido") ==> Column(r, "ups")[i] in {Int(4), Int(6)})
  {
    var s1, t2, t3, s4, t5, t7, s9, t10, t11 := Unfold(env, t);
    var t9 := s9.table;
    assert "gravidade" != "ups" && "mortos" != "gravidade" && "feridos" != "gravidade";
    var m := Column(t9, "mortos");
    var f := Column(t9, "feridos");
    assert Column(t10, "mortos") == m && Column(t10, "feridos") == f;
    forall i | 0 <= i < t.height
      ensures && (Column(t11, "ups")[i] == Int(13) <==> Column(t11, "gravidade")[i] == Str("Com morto"))
              && (Column(t11, "ups")[i] == Int(4) ==> Column(t11, "gravidade")[i] == Str("Com ferido"))
              && (Column(t11, "gravidade")[i] == Str("Com ferido") ==> Column(t11, "ups")[i] in {Int(4), Int(6)})
    {
      var tipo := Column(t10, "sinistro_tipo")[i];
      assert Column(t11, "gravidade")[i] == GravidadeCell(m[i], f[i]);
      assert Column(t11, "ups")[i] == UpsCell(m[i], f[i], tipo);
      UpsAgreesWithGravidade(NumericOrZero(m[i]), NumericOrZero(f[i]), tipo);
    }
  }

  /** Steps 1 and 2 leave every column they do not write as it was. */
  lemma KeptBeforeTemporal(env: Env, t: Table, n: string)
    requires WellFormed(t) && n in t.names
    requires n != "feridos" && n != "rodovia" && n != "rodovia_numero"
    ensures var t2 := RodoviaStep(env, FeridosStep(t).table);
            n in t2.names && Column(t2, n) == Column(t, n)
  {
    assert Column(FeridosStep(t).table, n) == Column(t, n);
  }

  /** Steps 3 to 5 leave every column they do not write as it was. */
  lemma KeptFromStep3(env: Env, t2: Table, n: string)
    requires WellFormed(t2) && n in t2.names
    requires n !in {"data_hora", "dia_semana", "data", "ano", "hora", "periodo", "periodo_semana"}
    ensures var t3 := TemporalStep(env, t2);
            var t5 := PeriodoSemanaStep(PeriodoStep(t3).table);
            n in t5.names && Column(t5, n) == Column(t2, n)
  {
    var t3 := TemporalStep(env, t2);
    var s4 := PeriodoStep(t3);
    assert n !in TemporalColumns;
    assert Column(t3, n) == Column(t2, n);
    assert n != "periodo";
    assert Column(s4.table, n) == Column(t3, n);
    assert n != "periodo_semana";
  }

  /** Steps 2 to 5 leave every column they do not write as it was. */
  lemma KeptFromStep2(env: Env, t1: Table, n: string)
    requires WellFormed(t1) && n in t1.names
    requires n !in {"rodovia", "rodovia_numero", "data_hora", "dia_semana", "data", "ano", "hora", "periodo", "periodo_semana"}
    ensures var t3 := TemporalStep(env, RodoviaStep(env, t1));
            var t5 := PeriodoSemanaStep(PeriodoStep(t3).table);
            n in t5.names && Column(t5, n) == Column(t1, n)
  {
    var t2 := RodoviaStep(env, t1);
    assert n != "rodovia" && n != "rodovia_numero";
    assert Column(t2, n) == Column(t1, n);
    KeptFromStep3(env, t2, n);
  }

  /** Steps 6 to 11 leave every column they do not write as it was after step 5. */
  lemma KeptAfterWeekPeriod(t5: Table, t7: Table, s9: Run, t10: Table, t11: Table, n: string)
    requires WellFormed(t5) && n in t5.names
    requires t7 == StateSteps(t5) && s9 == AgeSteps(t7) && t10 == GravidadeStep(s9.table) && t11 == UpsStep(t10)
    requires n !in {"localidade", "regiao", "faixa_etaria_ano", "faixa_etaria_classe", "gravidade", "ups"}
    ensures n in t11.names && Column(t11, n) == Column(t5, n)
  {
    KeptThroughAge(t5, t7, s9, n);
    assert n != "gravidade";
    assert Column(t10, n) == Column(s9.table, n);
    assert n != "ups";
  }

  /** Steps 6 to 9 leave every column they do not write as it was. */
  lemma KeptThroughAge(t5: Table, t7: Table, s9: Run, n: string)
    requires WellFormed(t5) && n in t5.names
    requires t7 == StateSteps(t5) && s9 == AgeSteps(t7)
    requires n !in {"localidade", "regiao", "faixa_etaria_ano", "faixa_etaria_classe"}
    ensures n in s9.table.names && Column(s9.table, n) == Column(t5, n)
  {
    assert n != "localidade" && n != "regiao";
    assert Column(t7, n) == Column(t5, n);
    assert n != "faixa_etaria_ano" && n != "faixa_etaria_classe";
  }

  /**
   * After the whole stage, with `data` and `horario` in the input, every row's
   * weekday name, period of the day and period of the week all come from the
   * one joined parse of that row: missing together where it failed, the
   * weekend exactly for Saturday and Sunday.
   */
  lemma TimeColumnsAgree(env: Env, t: Table)
    requires WellFormed(t) && CreateDerived(env, t).failure.None?
    requires "data" in t.names && "horario" in t.names
    ensures var r := CreateDerived(env, t).table;
            && "dia_semana" in r.names && "periodo" in r.names && "periodo_semana" in r.names
            && forall i :: 0 <= i < t.height ==>
                 var s := StampOf(env, Column(t, "data")[i], Column(t, "horario")[i]);
                 && Column(r, "dia_semana")[i] == WeekdayName(env, s)
                 && Column(r, "periodo")[i] == DayPeriodOf(s)
                 && Column(r, "periodo_semana")[i] ==
                      WeekPeriodOf(env, s)
  {
    var s1, t2, t3, s4, t5, t7, s9, t10, t11 := Unfold(env, t);
    KeptBeforeTemporal(env, t, "data");
    KeptBeforeTemporal(env, t, "horario");
    TimeColumnsAfterWeekPeriod(env, t2);
    KeptAfterWeekPeriod(t5, t7, s9, t10, t11, "dia_semana");
    KeptAfterWeekPeriod(t5, t7, s9, t10, t11, "periodo");
    KeptAfterWeekPeriod(t5, t7, s9, t10, t11, "periodo_semana");
    forall i | 0 <= i < t.height
      ensures var s := StampOf(env, Column(t, "data")[i], Column(t, "horario")[i]);
              && Column(t11, "dia_semana")[i] == WeekdayName(env, s)
              && Column(t11, "periodo")[i] == DayPeriodOf(s)
              && Column(t11, "periodo_semana")[i] ==
                   WeekPeriodOf(env, s)
    {
      var s := StampOf(env, Column(t, "data")[i], Column(t, "horario")[i]);
      assert s == StampOf(env, Column(t2, "data")[i], Column(t2, "horario")[i]);
      assert Column(t11, "dia_semana")[i] == Column(t5, "dia_semana")[i] == WeekdayName(env, s);
      assert Column(t11, "periodo")[i] == Column(t5, "periodo")[i];
      assert Column(t11, "periodo_semana")[i] == Column(t5, "periodo_semana")[i];
    }
  }

  /** `TimeColumnsAgree` as it stands after step 5. */
  lemma TimeColumnsAfterWeekPeriod(env: Env, t: Table)
    requires WellFormed(t) && "data" in t.names && "horario" in t.names
    ensures var s4 := PeriodoStep(TemporalStep(env, t));
            var t5 := PeriodoSemanaStep(s4.table);
            && s4.failure.None?
            && "dia_semana" in t5.names && "periodo" in t5.names && "periodo_semana" in t5.names
            && forall i :: 0 <= i < t.height ==>
                 var s := StampOf(env, Column(t, "data")[i], Column(t, "horario")[i]);
                 && Column(t5, "dia_semana")[i] == WeekdayName(env, s)
                 && Column(t5, "periodo")[i] == DayPeriodOf(s)
                 && Column(t5, "periodo_semana")[i] ==
                      WeekPeriodOf(env, s)
  {
    var t3 := TemporalStep(env, t);
    var s4 := PeriodoStep(t3);
    var t5 := PeriodoSemanaStep(s4.table);
    PeriodNeverRaisesAfterTemporal(env, t);
    TemporalNamesApart();
    TemporalStepEffect(env, t);
    PeriodoStepEffect(t3);
    assert "dia_semana" != "periodo" && "dia_semana" != "periodo_semana" && "periodo" != "periodo_semana";
    var day := Column(t3, "dia_semana");
    assert Column(t5, "dia_semana") == Column(s4.table, "dia_semana") == day;
    assert Column(t5, "periodo") == Column(s4.table, "periodo");
    forall i | 0 <= i < t.height
      ensures var s := StampOf(env, Column(t, "data")[i], Column(t, "horario")[i]);
              && Column(t5, "dia_semana")[i] == WeekdayName(env, s)
              && Column(t5, "periodo")[i] == DayPeriodOf(s)
              && Column(t5, "periodo_semana")[i] ==
                   WeekPeriodOf(env, s)
    {
      var s := StampOf(env, Column(t, "data")[i], Column(t, "horario")[i]);
      assert day[i] == WeekdayName(env, s);
      var hora := Column(t3, "hora")[i];
      assert hora == if s.Some? then Int(s.value.time.hour) else Null;
      assert Column(s4.table, "periodo")[i] == if hora.Null? then Null else Str(PeriodOfDay(PyInt(hora).value));
      if s.Some? {
        assert PyInt(hora).value == s.value.time.hour;
      }
      assert Column(t5, "periodo_semana")[i] == PeriodoSemana(day[i]);
      WeekPeriodOfStamp(env, s);
    }
  }

  /** The period of the day a row's joined parse gives: missing where the parse failed. */
  function DayPeriodOf(s: Option<Timestamp>): Value {
    if s.Some? then Str(PeriodOfDay(s.value.time.hour)) else Null
  }

  /**
   * The period of the week a row's joined parse gives: the weekend for
   * weekdays 5 and 6, the working week for 0 to 4, missing otherwise.
   */
  function WeekPeriodOf(env: Env, s: Option<Timestamp>): Value {
    if s.Some? && 0 <= env.weekday(s.value.date) < 7 then
      Str(if env.weekday(s.value.date) >= 5 then "Final de semana" else "Segunda à Sexta")
    else Null
  }

  /** The week period of the weekday name a parse gives. */
  lemma WeekPeriodOfStamp(env: Env, s: Option<Timestamp>)
    ensures PeriodoSemana(WeekdayName(env, s)) ==
              WeekPeriodOf(env, s)
  {
    if s.Some? && 0 <= env.weekday(s.value.date) < 7 {
      PeriodoSemanaOfWeekday(env.weekday(s.value.date));
    } else {
      PeriodoSemanaOfOther(WeekdayName(env, s));
    }
  }

  /**
   * After the whole stage, with `rodovia` in the input, every row holds the
   * formatted route of its input route and the number read back from it; a
   * route that was present always yields a number.
   */
  lemma RouteColumnsAgree(env: Env, t: Table)
    requires WellFormed(t) && CreateDerived(env, t).failure.None? && "rodovia" in t.names
    ensures var r := CreateDerived(env, t).table;
            && "rodovia" in r.names && "rodovia_numero" in r.names
            && forall i :: 0 <= i < t.height ==>
                 && Column(r, "rodovia")[i] == MesclaRodovia(env, Column(t, "rodovia")[i])
                 && Column(r, "rodovia_numero")[i] == ExtrairNumeroRodovia(env, Column(r, "rodovia")[i])
                 && (!Column(t, "rodovia")[i].Null? ==> Column(r, "rodovia_numero")[i].Str?)
  {
    KeptFromRoute(env, t, "rodovia");
    KeptFromRoute(env, t, "rodovia_numero");
    var s1 := FeridosStep(t);
    assert Column(s1.table, "rodovia") == Column(t, "rodovia");
    RouteStepAgrees(env, s1.table);
  }

  /** The route step on its own: the formatted route, its number, and a number for every route present. */
  lemma RouteStepAgrees(env: Env, t: Table)
    requires WellFormed(t) && "rodovia" in t.names
    ensures var r := RodoviaStep(env, t);
            && "rodovia" in r.names && "rodovia_numero" in r.names
            && forall i :: 0 <= i < t.height ==>
                 && Column(r, "rodovia")[i] == MesclaRodovia(env, Column(t, "rodovia")[i])
                 && Column(r, "rodovia_numero")[i] == ExtrairNumeroRodovia(env, Column(r, "rodovia")[i])
                 && (!Column(t, "rodovia")[i].Null? ==> Column(r, "rodovia_numero")[i].Str?)
  {
    var r := RodoviaStep(env, t);
    forall i | 0 <= i < t.height
      ensures !Column(t, "rodovia")[i].Null? ==> Column(r, "rodovia_numero")[i].Str?
    {
      if !Column(t, "rodovia")[i].Null? {
        FormattedRouteHasNumber(env, Column(t, "rodovia")[i]);
      }
    }
  }

  /** The two route columns leave the stage as the route step wrote them. */
  lemma KeptFromRoute(env: Env, t: Table, n: string)
    requires WellFormed(t) && CreateDerived(env, t).failure.None? && "rodovia" in t.names
    requires n == "rodovia" || n == "rodovia_numero"
    ensures FeridosStep(t).failure.None?
    ensures var t2 := RodoviaStep(env, FeridosStep(t).table);
            && n in t2.names && n in CreateDerived(env, t).table.names
            && Column(CreateDerived(env, t).table, n) == Column(t2, n)
  {
    var s1, t2, t3, s4, t5, t7, s9, t10, t11 := Unfold(env, t);
    KeptFromStep3(env, t2, n);
    KeptAfterWeekPeriod(t5, t7, s9, t10, t11, n);
  }

  /**
   * After the whole stage, with both injury columns in the input, every row's
   * `feridos` is light plus serious injuries truncated toward zero, and the
   * sum itself when it is whole.
   */
  lemma InjuriesAdd(env: Env, t: Table)
    requires WellFormed(t) && CreateDerived(env, t).failure.None?
    requires "feridos_leves" in t.names && "feridos_graves" in t.names
    ensures var r := CreateDerived(env, t).table;
            && "feridos" in r.names
            && forall i :: 0 <= i < t.height ==>
                 var sum := InjurySum(Column(t, "feridos_leves")[i], Column(t, "feridos_graves")[i]);
                 && Column(r, "feridos")[i] == Int(Truncate(sum))
                 && (IsIntegral(sum) ==> Column(r, "feridos")[i].i as real == sum)
  {
    var s1, t2, t3, s4, t5, t7, s9, t10, t11 := Unfold(env, t);
    KeptFromStep2(env, s1.table, "feridos");
    KeptAfterWeekPeriod(t5, t7, s9, t10, t11, "feridos");
    forall x: real | IsIntegral(x) ensures Truncate(x) as real == x {
      TruncateOfWhole(x);
    }
  }

  /** A step that does not write `n` does not add it. */
  lemma NotAdded(a: Table, b: Table, w: set<string>, n: string)
    requires WellFormed(a) && WellFormed(b) && Extends(a, b, w)
    requires n !in a.names && n !in w
    ensures n !in b.names
  {
  }

  /** Without both `data` and `horario` the temporal step changes nothing. */
  lemma TemporalSkipped(env: Env, t: Table)
    requires WellFormed(t) && !("data" in t.names && "horario" in t.names)
    ensures TemporalStep(env, t) == t
  {
  }

  /** Without both `data` and `horario`, no step writes `dia_semana`. */
  lemma WeekdayAbsent(env: Env, t: Table)
    requires WellFormed(t) && CreateDerived(env, t).failure.None? && "dia_semana" !in t.names
    requires !("data" in t.names && "horario" in t.names)
    ensures "dia_semana" !in CreateDerived(env, t).table.names
  {
    var s1, t2, t3, s4, t5, t7, s9, t10, t11 := Unfold(env, t);
    WeekdayAbsentAfterTemporal(env, t);
    AbsentAfterTemporal(t3, s4, t5, t7, s9, t10, t11, "dia_semana");
  }

  /** Steps 1 to 3 do not write `dia_semana` when `data` or `horario` is missing. */
  lemma WeekdayAbsentAfterTemporal(env: Env, t: Table)
    requires WellFormed(t) && "dia_semana" !in t.names && !("data" in t.names && "horario" in t.names)
    ensures "dia_semana" !in TemporalStep(env, RodoviaStep(env, FeridosStep(t).table)).names
  {
    var n := "dia_semana";
    var s1 := FeridosStep(t);
    NotAdded(t, s1.table, {"feridos"}, n);
    var t2 := RodoviaStep(env, s1.table);
    NotAdded(s1.table, t2, {"rodovia", "rodovia_numero"}, n);
    var missing := if "data" !in t.names then "data" else "horario";
    NotAdded(t, s1.table, {"feridos"}, missing);
    NotAdded(s1.table, t2, {"rodovia", "rodovia_numero"}, missing);
    TemporalSkipped(env, t2);
  }

  /** Steps 4 to 11 add no column but the ones they write. */
  lemma AbsentAfterTemporal(t3: Table, s4: Run, t5: Table, t7: Table, s9: Run, t10: Table, t11: Table, n: string)
    requires WellFormed(t3) && n !in t3.names
    requires s4 == PeriodoStep(t3) && t5 == PeriodoSemanaStep(s4.table) && t7 == StateSteps(t5)
    requires s9 == AgeSteps(t7) && t10 == GravidadeStep(s9.table) && t11 == UpsStep(t10)
    requires n !in {"periodo", "periodo_semana", "localidade", "regiao", "faixa_etaria_ano", "faixa_etaria_classe", "gravidade", "ups"}
    ensures n !in t11.names
  {
    NotAdded(t3, s4.table, {"periodo"}, n);
    NotAdded(s4.table, t5, {"periodo_semana"}, n);
    NotAdded(t5, t7, {"localidade", "regiao"}, n);
    NotAdded(t7, s9.table, {"faixa_etaria_ano", "faixa_etaria_classe"}, n);
    NotAdded(s9.table, t10, {"gravidade"}, n);
    NotAdded(t10, t11, {"ups"}, n);
  }

  /**
   * When the input has no `dia_semana` of its own, the stage's `dia_semana`,
   * if any, holds only weekday names and missing cells.
   */
  lemma WeekdayColumnHoldsNames(env: Env, t: Table)
    requires WellFormed(t) && CreateDerived(env, t).failure.None? && "dia_semana" !in t.names
    ensures var r := CreateDerived(env, t).table;
            "dia_semana" in r.names ==>
              forall i :: 0 <= i < t.height ==>
                Column(r, "dia_semana")[i].Null? ||
                exists w :: w in DiasSemana && Column(r, "dia_semana")[i] == Str(DiasSemana[w])
  {
    if "data" in t.names && "horario" in t.names {
      TimeColumnsAgree(env, t);
      var r := CreateDerived(env, t).table;
      forall i | 0 <= i < t.height
        ensures Column(r, "dia_semana")[i].Null? ||
                exists w :: w in DiasSemana && Column(r, "dia_semana")[i] == Str(DiasSemana[w])
      {
        var s := StampOf(env, Column(t, "data")[i], Column(t, "horario")[i]);
        assert Column(r, "dia_semana")[i] == WeekdayName(env, s);
      }
    } else {
      WeekdayAbsent(env, t);
    }
  }
}
