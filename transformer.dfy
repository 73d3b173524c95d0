/**
 * `SilverDataTransformer`: the nine stages as methods on a DataFrame. Stages
 * 1 to 7 change the frame they are given in place, stage 8 trims in place
 * and deduplicates into a new frame, stage 9 fills that new frame and
 * selects from it; `transform_data` runs them in order and records their
 * figures in the transformer's statistics collector.
 */
module Transformer {
  import opened Wrappers
  import opened Values
  import opened Tables
  import opened Schema
  import opened Stages
  import opened Derived
  import opened Finish
  import opened Stats
  import opened Pipeline

  class SilverDataTransformer {
    /** What the libraries, the locale and the clock's year contribute. */
    const env: Env
    /** The collector every stage reports to. */
    const stats: ETLStats

    /** A transformer with nothing recorded yet. */
    constructor (env: Env)
      ensures this.env == env && fresh(stats) && stats.stats == map[]
    {
      this.env := env;
      stats := new ETLStats();
    }

    /** The loop the stages share: `rule` on each listed column that exists, in list order. */
    method ApplyToEach(df: DataFrame, rule: ColumnRule, names: seq<string>)
      requires df.Valid()
      modifies df
      ensures df.Valid() && df.View() == ApplyToColumns(env, old(df.View()), rule, names)
    {
      ghost var t := df.View();
      for k := 0 to |names|
        invariant df.Valid() && df.View() == ApplyToColumns(env, t, rule, names[..k])
      {
        assert names[..k + 1][..k] == names[..k];
        if names[k] in df.names {
          df.Assign(names[k], ApplyRule(env, rule, Column(df.View(), names[k])));
        }
      }
      assert names[..|names|] == names;
    }

    /** Stage 1, `remove_irrelevant_columns`: the listed columns that exist are dropped in place. */
    method RemoveIrrelevantColumns(df: DataFrame)
      requires df.Valid()
      modifies df
      ensures df.Valid() && df.View() == RemoveIrrelevant(old(df.View()))
    {
      df.Drop(Irrelevant);
    }

    /** Stage 2, `normalize_strings`: every column, then the column count is recorded. */
    method NormalizeStringColumns(df: DataFrame)
      requires df.Valid()
      modifies df, stats
      ensures df.Valid() && df.View() == NormalizeStrings(env, old(df.View()))
      ensures stats.stats == old(stats.stats)["colunas_normalizadas" := Count(|df.names|)]
    {
      ApplyToEach(df, Normalize, df.names);
      stats.AddStat("colunas_normalizadas", Count(|df.names|));
    }

    /** Stage 3, `convert_data_types`: integers, floats, texts, then the date and the time. */
    method ConvertColumnTypes(df: DataFrame)
      requires df.Valid()
      modifies df
      ensures df.Valid() && df.View() == ConvertDataTypes(env, old(df.View()))
    {
      ApplyToEach(df, ToInt64, IntColumns);
      ApplyToEach(df, ToFloat64, FloatColumns);
      ApplyToEach(df, ToText, StrColumns);
      if "data_inversa" in df.names {
        df.Assign("data_inversa", ApplyRule(env, ToDate, Column(df.View(), "data_inversa")));
      }
      if "horario" in df.names {
        df.Assign("horario", ApplyRule(env, ToTime, Column(df.View(), "horario")));
      }
    }

    /** Stage 4, `rename_columns`: the labels of the map that exist are renamed in place. */
    method RenameColumns(df: DataFrame)
      requires df.Valid() && RenameSafe(df.names)
      modifies df
      ensures df.Valid() && df.View() == RenameStage(old(df.View()))
    {
      df.Rename(RenameMap);
    }

    /** Stage 5, `apply_de_para_transformations`: land use, then weather. */
    method ApplyDePara(df: DataFrame)
      requires df.Valid()
      modifies df
      ensures df.Valid() && df.View() == DePara(env, old(df.View()))
    {
      if "uso_solo" in df.names {
        df.Assign("uso_solo", ApplyRule(env, LandUse, Column(df.View(), "uso_solo")));
      }
      if "condicao_meteorologica" in df.names {
        df.Assign("condicao_meteorologica", ApplyRule(env, Weather, Column(df.View(), "condicao_meteorologica")));
      }
    }

    // ---- Stage 6, one method per assignment group --------------------------------------

    /** `df["feridos"] = ...` when both injury columns exist and the casts succeed. */
    method AddInjuries(df: DataFrame) returns (failure: Option<Failure>)
      requires df.Valid()
      modifies df
      ensures df.Valid() && df.View() == FeridosStep(old(df.View())).table
      ensures failure == FeridosStep(old(df.View())).failure
    {
      var next := FeridosStep(df.View());
      failure := next.failure;
      if failure.None? && "feridos_leves" in df.names && "feridos_graves" in df.names {
        df.Assign("feridos", Column(next.table, "feridos"));
      }
    }

    /** `df["rodovia"]`, then `df["rodovia_numero"]` from it. */
    method AddRoute(df: DataFrame)
      requires df.Valid()
      modifies df
      ensures df.Valid() && df.View() == RodoviaStep(env, old(df.View()))
    {
      var next := RodoviaStep(env, df.View());
      if "rodovia" in df.names {
        df.Assign("rodovia", Column(next, "rodovia"));
        df.Assign("rodovia_numero", Column(next, "rodovia_numero"));
      }
    }

    /** `data_hora`, `dia_semana`, `data`, `ano` and `hora`, in that order. */
    method AddTemporal(df: DataFrame)
      requires df.Valid()
      modifies df
      ensures df.Valid() && df.View() == TemporalStep(env, old(df.View()))
    {
      if "data" in df.names && "horario" in df.names {
        var stamps := Stamps(env, df.View());
        df.Assign("data_hora", StampCells(stamps));
        df.Assign("dia_semana", WeekdayCells(env, stamps));
        df.Assign("data", DayCells(stamps));
        df.Assign("ano", YearCells(stamps));
        df.Assign("hora", HourCells(stamps));
      }
    }

    /** `df["periodo"]` from `hora`; raises on an hour `int()` refuses. */
    method AddDayPeriod(df: DataFrame) returns (failure: Option<Failure>)
      requires df.Valid()
      modifies df
      ensures df.Valid() && df.View() == PeriodoStep(old(df.View())).table
      ensures failure == PeriodoStep(old(df.View())).failure
    {
      var next := PeriodoStep(df.View());
      failure := next.failure;
      if failure.None? && "hora" in df.names {
        df.Assign("periodo", Column(next.table, "periodo"));
      }
    }

    /** `df["periodo_semana"]` from `dia_semana`. */
    method AddWeekPeriod(df: DataFrame)
      requires df.Valid()
      modifies df
      ensures df.Valid() && df.View() == PeriodoSemanaStep(old(df.View()))
    {
      var next := PeriodoSemanaStep(df.View());
      if "dia_semana" in df.names {
        df.Assign("periodo_semana", Column(next, "periodo_semana"));
      }
    }

    /** `df["localidade"]`, then `df["regiao"]`, from `uf`. */
    method AddStateColumns(df: DataFrame)
      requires df.Valid()
      modifies df
      ensures df.Valid() && df.View() == StateSteps(old(df.View()))
    {
      var next := StateSteps(df.View());
      if "uf" in df.names {
        df.Assign("localidade", Column(next, "localidade"));
        df.Assign("regiao", Column(next, "regiao"));
      }
    }

    /** The two age buckets; raises on an age `int()` refuses. */
    method AddAgeBands(df: DataFrame) returns (failure: Option<Failure>)
      requires df.Valid()
      modifies df
      ensures df.Valid() && df.View() == AgeSteps(old(df.View())).table
      ensures failure == AgeSteps(old(df.View())).failure
    {
      var next := AgeSteps(df.View());
      failure := next.failure;
      if failure.None? && "envolvido_idade" in df.names {
        df.Assign("faixa_etaria_ano", Column(next.table, "faixa_etaria_ano"));
        df.Assign("faixa_etaria_classe", Column(next.table, "faixa_etaria_classe"));
      }
    }

    /** `df["gravidade"]` from the death and injury counts. */
    method AddSeverity(df: DataFrame)
      requires df.Valid()
      modifies df
      ensures df.Valid() && df.View() == GravidadeStep(old(df.View()))
    {
      var next := GravidadeStep(df.View());
      if "mortos" in df.names && "feridos" in df.names {
        df.Assign("gravidade", Column(next, "gravidade"));
      }
    }

    /** `df["ups"]` from the counts and the accident type. */
    method AddScore(df: DataFrame)
      requires df.Valid()
      modifies df
      ensures df.Valid() && df.View() == UpsStep(old(df.View()))
    {
      var next := UpsStep(df.View());
      if "mortos" in df.names && "feridos" in df.names && "sinistro_tipo" in df.names {
        df.Assign("ups", Column(next, "ups"));
      }
    }

    /**
     * Stage 6, `create_derived_columns`: the steps in order; the first that
     * raises ends the stage, with the columns written before it kept.
     */
    method CreateDerivedColumns(df: DataFrame) returns (failure: Option<Failure>)
      requires df.Valid()
      modifies df
      ensures df.Valid() && df.View() == CreateDerived(env, old(df.View())).table
      ensures failure == CreateDerived(env, old(df.View())).failure
    {
      failure := AddInjuries(df);
      if failure.Some? {
        return;
      }
      AddRoute(df);
      AddTemporal(df);
      failure := AddDayPeriod(df);
      if failure.Some? {
        return;
      }
      AddWeekPeriod(df);
      AddStateColumns(df);
      failure := AddAgeBands(df);
      if failure.Some? {
        return;
      }
      AddSeverity(df);
      AddScore(df);
    }

    /** One outlier rule: the selected cells of `name` become missing. */
    method ScrubColumn(df: DataFrame, name: string, bad: real -> bool) returns (failure: Option<Failure>)
      requires df.Valid()
      modifies df
      ensures df.Valid() && df.View() == ScrubStep(old(df.View()), name, bad).table
      ensures failure == ScrubStep(old(df.View()), name, bad).failure
    {
      failure := None;
      if name in df.names {
        var c := Column(df.View(), name);
        var mask := Mask(c, bad);
        if mask.None? {
          failure := Some(Failure(name));
        } else {
          df.Assign(name, NullWhere(c, mask.value));
        }
      }
    }

    /** Stage 7, `treat_outliers`: ages, then manufacturing years. */
    method TreatOutlierColumns(df: DataFrame) returns (failure: Option<Failure>)
      requires df.Valid()
      modifies df
      ensures df.Valid() && df.View() == TreatOutliers(env, old(df.View())).table
      ensures failure == TreatOutliers(env, old(df.View())).failure
    {
      failure := ScrubColumn(df, "envolvido_idade", AgeOutlier);
      if failure.Some? {
        return;
      }
      failure := ScrubColumn(df, "veiculo_ano_fabricacao", YearRule(env.currentYear));
    }

    /**
     * Stage 8, `clean_and_normalize_final`: the trims change the given frame;
     * `drop_duplicates` returns a new one.
     */
    method CleanAndNormalizeFinal(df: DataFrame) returns (d: DataFrame)
      requires df.Valid()
      modifies df
      ensures df.Valid() && df.View() == FinalTrim(env, old(df.View()))
      ensures fresh(d) && d.Valid() && d.View() == CleanFinal(env, old(df.View()))
    {
      ApplyToEach(df, TrimText, TrimColumns);
      ApplyToEach(df, Informed, DefaultColumns);
      d := df.DropDuplicates();
    }

    /**
     * Stage 9, `prepare_final_columns`: each missing output column is added
     * to the given frame; the selection is a new frame.
     */
    method PrepareFinalColumns(df: DataFrame) returns (d: DataFrame)
      requires df.Valid()
      modifies df
      ensures df.Valid() && df.View() == AddMissing(old(df.View()), RequiredColumns)
      ensures fresh(d) && d.Valid() && d.View() == Projection(old(df.View()))
    {
      AddEachMissing(df, RequiredColumns);
      RequiredColumnsDistinct();
      d := df.Select(RequiredColumns);
    }

    /** The loop of stage 9: each listed column the frame lacks is added, all missing. */
    method AddEachMissing(df: DataFrame, names: seq<string>)
      requires df.Valid()
      modifies df
      ensures df.Valid() && df.View() == AddMissing(old(df.View()), names)
    {
      ghost var t := df.View();
      for k := 0 to |names|
        invariant df.Valid() && df.View() == AddMissing(t, names[..k])
      {
        assert names[..k + 1][..k] == names[..k];
        if names[k] !in df.names {
          df.Assign(names[k], Nulls(df.height));
        }
      }
      assert names[..|names|] == names;
    }

    /**
     * `transform_data`: the nine stages in order, each stage's shape recorded
     * after it, then the final figures. An exception from a stage ends the
     * run with the figures recorded so far, and the given frame as the
     * in-place stages left it.
     */
    method TransformData(df: DataFrame, seconds: real) returns (result: Result<DataFrame, Failure>)
      requires df.Valid() && Admissible(df.View())
      modifies df, stats
      ensures var o := Transform(env, old(df.View()));
              && df.Valid() && df.View() == o.caller
              && stats.stats == Recorded(old(stats.stats), Entries(old(df.View()), o, seconds))
              && (result.Ok? <==> o.result.Ok?)
              && (result.Ok? ==> fresh(result.value) && result.value.Valid() && result.value.View() == o.result.value)
              && (result.Err? ==> result.error == o.result.error)
    {
      var original := df.View();
      ghost var m := stats.stats;
      ghost var early := EarlyStages(df);
      TransformIsLateRun(env, original, early);
      result := LateStages(df, seconds, original, m, early);
    }

    /** Stages 6 to 9 and the final figures, after the first five stages produced `early`. */
    method LateStages(df: DataFrame, seconds: real, original: Table, ghost m: map<string, Stat>, ghost early: seq<Table>)
      returns (result: Result<DataFrame, Failure>)
      requires df.Valid() && |early| == 5 && df.View() == early[4]
      requires stats.stats == Recorded(m, StageEntries(early))
      modifies df, stats
      ensures var o := LateRun(env, early);
              && df.Valid() && df.View() == o.caller
              && stats.stats == Recorded(m, Entries(original, o, seconds))
              && (result.Ok? <==> o.result.Ok?)
              && (result.Ok? ==> fresh(result.value) && result.value.Valid() && result.value.View() == o.result.value)
              && (result.Err? ==> result.error == o.result.error)
    {
      var failure := CreateDerivedColumns(df);
      if failure.Some? {
        FailedEntries(original, LateRun(env, early), seconds);
        return Err(failure.value);
      }
      var t6 := df.View();
      RecordShape(5, t6, m, early);
      result := AfterDerived(df, seconds, original, m, early + [t6]);
    }

    /** Stages 7 to 9 and the final figures, after the sixth stage produced `snapshots[5]`. */
    method AfterDerived(df: DataFrame, seconds: real, original: Table, ghost m: map<string, Stat>, ghost snapshots: seq<Table>)
      returns (result: Result<DataFrame, Failure>)
      requires df.Valid() && |snapshots| == 6 && df.View() == snapshots[5]
      requires stats.stats == Recorded(m, StageEntries(snapshots))
      modifies df, stats
      ensures var o := OutlierRun(env, snapshots);
              && df.Valid() && df.View() == o.caller
              && stats.stats == Recorded(m, Entries(original, o, seconds))
              && (result.Ok? <==> o.result.Ok?)
              && (result.Ok? ==> fresh(result.value) && result.value.Valid() && result.value.View() == o.result.value)
              && (result.Err? ==> result.error == o.result.error)
    {
      var failure := TreatOutlierColumns(df);
      if failure.Some? {
        FailedEntries(original, OutlierRun(env, snapshots), seconds);
        return Err(failure.value);
      }
      var t7 := df.View();
      RecordShape(6, t7, m, snapshots);
      var out := FinishRun(df, seconds, original, m, snapshots + [t7]);
      result := Ok(out);
    }

    /** Stages 8 and 9 and the final figures, after the seventh stage produced `snapshots[6]`. */
    method FinishRun(df: DataFrame, seconds: real, original: Table, ghost m: map<string, Stat>, ghost snapshots: seq<Table>)
      returns (out: DataFrame)
      requires df.Valid() && |snapshots| == 7 && df.View() == snapshots[6]
      requires stats.stats == Recorded(m, StageEntries(snapshots))
      modifies df, stats
      ensures var o := FinalRun(env, snapshots);
              && df.Valid() && df.View() == o.caller
              && fresh(out) && out.Valid() && out.View() == o.result.value
              && stats.stats == Recorded(m, Entries(original, o, seconds))
    {
      ghost var o := FinalRun(env, snapshots);
      out := FinalStages(df, m, snapshots);
      ghost var staged := stats.stats;
      ghost var caller := df.View();
      var final := out.View();
      RecordFinal(original, final, seconds);
      assert df.View() == caller && out.View() == final;
      assert stats.stats == Recorded(staged, FinalEntries(original, o.result.value, seconds));
      FinishedRecords(m, original, o, seconds);
    }

    /** Stages 8 and 9, each followed by its shape, after the seventh stage produced `snapshots[6]`. */
    method FinalStages(df: DataFrame, ghost m: map<string, Stat>, ghost snapshots: seq<Table>) returns (out: DataFrame)
      requires df.Valid() && |snapshots| == 7 && df.View() == snapshots[6]
      requires stats.stats == Recorded(m, StageEntries(snapshots))
      modifies df, stats
      ensures var o := FinalRun(env, snapshots);
              && df.Valid() && df.View() == o.caller
              && fresh(out) && out.Valid() && out.View() == o.result.value
              && stats.stats == Recorded(m, StageEntries(o.snapshots))
    {
      var cleaned := CleanStage(df, m, snapshots);
      out := ProjectStage(cleaned, m, snapshots + [cleaned.View()]);
    }

    /** Stage 8, then its shape. */
    method CleanStage(df: DataFrame, ghost m: map<string, Stat>, ghost snapshots: seq<Table>) returns (cleaned: DataFrame)
      requires df.Valid() && |snapshots| == 7 && df.View() == snapshots[6]
      requires stats.stats == Recorded(m, StageEntries(snapshots))
      modifies df, stats
      ensures df.Valid() && df.View() == FinalTrim(env, snapshots[6])
      ensures fresh(cleaned) && cleaned.Valid() && cleaned.View() == CleanFinal(env, snapshots[6])
      ensures stats.stats == Recorded(m, StageEntries(snapshots + [cleaned.View()]))
    {
      cleaned := CleanAndNormalizeFinal(df);
      RecordShape(7, cleaned.View(), m, snapshots);
    }

    /** Stage 9, then its shape. */
    method ProjectStage(cleaned: DataFrame, ghost m: map<string, Stat>, ghost snapshots: seq<Table>) returns (out: DataFrame)
      requires cleaned.Valid() && |snapshots| == 8 && cleaned.View() == snapshots[7]
      requires stats.stats == Recorded(m, StageEntries(snapshots))
      modifies cleaned, stats
      ensures fresh(out) && out.Valid() && out.View() == Projection(snapshots[7])
      ensures cleaned.Valid() && cleaned.View() == AddMissing(snapshots[7], RequiredColumns)
      ensures stats.stats == Recorded(m, StageEntries(snapshots + [out.View()]))
    {
      out := PrepareFinalColumns(cleaned);
      RecordShape(8, out.View(), m, snapshots);
    }

    /** Stages 1 to 5, none of which can raise, each followed by its shape. */
    method EarlyStages(df: DataFrame) returns (ghost snapshots: seq<Table>)
      requires df.Valid() && Admissible(df.View())
      modifies df, stats
      ensures |snapshots| == 5
      ensures stats.stats == Recorded(old(stats.stats), StageEntries(snapshots))
      ensures df.Valid() && df.View() == snapshots[4]
      ensures snapshots[0] == RemoveIrrelevant(old(df.View()))
      ensures snapshots[1] == NormalizeStrings(env, snapshots[0])
      ensures snapshots[2] == ConvertDataTypes(env, snapshots[1])
      ensures RenameSafe(snapshots[2].names) && snapshots[3] == RenameStage(snapshots[2])
      ensures snapshots[4] == DePara(env, snapshots[3])
    {
      ghost var m := stats.stats;
      ghost var t1 := RemoveIrrelevant(df.View());
      ghost var t2 := NormalizeStrings(env, t1);
      ghost var t3 := ConvertDataTypes(env, t2);
      ghost var t4 := RenameStage(t3);
      ghost var t5 := DePara(env, t4);
      snapshots := [];
      assert stats.stats == Recorded(m, StageEntries(snapshots));

      RemoveIrrelevantColumns(df);
      assert df.View() == t1;
      RecordShape(0, df.View(), m, snapshots);
      snapshots := snapshots + [df.View()];

      NormalizeStringColumns(df);
      assert df.View() == t2;
      RecordSecondShape(df.View(), m, snapshots);
      snapshots := snapshots + [df.View()];

      ConvertColumnTypes(df);
      assert df.View() == t3;
      RecordShape(2, df.View(), m, snapshots);
      snapshots := snapshots + [df.View()];

      RenameColumns(df);
      assert df.View() == t4;
      RecordShape(3, df.View(), m, snapshots);
      snapshots := snapshots + [df.View()];

      ApplyDePara(df);
      assert df.View() == t5;
      RecordShape(4, df.View(), m, snapshots);
      snapshots := snapshots + [df.View()];
    }

    /** `add_stat` of a finished stage's shape, with the stages so far as a ghost account. */
    method RecordShape(stage: nat, x: Table, ghost m: map<string, Stat>, ghost snapshots: seq<Table>)
      requires stage == |snapshots| && stage < 9 && stage != 1
      requires stats.stats == Recorded(m, StageEntries(snapshots))
      modifies stats
      ensures stats.stats == Recorded(m, StageEntries(snapshots + [x]))
    {
      RecordStage(m, snapshots, x);
      stats.AddStat(StageKeys[stage], ShapeOf(x));
    }

    /** The same for the second stage, whose column count is already recorded. */
    method RecordSecondShape(x: Table, ghost m: map<string, Stat>, ghost snapshots: seq<Table>)
      requires |snapshots| == 1
      requires stats.stats == Recorded(m, StageEntries(snapshots))["colunas_normalizadas" := Count(|x.names|)]
      modifies stats
      ensures stats.stats == Recorded(m, StageEntries(snapshots + [x]))
    {
      RecordSecondStage(m, snapshots, x);
      stats.AddStat(StageKeys[1], ShapeOf(x));
    }

    /** The final figures of a run that finished, in `transform_data`'s order. */
    method RecordFinal(original: Table, final: Table, seconds: real)
      requires WellFormed(final)
      modifies stats
      ensures stats.stats == Recorded(old(stats.stats), FinalEntries(original, final, seconds))
    {
      ghost var m := stats.stats;
      RecordCounts(original, final, seconds);
      RecordUniques(final);
      RecordedAppend(m, CountEntries(original, final, seconds), UniqueEntries(final));
    }

    /** The duration, then the row and column counts before and after. */
    method RecordCounts(original: Table, final: Table, seconds: real)
      modifies stats
      ensures stats.stats == Recorded(old(stats.stats), CountEntries(original, final, seconds))
    {
      RecordedCounts(stats.stats, original, final, seconds);
      stats.AddStat("duracao_segundos", Seconds(seconds));
      stats.AddStat("registros_originais", Count(original.height));
      stats.AddStat("registros_finais", Count(final.height));
      stats.AddStat("colunas_originais", Count(|original.names|));
      stats.AddStat("colunas_finais", Count(|final.names|));
    }

    /** The distinct accident, person and vehicle ids, for each id column the output has. */
    method RecordUniques(final: Table)
      requires WellFormed(final)
      modifies stats
      ensures stats.stats == Recorded(old(stats.stats), UniqueEntries(final))
    {
      ghost var m := stats.stats;
      var people := UniqueEntry(final, "id_envolvido", "pessoas_envolvidas");
      var vehicles := UniqueEntry(final, "veiculo_id", "veiculos_envolvidos");
      RecordUnique(final, "sinistro_id", "sinistros_unicos");
      ghost var m1 := stats.stats;
      RecordUnique(final, "id_envolvido", "pessoas_envolvidas");
      RecordUnique(final, "veiculo_id", "veiculos_envolvidos");
      RecordedAppend(m1, people, vehicles);
      RecordedAppend(m, UniqueEntry(final, "sinistro_id", "sinistros_unicos"), people + vehicles);
      assert UniqueEntries(final) == UniqueEntry(final, "sinistro_id", "sinistros_unicos") + (people + vehicles);
    }

    /** `add_stat(key, nunique)` when the output has the id column. */
    method RecordUnique(final: Table, column: string, key: string)
      requires WellFormed(final)
      modifies stats
      ensures stats.stats == Recorded(old(stats.stats), UniqueEntry(final, column, key))
    {
      if column in final.names {
        var n := NUnique(Column(final, column));
        RecordedSnoc(stats.stats, [], key, Count(n));
        stats.AddStat(key, Count(n));
      }
    }
  }
}
