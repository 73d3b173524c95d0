/**
 * `transform_data`: the nine stages in order, and the statistics it records
 * after each of them and at the end.
 */
module Pipeline {
  import opened Wrappers
  import opened Values
  import opened Tables
  import opened Schema
  import opened Stages
  import opened Derived
  import opened Finish
  import opened Stats
  import opened Rules

  /**
   * What a run leaves behind: the table after each stage that finished, the
   * caller's frame as the in-place stages left it, and either the output
   * table or the exception that escaped.
   */
  datatype Outcome = Outcome(snapshots: seq<Table>, caller: Table, result: Result<Table, Failure>)

  /** What the input must satisfy: a well-formed table whose kept labels stay distinct under the rename map. */
  predicate Admissible(t: Table) {
    WellFormed(t) && RenameSafe(Kept(t.names, Irrelevant))
  }

  /**
   * The whole transformation. Stages 1 to 7 change the caller's frame in
   * place; stage 8 deduplicates into a new frame and stage 9 projects that
   * one, so the caller keeps the trimmed frame.
   */
  function Transform(env: Env, t: Table): (o: Outcome)
    requires Admissible(t)
    ensures |o.snapshots| in {5, 6, 9} && (o.result.Ok? <==> |o.snapshots| == 9)
    ensures WellFormed(o.caller)
    ensures o.result.Ok? ==>
              && WellFormed(o.result.value)
              && o.result.value.names == RequiredColumns && o.result.value.height <= t.height
              && o.snapshots[8] == o.result.value
    ensures o.result.Err? ==>
              o.result.error.column in RaisingColumns + {"envolvido_idade", "veiculo_ano_fabricacao"}
  {
    var t1 := RemoveIrrelevant(t);
    var t2 := NormalizeStrings(env, t1);
    var t3 := ConvertDataTypes(env, t2);
    var t4 := RenameStage(t3);
    var t5 := DePara(env, t4);
    LateRun(env, [t1, t2, t3, t4, t5])
  }

  /**
   * Stages 6 to 9, the ones that can raise, after the first five stages
   * produced the tables `early`.
   */
  function LateRun(env: Env, early: seq<Table>): (o: Outcome)
    requires |early| == 5 && WellFormed(early[4])
    ensures |o.snapshots| in {5, 6, 9} && (o.result.Ok? <==> |o.snapshots| == 9)
    ensures WellFormed(o.caller)
    ensures o.result.Ok? ==>
              && WellFormed(o.result.value)
              && o.result.value.names == RequiredColumns && o.result.value.height <= early[4].height
              && o.snapshots[8] == o.result.value
    ensures o.result.Err? ==>
              o.result.error.column in RaisingColumns + {"envolvido_idade", "veiculo_ano_fabricacao"}
  {
    var s6 := CreateDerived(env, early[4]);
    if s6.failure.Some? then Outcome(early, s6.table, Err(s6.failure.value))
    else OutlierRun(env, early + [s6.table])
  }

  /** Stages 7 to 9, after the sixth stage produced `snapshots[5]`. */
  function OutlierRun(env: Env, snapshots: seq<Table>): (o: Outcome)
    requires |snapshots| == 6 && WellFormed(snapshots[5])
    ensures |o.snapshots| in {6, 9} && (o.result.Ok? <==> |o.snapshots| == 9)
    ensures WellFormed(o.caller)
    ensures o.result.Ok? ==>
              && WellFormed(o.result.value)
              && o.result.value.names == RequiredColumns && o.result.value.height <= snapshots[5].height
              && o.snapshots[8] == o.result.value
    ensures o.result.Err? ==> o.result.error.column in {"envolvido_idade", "veiculo_ano_fabricacao"}
  {
    var s7 := TreatOutliers(env, snapshots[5]);
    if s7.failure.Some? then Outcome(snapshots, s7.table, Err(s7.failure.value))
    else FinalRun(env, snapshots + [s7.table])
  }

  /** Stages 8 and 9, which cannot raise, after the seventh stage produced `snapshots[6]`. */
  function FinalRun(env: Env, snapshots: seq<Table>): (o: Outcome)
    requires |snapshots| == 7 && WellFormed(snapshots[6])
    ensures |o.snapshots| == 9 && o.result.Ok?
    ensures WellFormed(o.caller) && WellFormed(o.result.value)
    ensures o.result.value.names == RequiredColumns && o.result.value.height <= snapshots[6].height
    ensures o.snapshots[8] == o.result.value
  {
    var t8 := CleanFinal(env, snapshots[6]);
    var t9 := Projection(t8);
    Outcome(snapshots + [t8] + [t9], FinalTrim(env, snapshots[6]), Ok(t9))
  }

  // ---- Recorded statistics ------------------------------------------------------

  /** The key of the shape recorded after each stage. */
  const StageKeys: seq<string> :=
    ["apos_remocao_colunas", "apos_normalizacao", "apos_conversao_tipos", "apos_renomeacao", "apos_de_para",
     "apos_colunas_derivadas", "apos_outliers", "apos_limpeza_final", "shape_final"]

  function ShapeOf(t: Table): Stat {
    Shape(t.height, |t.names|)
  }

  /**
   * The entries recorded while the stages run: each finished stage's shape,
   * and the column count the second stage records before its own shape.
   */
  function StageEntries(snapshots: seq<Table>): (e: seq<(string, Stat)>)
    requires |snapshots| <= 9
    ensures |e| == |snapshots| + (if |snapshots| >= 2 then 1 else 0)
  {
    if snapshots == [] then []
    else
      var k := |snapshots| - 1;
      StageEntries(snapshots[..k]) +
      (if k == 1 then [("colunas_normalizadas", Count(|snapshots[1].names|))] else []) +
      [(StageKeys[k], ShapeOf(snapshots[k]))]
  }

  /** One more finished stage adds its shape (after the column count, for the second). */
  lemma StageEntriesSnoc(snapshots: seq<Table>, x: Table)
    requires |snapshots| < 9
    ensures StageEntries(snapshots + [x]) ==
              StageEntries(snapshots) +
              (if |snapshots| == 1 then [("colunas_normalizadas", Count(|x.names|))] else []) +
              [(StageKeys[|snapshots|], ShapeOf(x))]
  {
    var y := snapshots + [x];
    var k := |snapshots|;
    assert y[..k] == snapshots && y[k] == x && |y| - 1 == k;
    assert StageEntries(y) ==
             StageEntries(y[..k]) +
             (if k == 1 then [("colunas_normalizadas", Count(|y[1].names|))] else []) +
             [(StageKeys[k], ShapeOf(y[k]))];
  }

  /** Recording a stage that is not the second is one `add_stat` of its shape. */
  lemma RecordStage(m: map<string, Stat>, snapshots: seq<Table>, x: Table)
    requires |snapshots| < 9 && |snapshots| != 1
    ensures Recorded(m, StageEntries(snapshots + [x])) == Recorded(m, StageEntries(snapshots))[StageKeys[|snapshots|] := ShapeOf(x)]
  {
    StageEntriesSnoc(snapshots, x);
    assert StageEntries(snapshots + [x]) == StageEntries(snapshots) + [(StageKeys[|snapshots|], ShapeOf(x))];
    RecordedSnoc(m, StageEntries(snapshots), StageKeys[|snapshots|], ShapeOf(x));
  }

  /** Recording the second stage is its column count, then its shape. */
  lemma RecordSecondStage(m: map<string, Stat>, snapshots: seq<Table>, x: Table)
    requires |snapshots| == 1
    ensures Recorded(m, StageEntries(snapshots + [x])) ==
              Recorded(m, StageEntries(snapshots))["colunas_normalizadas" := Count(|x.names|)][StageKeys[1] := ShapeOf(x)]
  {
    var e := StageEntries(snapshots);
    var c := ("colunas_normalizadas", Count(|x.names|));
    StageEntriesSnoc(snapshots, x);
    assert StageEntries(snapshots + [x]) == (e + [c]) + [(StageKeys[1], ShapeOf(x))];
    RecordedSnoc(m, e, c.0, c.1);
    RecordedSnoc(m, e + [c], StageKeys[1], ShapeOf(x));
  }

  /** The three distinct-value counts, each recorded when its column exists. */
  function UniqueEntries(out: Table): seq<(string, Stat)>
    requires WellFormed(out)
  {
    UniqueEntry(out, "sinistro_id", "sinistros_unicos") +
    UniqueEntry(out, "id_envolvido", "pessoas_envolvidas") +
    UniqueEntry(out, "veiculo_id", "veiculos_envolvidos")
  }

  /** `nunique()` of an id column, recorded under `key` when the output has that column. */
  function UniqueEntry(out: Table, column: string, key: string): seq<(string, Stat)>
    requires WellFormed(out)
  {
    if column in out.names then [(key, Count(NUnique(Column(out, column))))] else []
  }

  /** The entries recorded after the last stage; `seconds` is the rounded duration. */
  function CountEntries(t: Table, out: Table, seconds: real): seq<(string, Stat)> {
    [("duracao_segundos", Seconds(seconds)),
     ("registros_originais", Count(t.height)),
     ("registros_finais", Count(out.height)),
     ("colunas_originais", Count(|t.names|)),
     ("colunas_finais", Count(|out.names|))]
  }

  /** The counts, recorded, are five `add_stat` calls in order. */
  lemma RecordedCounts(m: map<string, Stat>, t: Table, out: Table, seconds: real)
    ensures Recorded(m, CountEntries(t, out, seconds)) ==
              m["duracao_segundos" := Seconds(seconds)]["registros_originais" := Count(t.height)]
               ["registros_finais" := Count(out.height)]["colunas_originais" := Count(|t.names|)]
               ["colunas_finais" := Count(|out.names|)]
  {
    var e := CountEntries(t, out, seconds);
    assert e[..0] == [];
    RecordedPrefix(m, e, 0);
    RecordedPrefix(m, e, 1);
    RecordedPrefix(m, e, 2);
    RecordedPrefix(m, e, 3);
    RecordedPrefix(m, e, 4);
    assert e[..5] == e;
  }

  function FinalEntries(t: Table, out: Table, seconds: real): seq<(string, Stat)>
    requires WellFormed(out)
  {
    CountEntries(t, out, seconds) + UniqueEntries(out)
  }

  /** Everything a run records, in order. */
  function Entries(t: Table, o: Outcome, seconds: real): seq<(string, Stat)>
    requires |o.snapshots| <= 9
    requires o.result.Ok? ==> WellFormed(o.result.value)
  {
    StageEntries(o.snapshots) + (if o.result.Ok? then FinalEntries(t, o.result.value, seconds) else [])
  }

  /** A run that raised records only the stages' entries. */
  lemma FailedEntries(t: Table, o: Outcome, seconds: real)
    requires |o.snapshots| <= 9 && o.result.Err?
    ensures Entries(t, o, seconds) == StageEntries(o.snapshots)
  {
    assert StageEntries(o.snapshots) + [] == StageEntries(o.snapshots);
  }

  /** A run that finished records the stages' entries, then the final figures. */
  lemma FinishedEntries(t: Table, o: Outcome, seconds: real)
    requires |o.snapshots| <= 9 && o.result.Ok? && WellFormed(o.result.value)
    ensures Entries(t, o, seconds) == StageEntries(o.snapshots) + FinalEntries(t, o.result.value, seconds)
  {
  }

  // ---- Properties of a run --------------------------------------------------------

  /** The tables a successful run passes through, named. */
  lemma UnfoldTransform(env: Env, t: Table) returns (t5: Table, t7: Table, out: Table)
    requires Admissible(t) && Transform(env, t).result.Ok?
    ensures t5 == DePara(env, RenameStage(ConvertDataTypes(env, NormalizeStrings(env, RemoveIrrelevant(t)))))
    ensures CreateDerived(env, t5).failure.None?
    ensures t7 == TreatOutliers(env, CreateDerived(env, t5).table).table
    ensures TreatOutliers(env, CreateDerived(env, t5).table).failure.None?
    ensures out == Transform(env, t).result.value && out == Projection(CleanFinal(env, t7))
    ensures Transform(env, t).caller == FinalTrim(env, t7)
  {
    var t1 := RemoveIrrelevant(t);
    var t2 := NormalizeStrings(env, t1);
    var t3 := ConvertDataTypes(env, t2);
    var t4 := RenameStage(t3);
    t5 := DePara(env, t4);
    var early := [t1, t2, t3, t4, t5];
    assert Transform(env, t) == LateRun(env, early);
    var t6 := CreateDerived(env, t5).table;
    assert LateRun(env, early) == OutlierRun(env, early + [t6]);
    t7 := TreatOutliers(env, t6).table;
    assert OutlierRun(env, early + [t6]) == FinalRun(env, early + [t6] + [t7]);
    out := Transform(env, t).result.value;
  }

  /** `early` holds the tables the first five stages produce from `t`. */
  predicate EarlyRun(env: Env, t: Table, early: seq<Table>) {
    && Admissible(t) && |early| == 5
    && early[0] == RemoveIrrelevant(t)
    && early[1] == NormalizeStrings(env, early[0])
    && early[2] == ConvertDataTypes(env, early[1])
    && RenameSafe(early[2].names) && early[3] == RenameStage(early[2])
    && early[4] == DePara(env, early[3])
  }

  /** After the first five stages, the run is the late run from their tables. */
  lemma TransformIsLateRun(env: Env, t: Table, early: seq<Table>)
    requires EarlyRun(env, t, early)
    ensures Transform(env, t) == LateRun(env, early)
  {
    FiveSnapshots(early);
  }

  /** A run that finished records the stages' entries, then the final figures on top. */
  lemma FinishedRecords(m: map<string, Stat>, t: Table, o: Outcome, seconds: real)
    requires |o.snapshots| <= 9 && o.result.Ok? && WellFormed(o.result.value)
    ensures Recorded(m, Entries(t, o, seconds)) ==
              Recorded(Recorded(m, StageEntries(o.snapshots)), FinalEntries(t, o.result.value, seconds))
  {
    FinishedEntries(t, o, seconds);
    RecordedAppend(m, StageEntries(o.snapshots), FinalEntries(t, o.result.value, seconds));
  }

  lemma FiveSnapshots(early: seq<Table>)
    requires |early| == 5
    ensures early == [early[0], early[1], early[2], early[3], early[4]]
  {
  }

  /** A column the first four stages keep under a new label `dst`. */
  lemma ReachesStage5(env: Env, t: Table, src: string, dst: string)
    requires Admissible(t) && src in t.names && src !in Irrelevant && src in RenameMap && RenameMap[src] == dst
    ensures dst in DePara(env, RenameStage(ConvertDataTypes(env, NormalizeStrings(env, RemoveIrrelevant(t))))).names
  {
    var t3 := ConvertDataTypes(env, NormalizeStrings(env, RemoveIrrelevant(t)));
    assert src in t3.names;
    var k := IndexOf(t3.names, src);
    assert Renamed(t3.names, RenameMap)[k] == dst;
  }

  /**
   * When the input has a cause or a type of accident, every row of the
   * output holds non-empty text under its new label.
   */
  lemma KeyColumnsInformed(env: Env, t: Table, src: string, dst: string)
    requires Admissible(t) && Transform(env, t).result.Ok? && src in t.names
    requires (src == "causa_acidente" && dst == "sinistro_causa") || (src == "tipo_acidente" && dst == "sinistro_tipo")
    ensures var out := Transform(env, t).result.value;
            dst in out.names && forall i :: 0 <= i < out.height ==> Column(out, dst)[i].Str? && Column(out, dst)[i].s != ""
  {
    KeyColumnSources();
    var t5, t7, out := UnfoldTransform(env, t);
    ReachesStage5(env, t, src, dst);
    var s6 := CreateDerived(env, t5);
    assert dst in s6.table.names && dst in t7.names;
    InformedAfterFinish(env, t7, dst);
  }

  /** Stages 8 and 9 leave a key column informed in every row. */
  lemma InformedAfterFinish(env: Env, t7: Table, dst: string)
    requires WellFormed(t7) && dst in t7.names && dst in DefaultColumns && dst in RequiredColumns
    ensures var out := Projection(CleanFinal(env, t7));
            dst in out.names && forall i :: 0 <= i < out.height ==> Column(out, dst)[i].Str? && Column(out, dst)[i].s != ""
  {
    CleanFinalInformed(env, t7, dst);
    assert Column(Projection(CleanFinal(env, t7)), dst) == Column(CleanFinal(env, t7), dst);
  }

  /** No stage before the derived columns has a `dia_semana`. */
  lemma NoWeekdayBeforeDerived(env: Env, t: Table)
    requires Admissible(t)
    ensures "dia_semana" !in DePara(env, RenameStage(ConvertDataTypes(env, NormalizeStrings(env, RemoveIrrelevant(t))))).names
  {
    DiaSemanaIsNoTarget();
    var t3 := ConvertDataTypes(env, NormalizeStrings(env, RemoveIrrelevant(t)));
    assert "dia_semana" !in t3.names;
    forall k | 0 <= k < |t3.names| ensures Renamed(t3.names, RenameMap)[k] != "dia_semana" {
      assert Renamed(t3.names, RenameMap)[k] == RenamedName(RenameMap, t3.names[k]);
    }
  }

  /**
   * The output's `dia_semana` holds only Portuguese weekday names and missing
   * cells, whatever the input had under that label.
   */
  lemma WeekdayNamesOnly(env: Env, t: Table)
    requires Admissible(t) && Transform(env, t).result.Ok?
    ensures var out := Transform(env, t).result.value;
            forall i :: 0 <= i < out.height ==>
              Column(out, "dia_semana")[i].Null? ||
              exists w :: w in DiasSemana && Column(out, "dia_semana")[i] == Str(DiasSemana[w])
  {
    var t5, t7, out := UnfoldTransform(env, t);
    NoWeekdayBeforeDerived(env, t);
    DiaSemanaIsNoTarget();
    var r6 := CreateDerived(env, t5).table;
    WeekdayColumnHoldsNames(env, t5);
    assert "dia_semana" != "envolvido_idade" && "dia_semana" != "veiculo_ano_fabricacao";
    WeekdayNamesAfterOutliers(env, t7);
  }

  /** `WeekdayNamesOnly` from the table stage 7 leaves. */
  lemma WeekdayNamesAfterOutliers(env: Env, t7: Table)
    requires WellFormed(t7)
    requires "dia_semana" in t7.names ==>
               forall j :: 0 <= j < t7.height ==>
                 Column(t7, "dia_semana")[j].Null? ||
                 exists w :: w in DiasSemana && Column(t7, "dia_semana")[j] == Str(DiasSemana[w])
    ensures var out := Projection(CleanFinal(env, t7));
            forall i :: 0 <= i < out.height ==>
              Column(out, "dia_semana")[i].Null? ||
              exists w :: w in DiasSemana && Column(out, "dia_semana")[i] == Str(DiasSemana[w])
  {
    DiaSemanaIsNoTarget();
    var n := "dia_semana";
    var out := Projection(CleanFinal(env, t7));
    if n in t7.names {
      forall i | 0 <= i < out.height
        ensures Column(out, n)[i].Null? || exists w :: w in DiasSemana && Column(out, n)[i] == Str(DiasSemana[w])
      {
        var j := UntrimmedCellOrigin(env, t7, n, i);
      }
    } else {
      AbsentIsMissing(env, t7, n);
    }
  }

  /** An output column absent after stage 7 is missing in every row. */
  lemma AbsentIsMissing(env: Env, t7: Table, n: string)
    requires WellFormed(t7) && n !in t7.names && n in RequiredColumns
    ensures forall i :: 0 <= i < Projection(CleanFinal(env, t7)).height ==> Column(Projection(CleanFinal(env, t7)), n)[i] == Null
  {
    var t8 := CleanFinal(env, t7);
    assert n !in t8.names;
    assert Column(Projection(t8), n) == Nulls(t8.height);
  }

  /** Each output cell of a column the final trim skips is a cell of that column after stage 7. */
  lemma UntrimmedCellOrigin(env: Env, t7: Table, n: string, i: nat) returns (j: nat)
    requires WellFormed(t7) && n in t7.names && n !in TrimColumns && n in RequiredColumns
    requires i < Projection(CleanFinal(env, t7)).height
    ensures j < t7.height && Column(Projection(CleanFinal(env, t7)), n)[i] == Column(t7, n)[j]
  {
    var trimmed := FinalTrim(env, t7);
    FinalTrimOther(env, t7, n);
    DeduplicatedCellOrigin(trimmed, n, i);
    var k :| 0 <= k < trimmed.height && Column(Deduplicated(trimmed), n)[i] == Column(trimmed, n)[k];
    j := k;
  }

  // ---- What a run records ---------------------------------------------------------

  /** The keys recorded once `n` stages have finished. */
  function StageKeySet(n: nat): set<string>
    requires n <= 9
  {
    if n == 0 then {}
    else StageKeySet(n - 1) + (if n - 1 == 1 then {"colunas_normalizadas"} else {}) + {StageKeys[n - 1]}
  }

  /** The stage entries mention exactly the keys of the stages that finished. */
  lemma {:induction false} StageEntriesKeys(snapshots: seq<Table>)
    requires |snapshots| <= 9
    ensures Keys(StageEntries(snapshots)) == StageKeySet(|snapshots|)
  {
    if snapshots != [] {
      var k := |snapshots| - 1;
      var s := snapshots[..k];
      var x := snapshots[k];
      assert s + [x] == snapshots;
      StageEntriesSnoc(s, x);
      var init := StageEntries(s);
      var mid: seq<(string, Stat)> := if k == 1 then [("colunas_normalizadas", Count(|x.names|))] else [];
      StageEntriesKeys(s);
      KeysAppend(init, mid);
      KeysAppend(init + mid, [(StageKeys[k], ShapeOf(x))]);
      KeysOfOne((StageKeys[k], ShapeOf(x)));
      if k == 1 {
        KeysOfOne(("colunas_normalizadas", Count(|x.names|)));
      }
    }
  }

  /**
   * A run that raised records only the shapes of the stages that finished
   * (and the column count of the second): no later shape and no final
   * figure is added.
   */
  lemma FailedRunRecordsStagesOnly(env: Env, t: Table, seconds: real, m: map<string, Stat>)
    requires Admissible(t) && Transform(env, t).result.Err?
    ensures var o := Transform(env, t);
            Recorded(m, Entries(t, o, seconds)).Keys == m.Keys + StageKeySet(|o.snapshots|)
    ensures var o := Transform(env, t);
            forall k :: k in StageKeySet(|o.snapshots|) ==>
              k != "apos_outliers" && k != "shape_final" && k != "registros_finais" && k != "duracao_segundos"
  {
    FailedOutcomeRecords(t, Transform(env, t), seconds, m);
  }

  /** `FailedRunRecordsStagesOnly` for any outcome that stopped after five or six stages. */
  lemma FailedOutcomeRecords(t: Table, o: Outcome, seconds: real, m: map<string, Stat>)
    requires o.result.Err? && |o.snapshots| in {5, 6}
    ensures Recorded(m, Entries(t, o, seconds)).Keys == m.Keys + StageKeySet(|o.snapshots|)
    ensures forall k :: k in StageKeySet(|o.snapshots|) ==>
              k != "apos_outliers" && k != "shape_final" && k != "registros_finais" && k != "duracao_segundos"
  {
    var e := StageEntries(o.snapshots);
    assert Entries(t, o, seconds) == e + [];
    assert e + [] == e;
    StageEntriesKeys(o.snapshots);
    RecordedKeys(m, e);
    EarlyStageKeys();
  }

  /** The keys of the first six stages name none of the later figures. */
  lemma EarlyStageKeys()
    ensures StageKeySet(5) <= StageKeySet(6)
    ensures forall k :: k in StageKeySet(6) ==>
              k != "apos_outliers" && k != "shape_final" && k != "registros_finais" && k != "duracao_segundos"
  {
    assert StageKeySet(6) == {"apos_remocao_colunas", "colunas_normalizadas", "apos_normalizacao", "apos_conversao_tipos",
                              "apos_renomeacao", "apos_de_para", "apos_colunas_derivadas"};
  }

  /**
   * A run that finished records the output's shape under `shape_final`, and
   * the row and column counts before and after, the duration and the number
   * of distinct crashes as its final figures.
   */
  lemma SuccessfulRunRecords(env: Env, t: Table, seconds: real, m: map<string, Stat>)
    requires Admissible(t) && Transform(env, t).result.Ok?
    ensures var o := Transform(env, t);
            var out := o.result.value;
            var r := Recorded(m, Entries(t, o, seconds));
            && "sinistro_id" in out.names
            && "shape_final" in r && r["shape_final"] == Shape(out.height, 45)
            && "duracao_segundos" in r && r["duracao_segundos"] == Seconds(seconds)
            && "registros_originais" in r && r["registros_originais"] == Count(t.height)
            && "registros_finais" in r && r["registros_finais"] == Count(out.height)
            && "colunas_originais" in r && r["colunas_originais"] == Count(|t.names|)
            && "colunas_finais" in r && r["colunas_finais"] == Count(45)
            && "sinistros_unicos" in r && r["sinistros_unicos"] == Count(NUnique(Column(out, "sinistro_id")))
  {
    var o := Transform(env, t);
    RequiredColumnsDistinct();
    OkOutcomeRecords(t, o, seconds, m);
  }

  /** `SuccessfulRunRecords` for any finished outcome whose output has the 45 columns. */
  lemma OkOutcomeRecords(t: Table, o: Outcome, seconds: real, m: map<string, Stat>)
    requires o.result.Ok? && |o.snapshots| == 9 && WellFormed(o.result.value)
    requires o.result.value.names == RequiredColumns && |RequiredColumns| == 45 && o.snapshots[8] == o.result.value
    ensures var out := o.result.value;
            var r := Recorded(m, Entries(t, o, seconds));
            && "sinistro_id" in out.names
            && "shape_final" in r && r["shape_final"] == Shape(out.height, 45)
            && "duracao_segundos" in r && r["duracao_segundos"] == Seconds(seconds)
            && "registros_originais" in r && r["registros_originais"] == Count(t.height)
            && "registros_finais" in r && r["registros_finais"] == Count(out.height)
            && "colunas_originais" in r && r["colunas_originais"] == Count(|t.names|)
            && "colunas_finais" in r && r["colunas_finais"] == Count(45)
            && "sinistros_unicos" in r && r["sinistros_unicos"] == Count(NUnique(Column(out, "sinistro_id")))
  {
    IdsRequired();
    var out := o.result.value;
    var s := StageEntries(o.snapshots);
    var k := 8;
    assert s == StageEntries(o.snapshots[..k]) + [] + [(StageKeys[k], ShapeOf(o.snapshots[k]))];
    assert |s| == 10 && s[9] == ("shape_final", Shape(out.height, 45));
    RecordedLast(m, s, 9);
    var m1 := Recorded(m, s);
    var f := FinalEntries(t, out, seconds);
    assert Entries(t, o, seconds) == s + f;
    RecordedAppend(m, s, f);
    FinalEntriesRecorded(m1, t, out, seconds);
  }

  /** The final figures, recorded over whatever the stages recorded. */
  lemma FinalEntriesRecorded(m: map<string, Stat>, t: Table, out: Table, seconds: real)
    requires WellFormed(out) && "sinistro_id" in out.names && "id_envolvido" in out.names && "veiculo_id" in out.names
    requires "shape_final" in m
    ensures var r := Recorded(m, FinalEntries(t, out, seconds));
            && "shape_final" in r && r["shape_final"] == m["shape_final"]
            && "duracao_segundos" in r && r["duracao_segundos"] == Seconds(seconds)
            && "registros_originais" in r && r["registros_originais"] == Count(t.height)
            && "registros_finais" in r && r["registros_finais"] == Count(out.height)
            && "colunas_originais" in r && r["colunas_originais"] == Count(|t.names|)
            && "colunas_finais" in r && r["colunas_finais"] == Count(|out.names|)
            && "sinistros_unicos" in r && r["sinistros_unicos"] == Count(NUnique(Column(out, "sinistro_id")))
  {
    var f := FinalEntries(t, out, seconds);
    RecordedUntouched(m, f, "shape_final");
    FinalKeyRecorded(m, t, out, seconds, 0);
    FinalKeyRecorded(m, t, out, seconds, 1);
    FinalKeyRecorded(m, t, out, seconds, 2);
    FinalKeyRecorded(m, t, out, seconds, 3);
    FinalKeyRecorded(m, t, out, seconds, 4);
    FinalKeyRecorded(m, t, out, seconds, 5);
  }

  /** The keys of the final entries, none of them a stage key. */
  const FinalKeys: seq<string> :=
    ["duracao_segundos", "registros_originais", "registros_finais", "colunas_originais", "colunas_finais",
     "sinistros_unicos", "pessoas_envolvidas", "veiculos_envolvidos"]

  /** Each final entry, with all three identifiers present, is the last one for its key. */
  lemma FinalKeyRecorded(m: map<string, Stat>, t: Table, out: Table, seconds: real, i: nat)
    requires WellFormed(out) && "sinistro_id" in out.names && "id_envolvido" in out.names && "veiculo_id" in out.names
    requires i < 8
    ensures var f := FinalEntries(t, out, seconds);
            |f| == 8 && f[i].0 == FinalKeys[i] && FinalKeys[i] in Recorded(m, f) && Recorded(m, f)[FinalKeys[i]] == f[i].1
  {
    var f := FinalEntries(t, out, seconds);
    FinalEntriesKeys(t, out, seconds);
    FinalKeysDistinct();
    RecordedLast(m, f, i);
  }

  lemma FinalKeysDistinct()
    ensures Distinct(FinalKeys)
  {
  }

  lemma FinalEntriesKeys(t: Table, out: Table, seconds: real)
    requires WellFormed(out) && "sinistro_id" in out.names && "id_envolvido" in out.names && "veiculo_id" in out.names
    ensures var f := FinalEntries(t, out, seconds);
            |f| == 8 && forall j :: 0 <= j < 8 ==> f[j].0 == FinalKeys[j]
  {
  }
}
