# SinistrosPRF silver transformation, modelled in Dafny

This project models the silver-layer transformation of the SinistrosPRF
ETL, the `SilverDataTransformer` class in `silver/etl/jobs/transform.py`,
and the `ETLStats` collector it reports to, from
`silver/etl/utils/logging_utils.py`. The transformer turns one raw table of
federal-highway crash records into the silver table. It works in nine
fixed stages:

1. It drops six irrelevant columns.
2. It pre-cleans every cell as text.
3. It parses the typed columns, turning each failure into a missing cell.
4. It renames the columns through a fixed map.
5. It recodes land use and weather.
6. It derives about twenty columns: injuries, route, date and time parts, day and week periods, state name and region, age buckets, severity label and score.
7. It scrubs outlying ages and manufacturing years.
8. It trims the text columns, fills two key columns with "Não informado", and drops duplicate rows.
9. It projects onto the 45 output columns.

`transform_data` runs the nine stages in order. It records each stage's
shape in the collector, then the run's final figures.

How the model is laid out:

- **Tables.** A table is a value, `Tables.Table`: column labels, one
  sequence of cells per column, and a height. A pandas frame that a stage
  changes in place is the class `Tables.DataFrame`, whose fields the stage
  methods reassign.
- **Cells.** A cell is `Values.Value`: missing, integer, number, text, date,
  time of day or timestamp.
- **Library behaviour.** What pandas and the host decide on their own is a
  parameter, `Values.Env`: how a non-text cell renders as text, how dates,
  times and timestamps are parsed, which weekday a date falls on, and the
  current year.
- **Specification functions.** Every stage is a function on tables in
  `Stages`, `Derived` and `Finish`, built from the per-cell rules in
  `Cleaning` and `Rules`.
- **Stage methods.** Each method of `Transformer.SilverDataTransformer`
  changes its frame exactly as its function says.
- **The whole run.** `Pipeline.Transform` is the run as a value: the tables
  after each finished stage, the frame the caller is left holding, and the
  output or the error.
- **The collector.** `Stats.ETLStats` is a class over a map. What a run
  records is `Stats.Recorded` applied to the run's list of entries.

Exceptions that escape a stage in the source are modelled as a `Failure`
naming the column. A stage that can raise returns a `Derived.Run`, that is,
the table as it stands when the exception leaves, together with the
failure. Five things can raise:

- the `Float64` cast of `feridos_leves`, when a cell is neither missing, a number, nor text that reads as a number;
- the `Float64` cast of `feridos_graves`, likewise;
- `int()` of an hour that is not a number;
- `int()` of an age that is not a number;
- a `>` or `<` comparison against a cell that is not a number.

`transform_data` then re-raises. The model returns `Err` with the figures
recorded so far, and the caller's frame as the in-place stages left it.

Four details of the code that the model keeps:

- A one- or two-character route gets a single "0": `"1"` becomes `"BR-01"`
  (`silver/etl/jobs/transform.py:357-379`).
- The output list names 45 columns (`silver/etl/jobs/transform.py:636-682`).
- A missing injury count is filled with 0 before the severity rules run, so
  it yields "Sem vítima" (`silver/etl/jobs/transform.py:505-518`).
- The injury sum is a masked Float64 series, and its cast to Int64
  truncates toward zero instead of raising: 1.5 light injuries and 0 serious
  ones give `feridos` 1 (`silver/etl/jobs/transform.py:347-352`).
- A missing cell is rendered as text in four places, and which marker it
  holds, and so its text, depends on the place (`Values.MissingAs`):
  - the pre-clean of stage 2 reads the raw input, whose missing cells are
    NaN (`Env.text`, "nan" in pandas), and writes `pd.NA` itself
    (`silver/etl/jobs/transform.py:142-163`);
  - the date and time parses of stage 3 read those `pd.NA` cells
    (`Values.Written`, whose text is `Env.naText`, "<NA>" in pandas;
    `silver/etl/jobs/transform.py:244-265`);
  - the joined timestamp parse of stage 6 reads the parsed `data` and
    `horario`, whose missing cells are `NaT` (`Values.Parsed`, whose text is
    `Env.natText`, "NaT" in pandas; `silver/etl/jobs/transform.py:381-386`);
  - the final trim of stage 8 reads `pd.NA` cells again
    (`silver/etl/jobs/transform.py:596-615`). "<NA>" is not one of its
    tokens, so a missing cause or accident type leaves stage 8 as the text
    "<NA>", and the "Não informado" default never sees it.

## Model

| member | source | states |
|---|---|---|
| Transformer.SilverDataTransformer.constructor | silver/etl/jobs/transform.py:27-29 | a new transformer holds a fresh, empty statistics collector |
| Transformer.SilverDataTransformer.ApplyToEach | silver/etl/jobs/transform.py:195-199 | the per-column loop leaves the frame equal to the rule applied, in list order, to each listed column that exists |
| Transformer.SilverDataTransformer.RemoveIrrelevantColumns | silver/etl/jobs/transform.py:104-132 | stage 1 in place: the frame becomes the table without the listed columns |
| Transformer.SilverDataTransformer.NormalizeStringColumns | silver/etl/jobs/transform.py:134-171 | stage 2 in place: every column is pre-cleaned, and `colunas_normalizadas` is set to the column count with no other key touched |
| Transformer.SilverDataTransformer.ConvertColumnTypes | silver/etl/jobs/transform.py:173-267 | stage 3 in place: the integer, float and text loops, then the date and the time parse |
| Transformer.SilverDataTransformer.RenameColumns | silver/etl/jobs/transform.py:269-315 | stage 4 in place: the labels the map names are renamed, cells and order kept |
| Transformer.SilverDataTransformer.ApplyDePara | silver/etl/jobs/transform.py:317-338 | stage 5 in place: land use is recoded, then weather |
| Transformer.SilverDataTransformer.AddInjuries | silver/etl/jobs/transform.py:347-352 | writes `feridos` as its step function says, or reports the failed Float64 cast of an injury column and leaves the frame as it was |
| Transformer.SilverDataTransformer.AddRoute | silver/etl/jobs/transform.py:354-379 | writes the formatted route, then its number, when `rodovia` exists |
| Transformer.SilverDataTransformer.AddTemporal | silver/etl/jobs/transform.py:381-396 | writes `data_hora`, `dia_semana`, `data`, `ano` and `hora`, in that order, from one parse per row |
| Transformer.SilverDataTransformer.AddDayPeriod | silver/etl/jobs/transform.py:398-413 | writes `periodo`, or reports the hour `int()` refuses and writes nothing |
| Transformer.SilverDataTransformer.AddWeekPeriod | silver/etl/jobs/transform.py:415-438 | writes `periodo_semana` from `dia_semana` |
| Transformer.SilverDataTransformer.AddStateColumns | silver/etl/jobs/transform.py:440-446 | writes `localidade` and `regiao` from `uf` |
| Transformer.SilverDataTransformer.AddAgeBands | silver/etl/jobs/transform.py:448-502 | writes both age buckets, or reports the age `int()` refuses and writes nothing |
| Transformer.SilverDataTransformer.AddSeverity | silver/etl/jobs/transform.py:504-518 | writes `gravidade` when `mortos` and `feridos` exist |
| Transformer.SilverDataTransformer.AddScore | silver/etl/jobs/transform.py:520-536 | writes `ups` when `mortos`, `feridos` and `sinistro_tipo` exist |
| Transformer.SilverDataTransformer.CreateDerivedColumns | silver/etl/jobs/transform.py:340-538 | stage 6 in place: the eleven steps in order; the first failure ends the stage with the earlier columns kept |
| Transformer.SilverDataTransformer.ScrubColumn | silver/etl/jobs/transform.py:547-571 | one masked `df.loc[...] = pd.NA`: the selected cells become missing, or a cell that cannot be compared raises before any write |
| Transformer.SilverDataTransformer.TreatOutlierColumns | silver/etl/jobs/transform.py:540-573 | stage 7 in place: ages first, then manufacturing years against the current year |
| Transformer.SilverDataTransformer.CleanAndNormalizeFinal | silver/etl/jobs/transform.py:575-626 | stage 8: the trims change the given frame, and the deduplicated frame is a new one |
| Transformer.SilverDataTransformer.PrepareFinalColumns | silver/etl/jobs/transform.py:628-692 | stage 9: missing output columns are added to the given frame, and the 45-column selection is a new frame |
| Transformer.SilverDataTransformer.AddEachMissing | silver/etl/jobs/transform.py:684-687 | the loop adds each listed column that is absent, all cells missing |
| Transformer.SilverDataTransformer.TransformData | silver/etl/jobs/transform.py:694-771 | the caller's frame, the result or error, and the collector's new map are exactly those of `Pipeline.Transform` and its recorded entries |
| Transformer.SilverDataTransformer.EarlyStages | silver/etl/jobs/transform.py:704-722 | stages 1 to 5 run in order, and each stage's shape is recorded after it |
| Transformer.SilverDataTransformer.LateStages | silver/etl/jobs/transform.py:724-770 | stages 6 to 9 and the final figures, or the re-raised failure with only the stages' figures recorded |
| Transformer.SilverDataTransformer.AfterDerived | silver/etl/jobs/transform.py:728-770 | stages 7 to 9 and the final figures, or the re-raised failure |
| Transformer.SilverDataTransformer.FinishRun | silver/etl/jobs/transform.py:732-761 | stages 8 and 9, their shapes, then the final figures |
| Transformer.SilverDataTransformer.FinalStages | silver/etl/jobs/transform.py:732-738 | stages 8 and 9, each followed by its shape |
| Transformer.SilverDataTransformer.CleanStage | silver/etl/jobs/transform.py:733-734 | stage 8, then `apos_limpeza_final` |
| Transformer.SilverDataTransformer.ProjectStage | silver/etl/jobs/transform.py:737-738 | stage 9, then `shape_final`; the frame it is given gets the missing output columns added |
| Transformer.SilverDataTransformer.RecordShape | silver/etl/jobs/transform.py:706-738 | one `add_stat` of a finished stage's shape under that stage's key |
| Transformer.SilverDataTransformer.RecordSecondShape | silver/etl/jobs/transform.py:709-710 | the second stage's shape, recorded after its column count |
| Transformer.SilverDataTransformer.RecordFinal | silver/etl/jobs/transform.py:741-761 | the duration, the counts and the distinct-id figures, in the source's order |
| Transformer.SilverDataTransformer.RecordCounts | silver/etl/jobs/transform.py:744-748 | the duration, then the row and column counts before and after |
| Transformer.SilverDataTransformer.RecordUniques | silver/etl/jobs/transform.py:750-761 | distinct crashes, people and vehicles, each only when its id column exists |
| Transformer.SilverDataTransformer.RecordUnique | silver/etl/jobs/transform.py:751-753 | `nunique()` of an id column, recorded only when the column exists |
| Pipeline.Transform | silver/etl/jobs/transform.py:694-771 | a run stops after 5 or 6 stages exactly when it fails, and then names an injury column, the hour, the age or the manufacturing year; a finished run's output has the 45 output columns and at most the input's rows |
| Pipeline.LateRun | silver/etl/jobs/transform.py:724-738 | stages 6 to 9 end with the 45 columns and no more rows than the stage-5 table, or with a failure on an injury column, the hour, the age or the manufacturing year |
| Pipeline.OutlierRun | silver/etl/jobs/transform.py:728-738 | stages 7 to 9 fail only on the age or the manufacturing year |
| Pipeline.FinalRun | silver/etl/jobs/transform.py:732-738 | stages 8 and 9 never fail and end with the 45 columns |
| Pipeline.StageEntries | silver/etl/jobs/transform.py:704-738 | one shape per finished stage, plus the column count that stage 2 records |
| Pipeline.StageEntriesSnoc | silver/etl/jobs/transform.py:704-738 | a finished stage adds its shape, and stage 2 adds its column count before it |
| Pipeline.StageEntriesKeys | silver/etl/jobs/transform.py:704-738 | the stage entries mention exactly the keys of the stages that finished |
| Pipeline.RecordedCounts | silver/etl/jobs/transform.py:744-748 | the count entries, recorded, are the five `add_stat` calls in order |
| Pipeline.FailedEntries | silver/etl/jobs/transform.py:768-770 | a run that raised records only the stages' entries |
| Pipeline.FinishedEntries | silver/etl/jobs/transform.py:738-761 | a finished run records the stages' entries, then the final figures |
| Pipeline.FinishedRecords | silver/etl/jobs/transform.py:738-761 | the final figures are recorded over what the stages recorded |
| Pipeline.UnfoldTransform | silver/etl/jobs/transform.py:704-738 | a finished run's output is the projection of the deduplicated table, and the caller is left with the trimmed, undeduplicated frame |
| Pipeline.TransformIsLateRun | silver/etl/jobs/transform.py:704-738 | after the first five stages the run is the run of the later stages |
| Pipeline.ReachesStage5 | silver/etl/jobs/transform.py:104-338 | a kept input column reaches stage 6 under its new label |
| Pipeline.KeyColumnsInformed | silver/etl/jobs/transform.py:612-615 | with a cause or type of accident in the input, every output row holds non-empty text in `sinistro_causa` or `sinistro_tipo` |
| Pipeline.InformedAfterFinish | silver/etl/jobs/transform.py:612-690 | stages 8 and 9 leave a key column non-empty text in every row |
| Pipeline.NoWeekdayBeforeDerived | silver/etl/jobs/transform.py:104-338 | the input's `dia_semana` is gone after stage 1, and no later stage before 6 brings it back |
| Pipeline.WeekdayNamesOnly | silver/etl/jobs/transform.py:389 | the output's `dia_semana` holds only Portuguese weekday names or missing cells, whatever the input had |
| Pipeline.WeekdayNamesAfterOutliers | silver/etl/jobs/transform.py:575-692 | stages 8 and 9 keep `dia_semana` to weekday names and missing cells |
| Pipeline.AbsentIsMissing | silver/etl/jobs/transform.py:684-690 | an output column absent after stage 7 is missing in every output row |
| Pipeline.UntrimmedCellOrigin | silver/etl/jobs/transform.py:596-690 | every output cell of an untrimmed column comes from that column after stage 7 |
| Pipeline.FailedRunRecordsStagesOnly | silver/etl/jobs/transform.py:703-770 | a run that raised adds exactly the keys of its finished stages: no later shape, no duration, no final counts |
| Pipeline.FailedOutcomeRecords | silver/etl/jobs/transform.py:703-770 | the same, for any run that stopped after five or six stages |
| Pipeline.EarlyStageKeys | silver/etl/jobs/transform.py:704-726 | the keys of the first six stages name none of the later figures |
| Pipeline.SuccessfulRunRecords | silver/etl/jobs/transform.py:738-753 | a finished run records the output's shape (45 columns), the duration, the row and column counts before and after, and the distinct crashes |
| Pipeline.OkOutcomeRecords | silver/etl/jobs/transform.py:738-753 | the same, for any finished run with the 45 columns |
| Pipeline.FinalEntriesRecorded | silver/etl/jobs/transform.py:744-753 | the final figures overwrite their keys and leave `shape_final` as the stages recorded it |
| Pipeline.FinalKeyRecorded | silver/etl/jobs/transform.py:744-761 | with all three ids present, each of the eight final figures is the value its key ends up holding |
| Pipeline.FinalEntriesKeys | silver/etl/jobs/transform.py:744-761 | the eight final figures are recorded under their keys in the source's order |
| Pipeline.FinalKeysDistinct | silver/etl/jobs/transform.py:744-761 | the eight final keys are distinct |
| Stats.ETLStats.constructor | silver/etl/utils/logging_utils.py:182-184 | a new collector has nothing recorded |
| Stats.ETLStats.AddStat | silver/etl/utils/logging_utils.py:186-189 | `stats[key] = value`, overwriting, and nothing else changes |
| Stats.ETLStats.IncrementCounter | silver/etl/utils/logging_utils.py:191-196 | an absent key ends up equal to `amount`; a present count becomes old count + `amount` and a present duration old duration + `amount`; a shape makes `+=` raise and leaves the map as it was |
| Stats.ETLStats.GetStats | silver/etl/utils/logging_utils.py:204-206 | returns a copy equal to the current map (a value, so later changes do not reach it) |
| Stats.ETLStats.GetAllStats | silver/etl/utils/logging_utils.py:208-210 | returns the same copy as `get_stats` |
| Stats.Keys | silver/etl/utils/logging_utils.py:186-188 | the keys a list of entries mentions |
| Stats.RecordedKeys | silver/etl/utils/logging_utils.py:186-188 | recording entries adds exactly the keys they mention |
| Stats.RecordedLast | silver/etl/utils/logging_utils.py:186-188 | a key holds the value of its last entry |
| Stats.RecordedUntouched | silver/etl/utils/logging_utils.py:186-188 | a key with no entry keeps its old value |
| Stats.RecordedAppend | silver/etl/utils/logging_utils.py:186-188 | recording two lists is recording the first and then the second |
| Stats.RecordedSnoc | silver/etl/utils/logging_utils.py:186-188 | one more entry is one more `add_stat` |
| Stats.RecordedPrefix | silver/etl/utils/logging_utils.py:186-188 | one more entry of the same list is one more `add_stat` |
| Stats.Incremented | silver/etl/utils/logging_utils.py:191-195 | `increment_counter` fails exactly on a shape; an absent key gets `amount`; a present count or duration gets its old value plus `amount`; no other key changes |
| Stats.IncrementsAdd | silver/etl/utils/logging_utils.py:191-195 | two increments of a counter equal one increment by their sum |
| Derived.FeridosStep | silver/etl/jobs/transform.py:347-352 | with both injury columns, the step raises exactly when one of them has a cell the Float64 cast refuses, naming that column and leaving the table as it was; otherwise each row's `feridos` is light plus serious injuries, missing counted as 0, truncated toward zero |
| Derived.RodoviaStep | silver/etl/jobs/transform.py:354-379 | each row's route is formatted and its number is read back from the formatted route; only those two columns change |
| Derived.WeekdayName | silver/etl/jobs/transform.py:389 | `dt.weekday.map(dias_semana)` gives a weekday name or a missing cell |
| Derived.TemporalStep | silver/etl/jobs/transform.py:381-396 | only the five temporal columns change |
| Derived.TemporalStepEffect | silver/etl/jobs/transform.py:381-396 | every row's timestamp, weekday, date, year and hour come from the joined parse of `data` and `horario` (a missing cell joined as the text of `NaT`), all missing where it failed |
| Derived.TemporalSkipped | silver/etl/jobs/transform.py:382 | without both `data` and `horario` the temporal step changes nothing |
| Derived.IntRuleStep | silver/etl/jobs/transform.py:401-404 | a rule on an integer column raises exactly when some present cell refuses `int()`; otherwise each row gets the rule of its cell |
| Derived.PeriodoStep | silver/etl/jobs/transform.py:398-413 | only `periodo` changes |
| Derived.PeriodoStepEffect | silver/etl/jobs/transform.py:398-413 | each row's period is the bucket of its hour, missing where the hour is; the step raises only on an hour `int()` refuses |
| Derived.PeriodoSemanaStep | silver/etl/jobs/transform.py:415-438 | each row's week period is the lambda applied to its `dia_semana` |
| Derived.StateSteps | silver/etl/jobs/transform.py:440-446 | each row's state name and region are the lookups of its `uf` |
| Derived.AgeSteps | silver/etl/jobs/transform.py:448-502 | only the two age buckets change; a failure names the age column and leaves the table as it was |
| Derived.AgeStepsEffect | silver/etl/jobs/transform.py:448-502 | the age steps raise exactly when some present age is not an integer; otherwise each row's `faixa_etaria_ano` and `faixa_etaria_classe` are the two band rules applied to its age |
| Derived.GravidadeStep | silver/etl/jobs/transform.py:504-518 | each row's severity label is the rule applied to its counts |
| Derived.UpsStep | silver/etl/jobs/transform.py:520-536 | each row's score is the rule applied to its counts and accident type |
| Derived.CreateDerived | silver/etl/jobs/transform.py:340-538 | stage 6 adds or overwrites only derived columns, keeps the height, and fails only on an injury column, the hour or the age |
| Derived.Unfold | silver/etl/jobs/transform.py:340-538 | a stage run that did not raise is the eleven steps in order |
| Derived.PeriodNeverRaisesAfterTemporal | silver/etl/jobs/transform.py:395-404 | an hour written by the temporal step is always an integer or missing, so the day period never raises on it |
| Derived.SeverityColumnsAgree | silver/etl/jobs/transform.py:504-536 | after stage 6 the score is 13 exactly for "Com morto", 4 only for "Com ferido", and "Com ferido" only with 4 or 6 |
| Derived.TimeColumnsAgree | silver/etl/jobs/transform.py:381-438 | after stage 6 the weekday, day period and week period of each row all come from the same joined parse |
| Derived.WeekPeriodOfStamp | silver/etl/jobs/transform.py:389-438 | the week period of a parsed weekday is the weekend for indices 5 and 6, the working week for 0 to 4, and missing otherwise |
| Derived.RouteColumnsAgree | silver/etl/jobs/transform.py:354-379 | after stage 6 every present route is formatted and has a number |
| Derived.RouteStepAgrees | silver/etl/jobs/transform.py:354-379 | the same, for the route step on its own |
| Derived.InjuriesAdd | silver/etl/jobs/transform.py:347-352 | after stage 6 every row's `feridos` is the sum of the two injury counts truncated toward zero, and exactly the sum when it is whole |
| Derived.WeekdayAbsent | silver/etl/jobs/transform.py:381-389 | without `data` and `horario`, stage 6 writes no `dia_semana` |
| Derived.WeekdayColumnHoldsNames | silver/etl/jobs/transform.py:389 | a `dia_semana` written by stage 6 holds only weekday names and missing cells |
| Finish.ScrubStep | silver/etl/jobs/transform.py:547-571 | one rule: selected cells become missing, no other column changes, and a failure leaves the table as it was |
| Finish.TreatOutliers | silver/etl/jobs/transform.py:540-573 | stage 7 changes only the age and the manufacturing year, and fails only on one of them |
| Finish.TreatOutliersEffect | silver/etl/jobs/transform.py:547-571 | exactly the ages over 200, and the years before 1920 or after the current year, become missing |
| Finish.OutlierLimits | silver/etl/jobs/transform.py:549-566 | 200, 1920 and the current year are kept; 201, 1919 and the next year are outliers |
| Finish.ScrubOfInRange | silver/etl/jobs/transform.py:547-571 | a rule finds nothing to do on a column already in range |
| Finish.ScrubLeavesInRange | silver/etl/jobs/transform.py:547-571 | after a rule that did not raise, its column is in range |
| Finish.TreatOutliersIdempotent | silver/etl/jobs/transform.py:540-573 | running stage 7 again changes nothing |
| Finish.FinalTrim | silver/etl/jobs/transform.py:582-615 | the trims keep labels and height |
| Finish.FinalTrimColumn | silver/etl/jobs/transform.py:582-615 | a column is trimmed when listed, then defaulted when it is a key column |
| Finish.FinalTrimKey | silver/etl/jobs/transform.py:596-615 | a key column cell is trimmed, then defaulted |
| Finish.MissingKeyCellStaysNA | silver/etl/jobs/transform.py:596-615 | when `str(pd.NA)` is "<NA>", a missing cause or accident type leaves the final trim as the text "<NA>", not "Não informado" |
| Finish.FinalTrimTrimmed | silver/etl/jobs/transform.py:596-610 | another listed column's cell is trimmed |
| Finish.FinalTrimOther | silver/etl/jobs/transform.py:583-610 | an unlisted column is left as it was |
| Finish.UnknownIsClean | silver/etl/jobs/transform.py:615 | "Não informado" is non-empty, stripped, and no null token |
| Finish.FinalTrimIsClean | silver/etl/jobs/transform.py:596-615 | every trimmed cell is missing, or stripped text that is no null token; the key columns are never missing or empty |
| Finish.CleanFinal | silver/etl/jobs/transform.py:575-626 | stage 8 keeps the labels and never adds rows |
| Finish.CleanFinalRows | silver/etl/jobs/transform.py:617-619 | the rows of stage 8 are the distinct rows of the trimmed table: none twice, none lost, none made up |
| Finish.DeduplicatedCellOrigin | silver/etl/jobs/transform.py:619 | every deduplicated cell comes from the same column before |
| Finish.CleanFinalInformed | silver/etl/jobs/transform.py:612-619 | after deduplication the key columns still hold no missing or empty cell |
| Finish.AddMissing | silver/etl/jobs/transform.py:684-686 | the listed absent columns are added all missing; existing columns are kept |
| Finish.Projection | silver/etl/jobs/transform.py:628-692 | exactly the 45 output columns in their order: the existing ones keep their cells, the absent ones are all missing |
| Finish.ProjectionIdempotent | silver/etl/jobs/transform.py:684-690 | projecting twice is projecting once |
| Finish.SelectAllIsIdentity | silver/etl/jobs/transform.py:690 | selecting a table's own labels in order gives the table back |
| Finish.AddMissingOfPresent | silver/etl/jobs/transform.py:684-686 | adding columns that all exist changes nothing |
| Stages.ApplyToColumn | silver/etl/jobs/transform.py:196-199 | `if name in df.columns: df[name] = rule(df[name])`; no other column changes |
| Stages.ApplyToColumnsEffect | silver/etl/jobs/transform.py:195-199 | each listed column gets the rule once, and every other column is kept |
| Stages.RemoveIrrelevant | silver/etl/jobs/transform.py:104-132 | the labels left are the input's minus the six listed, in order |
| Stages.RemoveIrrelevantEffect | silver/etl/jobs/transform.py:104-132 | none of the six survives, the others keep their cells, and `dia_semana` is gone |
| Stages.NormalizeStringsIsClean | silver/etl/jobs/transform.py:134-171 | after stage 2 no cell is padded, empty, holds a comma, or equals a null token |
| Stages.NormalizeStringsIdempotent | silver/etl/jobs/transform.py:142-167 | applying the model's pre-clean twice is applying it once, when the missing cells it reads render as a null token (as the raw input's NaN renders "nan") |
| Stages.NormalizeCleanColumn | silver/etl/jobs/transform.py:142-163 | when a missing cell renders as a null token, a column of clean text and missing cells is left as it is |
| Stages.Int64ColumnKeepsNumbers | silver/etl/jobs/transform.py:197-202 | the integer pass keeps every number exactly; the column holds integers exactly when every number was whole |
| Stages.Int64Cells | silver/etl/jobs/transform.py:197-199 | on whole numbers, each cell becomes its integer or missing |
| Stages.ConvertSplit | silver/etl/jobs/transform.py:173-267 | stage 3 is the three list loops, then the date parse, then the time parse |
| Stages.ListPassesAt | silver/etl/jobs/transform.py:181-243 | a column gets the integer, float and text passes it is listed for, in that order |
| Stages.ConvertTextColumns | silver/etl/jobs/transform.py:237-243 | every listed text column holds only text and missing cells |
| Stages.ConvertIntColumns | silver/etl/jobs/transform.py:195-202 | an integer column that is not also a text column keeps every number exactly |
| Stages.ConvertDates | silver/etl/jobs/transform.py:246-255 | `data_inversa` holds dates or missing cells |
| Stages.ConvertTimes | silver/etl/jobs/transform.py:258-265 | `horario` holds times of day or missing cells |
| Stages.ConvertLeavesOthers | silver/etl/jobs/transform.py:173-267 | columns on none of the lists come through stage 3 untouched |
| Stages.BrBecomesIntegerText | silver/etl/jobs/transform.py:188-240 | `br` is parsed as an integer and then cast to text, so "007" becomes "7" |
| Stages.RenameStage | silver/etl/jobs/transform.py:310-312 | each label the map names is renamed; height and order kept |
| Stages.DeParaEffect | silver/etl/jobs/transform.py:317-338 | each land-use cell is recoded by the land-use rule ("Sim" to "Urbano", "Não" to "Rural"), each weather cell by the weather rule; no other column changes |
| Stages.DateCell | silver/etl/jobs/transform.py:248-252 | a cell becomes a date or missing; a missing cell is parsed from the text of `pd.NA` |
| Stages.TimeCell | silver/etl/jobs/transform.py:260-262 | a cell becomes a time of day or missing; a missing cell is parsed from the text of `pd.NA` |
| Rules.StateTablesAgree | silver/etl/jobs/transform.py:32-90 | both state tables cover the same 27 codes, and every region is one of the five |
| Rules.MesclaRodovia | silver/etl/jobs/transform.py:357-363 | missing stays missing; otherwise the result starts with "BR-" and is stripped |
| Rules.ExtrairNumeroRodovia | silver/etl/jobs/transform.py:368-375 | the number holds no "-", or is missing |
| Rules.NumeroIsTextAfterLastHyphen | silver/etl/jobs/transform.py:368-375 | a number exists exactly when there is a "-", and it is the text after the last one |
| Rules.RouteOfDigits | silver/etl/jobs/transform.py:357-375 | digits become "BR-" plus the digits with one "0" in front when shorter than 3, and the number is that padded text |
| Rules.NumeroOfRoute | silver/etl/jobs/transform.py:368-375 | the number of "BR-" followed by hyphen-free text is that text |
| Rules.SingleDigitRoute | silver/etl/jobs/transform.py:361-362 | route "1" is "BR-01" with number "01" |
| Rules.FormattedRouteHasNumber | silver/etl/jobs/transform.py:357-375 | every formatted route has a number |
| Rules.PeriodOfDayByQuarter | silver/etl/jobs/transform.py:401-411 | 0–5 Madrugada, 6–11 Manhã, 12–17 Tarde, every other integer Noite |
| Rules.PeriodoSemanaOfWeekday | silver/etl/jobs/transform.py:417-438 | Sábado and Domingo are the weekend, and the five other names are the working week |
| Rules.PeriodoSemanaOfOther | silver/etl/jobs/transform.py:420-435 | any other text, and a missing cell, has no week period |
| Rules.FaixaEtariaAnoByDecade | silver/etl/jobs/transform.py:451-477 | negative ages have no band; 0–99 fall in their decade "d0-d9"; from 100 on the band is "100+" |
| Rules.ClasseIsMonotone | silver/etl/jobs/transform.py:486-498 | an older person never gets an earlier age class |
| Rules.ClasseAgreesWithFaixa | silver/etl/jobs/transform.py:451-498 | children are under 20, and the elderly are exactly the bands from 60 on |
| Rules.ApplyIntRule | silver/etl/jobs/transform.py:401-404 | missing stays missing; a cell raises exactly when `int()` refuses it |
| Rules.GravidadeNaoInformado | silver/etl/jobs/transform.py:505-518 | "Não informado" only for a non-positive death count and a negative injury count, never for non-negative counts |
| Rules.GravidadeOfMissingInjuries | silver/etl/jobs/transform.py:507-511 | a missing injury count reads as 0, so a row without deaths is "Sem vítima" |
| Rules.UpsRange | silver/etl/jobs/transform.py:528-535 | the score is one of 1, 4, 6 and 13, and a death gives 13 |
| Rules.UpsAgreesWithGravidade | silver/etl/jobs/transform.py:505-535 | 13 exactly for "Com morto", 4 only for "Com ferido", 1 only without victims or counts |
| Rules.UsoSolo | silver/etl/jobs/transform.py:326-330 | "Sim" becomes "Urbano" and "Não" becomes "Rural"; other text and missing are kept |
| Rules.CondicaoMeteorologica | silver/etl/jobs/transform.py:334-336 | the whole value "Ceu" becomes "Céu"; every other value is kept |
| Cleaning.NullTokensHaveNoPoint | silver/etl/jobs/transform.py:146-161 | no null token is empty or holds a ".", so replacing commas by points cannot create one |
| Cleaning.NormalizeCell | silver/etl/jobs/transform.py:142-163 | a pre-cleaned cell is missing or clean text |
| Cleaning.NormalizeCleanIsIdentity | silver/etl/jobs/transform.py:142-163 | clean text passes through unchanged |
| Cleaning.NormalizeTokensToNull | silver/etl/jobs/transform.py:144-162 | each null token and each blank text becomes missing, whatever whitespace surrounds it |
| Cleaning.TrimCell | silver/etl/jobs/transform.py:598-610 | a trimmed cell is missing, or stripped text that is no final null token; a missing cell renders as `str(pd.NA)`, so it becomes that text stripped unless it is a final token |
| Cleaning.MissingRendersAsNA | silver/etl/jobs/transform.py:596-615 | with `str(pd.NA) == "<NA>"`, the final trim turns a missing cell into "<NA>", the default keeps it, and a second pre-clean would keep it as text as well |
| Cleaning.TrimCellOfTrimmed | silver/etl/jobs/transform.py:598-610 | stripped text that is no final token passes through unchanged |
| Cleaning.DefaultUnknown | silver/etl/jobs/transform.py:615 | missing and empty become "Não informado"; everything else is kept |
| Schema.RequiredColumnsDistinct | silver/etl/jobs/transform.py:636-682 | the output list has 45 names, none twice |
| Schema.ListsDistinct | silver/etl/jobs/transform.py:111-236 | the drop, integer, float and text lists name no column twice |
| Schema.BrIsIntegerThenText | silver/etl/jobs/transform.py:181-236 | `br` is the one column both parsed as an integer and cast to text |
| Schema.ListsApart | silver/etl/jobs/transform.py:181-262 | the integer and float lists are disjoint, and the date and time columns are on no list |
| Schema.TrimListsDistinct | silver/etl/jobs/transform.py:583-613 | the final trim lists name no column twice |
| Schema.DefaultsAreTrimmed | silver/etl/jobs/transform.py:583-615 | the two key columns are trimmed before they get their default |
| Schema.DiaSemanaIsNoTarget | silver/etl/jobs/transform.py:111-308 | stage 1 drops `dia_semana`, no label is renamed to it, and it is an untrimmed output column |
| Schema.KeyColumnSources | silver/etl/jobs/transform.py:276-308 | the key columns come from `causa_acidente` and `tipo_acidente` |
| Schema.IdsRequired | silver/etl/jobs/transform.py:636-639 | the three identifiers are output columns |
| Tables.SetColumn | silver/etl/jobs/transform.py:167 | `df[name] = col` overwrites an existing column in place or appends a new one; no other column changes |
| Tables.SetColumnSame | silver/etl/jobs/transform.py:167 | writing a column's own cells back changes nothing |
| Tables.DropColumns | silver/etl/jobs/transform.py:125 | `df.drop`: the other columns, in order, with their cells |
| Tables.RenameColumns | silver/etl/jobs/transform.py:312 | `df.rename`: labels change, cells and order do not |
| Tables.RowsRoundTrip | silver/etl/jobs/transform.py:619 | reading a table by rows and putting them back gives the table |
| Tables.FromRowsRoundTrip | silver/etl/jobs/transform.py:619 | putting rows into a table and reading them back gives the rows |
| Tables.Deduplicated | silver/etl/jobs/transform.py:619 | `drop_duplicates`: the first occurrence of each distinct row, in order |
| Tables.SelectColumns | silver/etl/jobs/transform.py:690 | `df[names]`: the listed columns, in the listed order |
| Tables.NUniqueZero | silver/etl/jobs/transform.py:752 | `nunique()` is 0 exactly when every cell is missing |
| Tables.DataFrame.Assign | silver/etl/jobs/transform.py:167 | the frame becomes the table with the column set |
| Tables.DataFrame.Drop | silver/etl/jobs/transform.py:125 | the frame becomes the table without the dropped columns |
| Tables.DataFrame.Rename | silver/etl/jobs/transform.py:312 | the frame becomes the renamed table |
| Tables.DataFrame.DropDuplicates | silver/etl/jobs/transform.py:619 | a new frame holding the deduplicated table; this one is left as it is |
| Tables.DataFrame.Select | silver/etl/jobs/transform.py:690 | a new frame holding the listed columns |
| Dedup.FirstIndices | silver/etl/jobs/transform.py:619 | the kept positions are exactly the first occurrences, in increasing order |
| Dedup.UniqueHasNoDuplicates | silver/etl/jobs/transform.py:619 | no row is left twice |
| Dedup.UniqueKeepsEveryRow | silver/etl/jobs/transform.py:619 | every input row is kept, and nothing else |
| Dedup.UniqueOfDistinct | silver/etl/jobs/transform.py:619 | distinct rows are left as they are |
| Dedup.UniqueNoLonger | silver/etl/jobs/transform.py:619 | deduplication never adds rows |
| Dedup.FirstOccurrence | silver/etl/jobs/transform.py:619 | every row has a first occurrence at or before it |
| Dedup.DropDuplicates | silver/etl/jobs/transform.py:619 | the single pass with a set of seen rows keeps exactly the first occurrences |
| Text.Strip | silver/etl/jobs/transform.py:144 | `str.strip()` leaves no whitespace at either end |
| Text.StripIsSlice | silver/etl/jobs/transform.py:144 | the stripped text is the slice between a blank prefix and a blank suffix |
| Text.StripPadded | silver/etl/jobs/transform.py:144 | stripping removes exactly the padding around stripped text |
| Text.ReplaceChar | silver/etl/jobs/transform.py:161 | every `from` character (the comma, in the pre-clean) becomes `to` (the point); every other character is kept; the length is kept |
| Text.ParseIntRoundTrip | silver/etl/jobs/transform.py:404 | `int(str(i)) == i` |
| Text.ParseNumberOfIntText | silver/etl/jobs/transform.py:198 | `pd.to_numeric(str(i))` is `i` |
| Values.AsString | silver/etl/jobs/transform.py:240 | `astype("string")`: missing stays missing, text is kept, any other present cell becomes `Str` of its rendering under the environment |
| Values.Truncate | silver/etl/jobs/transform.py:404 | `int()` of a float truncates toward zero |
| Values.TruncateOfWhole | silver/etl/jobs/transform.py:351 | a whole number survives the truncating cast exactly |

## Left out

- Extraction, loading, the pipeline driver, the database wrapper and the
  container entry point are not part of this model. They are file, network
  and database I/O.
- Logging is left out: `ETLLogger`, `ProcessTimer`, every logger call, and
  `ETLStats.log_summary`. They only write log output.
- pandas' own behaviour is a parameter (`Values.Env`), not a definition:
  - the text of a missing, float, date, time or timestamp cell;
  - the text of `pd.NA` (`Env.naText`) and of `NaT` (`Env.natText`);
  - the date, time and timestamp parsers;
  - `dt.weekday`;
  - `datetime.now().year`.
- Float64 numbers are exact reals. IEEE rounding and NaN arithmetic are not
  modelled. `pd.to_numeric` accepts the signed decimal grammar of
  `Text.ParseNumber` only: no exponents, `inf` or thousands separators.
- Nullable Int64 has no 64-bit bounds in the model. An integer that would
  overflow is kept.
- Row index labels are not modelled. `drop_duplicates` keeps the order of the
  rows but not their labels.
- The duration `round((end - start).total_seconds(), 2)` is a parameter of
  `TransformData`, already rounded. The clock is outside the model.
- Column dtypes are not carried. A cell is whatever value it holds, and the
  effect of a dtype on later stages is stated cell by cell.
- Transformer.SilverDataTransformer.TransformData: requires that the
  renamed labels stay distinct (`Pipeline.Admissible`). pandas would let
  "marca" and "veiculo_marca_modelo" both become "veiculo_marca_modelo",
  and the model does not follow duplicate labels.
- Transformer.SilverDataTransformer.RenameColumns: requires the same
  distinctness (`Stages.RenameSafe`), for the same reason.
- Stages.NormalizeStringsIdempotent: is about the model's pre-clean, which
  renders every missing cell as the raw input's NaN. The source's own
  pre-clean writes `pd.NA`, which renders as "<NA>", so running the source's
  stage 2 a second time would keep those cells as the text "<NA>"
  (`Cleaning.MissingRendersAsNA`). The source runs it once.
- Stages.NormalizeCleanColumn: assumes, like the lemma above, that a missing
  cell renders as a null token. A cell holding `pd.NA` does not.
- Values.Value: all missing markers are one `Null`. The marker is chosen by
  the place that renders it, not carried by the cell: NaN at stage 2, `pd.NA`
  at the stage 3 parses and at stage 8, `NaT` at the stage 6 timestamp
  parse. A column that mixes markers at one of these places is not modelled.
- Stats.ETLStats.IncrementCounter: a stored shape makes `+=` raise. The
  model reports this as `raised` and leaves the map unchanged, and does not
  re-raise.
- Tuple arithmetic and other dynamic typing in `increment_counter` is left
  out. A stored count or duration adds, and a shape raises.
