/**
 * The last three stages: `treat_outliers` (7), `clean_and_normalize_final`
 * (8) and `prepare_final_columns` (9).
 */
module Finish {
  import opened Wrappers
  import opened Text
  import opened Values
  import opened Tables
  import opened Cleaning
  import opened Schema
  import opened Stages
  import opened Derived
  import Dedup

  // ---- Stage 7: outliers --------------------------------------------------------

  /** An age above 200 is not an age. */
  predicate AgeOutlier(x: real) {
    x > 200.0
  }

  /** A manufacturing year after the current one or before 1920 is not a year. */
  predicate YearOutlier(currentYear: int, x: real) {
    x > currentYear as real || x < 1920.0
  }

  /**
   * The boolean mask `bad(df[name])` as `>`/`<` against a number computes
   * it: missing cells are not selected, numbers are tested, and any other
   * present cell makes the comparison raise (`None`).
   */
  function Mask(c: Cells, bad: real -> bool): (m: Option<seq<bool>>)
    ensures m.Some? <==> forall i :: 0 <= i < |c| ==> !CompareView(c[i]).Invalid?
    ensures m.Some? ==> |m.value| == |c|
    ensures m.Some? ==> forall i :: 0 <= i < |c| ==> (m.value[i] <==> CompareView(c[i]).Number? && bad(CompareView(c[i]).x))
  {
    if forall i :: 0 <= i < |c| ==> !CompareView(c[i]).Invalid? then
      Some(seq(|c|, i requires 0 <= i < |c| => CompareView(c[i]).Number? && bad(CompareView(c[i]).x)))
    else None
  }

  /** `df.loc[mask, name] = pd.NA` on the column's cells. */
  function NullWhere(c: Cells, m: seq<bool>): (r: Cells)
    requires |m| == |c|
    ensures |r| == |c|
    ensures forall i :: 0 <= i < |c| ==> r[i] == if m[i] then Null else c[i]
  {
    seq(|c|, i requires 0 <= i < |c| => if m[i] then Null else c[i])
  }

  /** A cell after an outlier rule: missing when it was a selected number. */
  function Scrubbed(v: Value, bad: real -> bool): Value {
    if CompareView(v).Number? && bad(CompareView(v).x) then Null else v
  }

  /**
   * One outlier rule on one column: the selected cells become missing, no
   * other cell or column changes; a cell that cannot be compared raises
   * before anything is written.
   */
  function ScrubStep(t: Table, name: string, bad: real -> bool): (r: Run)
    requires WellFormed(t)
    ensures WellFormed(r.table) && r.table.names == t.names && r.table.height == t.height
    ensures forall n :: n in t.names && n != name ==> Column(r.table, n) == Column(t, n)
    ensures r.failure.Some? ==>
              && r.table == t && r.failure == Some(Failure(name)) && name in t.names
              && exists i :: 0 <= i < t.height && CompareView(Column(t, name)[i]).Invalid?
    ensures r.failure.None? && name in t.names ==>
              forall i :: 0 <= i < t.height ==> Column(r.table, name)[i] == Scrubbed(Column(t, name)[i], bad)
  {
    if name in t.names then
      var c := Column(t, name);
      var m := Mask(c, bad);
      if m.None? then Run(t, Some(Failure(name)))
      else Run(SetColumn(t, name, NullWhere(c, m.value)), None)
    else Run(t, None)
  }

  /** The manufacturing-year rule for a given current year. */
  function YearRule(currentYear: int): real -> bool {
    x => YearOutlier(currentYear, x)
  }

  /** Stage 7: ages first, then manufacturing years. */
  function TreatOutliers(env: Env, t: Table): (r: Run)
    requires WellFormed(t)
    ensures WellFormed(r.table) && r.table.names == t.names && r.table.height == t.height
    ensures forall n :: n in t.names && n != "envolvido_idade" && n != "veiculo_ano_fabricacao" ==>
              Column(r.table, n) == Column(t, n)
    ensures r.failure.Some? ==> r.failure.value.column in {"envolvido_idade", "veiculo_ano_fabricacao"}
  {
    var s := ScrubStep(t, "envolvido_idade", AgeOutlier);
    if s.failure.Some? then s
    else ScrubStep(s.table, "veiculo_ano_fabricacao", YearRule(env.currentYear))
  }

  /**
   * Exactly the out-of-range numbers become missing: an age over 200, a year
   * after the current one or before 1920. The limits themselves (200, 1920
   * and the current year) are kept.
   */
  lemma TreatOutliersEffect(env: Env, t: Table)
    requires WellFormed(t) && TreatOutliers(env, t).failure.None?
    ensures var r := TreatOutliers(env, t).table;
            && ("envolvido_idade" in t.names ==>
                  forall i :: 0 <= i < t.height ==>
                    Column(r, "envolvido_idade")[i] == Scrubbed(Column(t, "envolvido_idade")[i], AgeOutlier))
            && ("veiculo_ano_fabricacao" in t.names ==>
                  forall i :: 0 <= i < t.height ==>
                    var v := Column(t, "veiculo_ano_fabricacao")[i];
                    Column(r, "veiculo_ano_fabricacao")[i] ==
                      if CompareView(v).Number? && YearOutlier(env.currentYear, CompareView(v).x) then Null else v)
  {
    var s := ScrubStep(t, "envolvido_idade", AgeOutlier);
    assert "envolvido_idade" != "veiculo_ano_fabricacao";
    if "envolvido_idade" in t.names {
      forall i | 0 <= i < t.height
        ensures Column(TreatOutliers(env, t).table, "envolvido_idade")[i] == Scrubbed(Column(t, "envolvido_idade")[i], AgeOutlier)
      {
        assert Column(TreatOutliers(env, t).table, "envolvido_idade") == Column(s.table, "envolvido_idade");
      }
    }
  }

  /** The limits are inclusive: 200, 1920 and the current year are never outliers. */
  lemma OutlierLimits(currentYear: int)
    requires currentYear >= 1920
    ensures !AgeOutlier(200.0) && AgeOutlier(201.0)
    ensures !YearOutlier(currentYear, 1920.0) && YearOutlier(currentYear, 1919.0)
    ensures !YearOutlier(currentYear, currentYear as real) && YearOutlier(currentYear, currentYear as real + 1.0)
  {
  }

  /** No cell of `c` raises under a comparison or is selected by `bad`. */
  predicate InRange(c: Cells, bad: real -> bool) {
    forall i :: 0 <= i < |c| ==> !CompareView(c[i]).Invalid? && !(CompareView(c[i]).Number? && bad(CompareView(c[i]).x))
  }

  /** A rule finds nothing to do on a column already in range. */
  lemma ScrubOfInRange(t: Table, name: string, bad: real -> bool)
    requires WellFormed(t)
    requires name in t.names ==> InRange(Column(t, name), bad)
    ensures ScrubStep(t, name, bad) == Run(t, None)
  {
    if name in t.names {
      var c := Column(t, name);
      var m := Mask(c, bad);
      assert NullWhere(c, m.value) == c;
      SetColumnSame(t, name);
    }
  }

  /** After a rule that did not raise, its column is in range. */
  lemma ScrubLeavesInRange(t: Table, name: string, bad: real -> bool)
    requires WellFormed(t) && ScrubStep(t, name, bad).failure.None? && name in t.names
    ensures InRange(Column(ScrubStep(t, name, bad).table, name), bad)
  {
    var c := Column(t, name);
    var r := ScrubStep(t, name, bad).table;
    forall i | 0 <= i < t.height
      ensures !CompareView(Column(r, name)[i]).Invalid? && !(CompareView(Column(r, name)[i]).Number? && bad(CompareView(Column(r, name)[i]).x))
    {
      assert !CompareView(c[i]).Invalid?;
    }
  }

  /** Running the outlier stage again changes nothing: what is left is in range or missing. */
  lemma TreatOutliersIdempotent(env: Env, t: Table)
    requires WellFormed(t) && TreatOutliers(env, t).failure.None?
    ensures TreatOutliers(env, TreatOutliers(env, t).table) == Run(TreatOutliers(env, t).table, None)
  {
    var year := YearRule(env.currentYear);
    var s1 := ScrubStep(t, "envolvido_idade", AgeOutlier);
    var r := ScrubStep(s1.table, "veiculo_ano_fabricacao", year).table;
    assert TreatOutliers(env, t).table == r;
    assert "envolvido_idade" != "veiculo_ano_fabricacao";
    if "envolvido_idade" in t.names {
      ScrubLeavesInRange(t, "envolvido_idade", AgeOutlier);
      assert Column(r, "envolvido_idade") == Column(s1.table, "envolvido_idade");
    }
    ScrubOfInRange(r, "envolvido_idade", AgeOutlier);
    if "veiculo_ano_fabricacao" in t.names {
      ScrubLeavesInRange(s1.table, "veiculo_ano_fabricacao", year);
    }
    ScrubOfInRange(r, "veiculo_ano_fabricacao", year);
  }

  // ---- Stage 8: final trim and deduplication -----------------------------------------

  /** The trim loop over its eleven columns, then the "Não informado" loop over its two. */
  function FinalTrim(env: Env, t: Table): (r: Table)
    requires WellFormed(t)
    ensures WellFormed(r) && r.names == t.names && r.height == t.height
  {
    ApplyToColumns(env, ApplyToColumns(env, t, TrimText, TrimColumns), Informed, DefaultColumns)
  }

  /** The final trim on one column: the trim when it is listed, then the default when it is a key column. */
  lemma FinalTrimColumn(env: Env, t: Table, n: string)
    requires WellFormed(t) && n in t.names
    ensures var c1 := if n in TrimColumns then ApplyRule(env, TrimText, Column(t, n)) else Column(t, n);
            Column(FinalTrim(env, t), n) == if n in DefaultColumns then ApplyRule(env, Informed, c1) else c1
  {
    TrimListsDistinct();
    var trimmed := ApplyToColumns(env, t, TrimText, TrimColumns);
    ApplyToColumnsAt(env, t, TrimText, TrimColumns, n);
    ApplyToColumnsAt(env, trimmed, Informed, DefaultColumns, n);
  }

  /** A key column gets both rewrites, cell by cell. */
  lemma FinalTrimKey(env: Env, t: Table, n: string)
    requires WellFormed(t) && n in t.names && n in DefaultColumns
    ensures forall i :: 0 <= i < t.height ==>
              Column(FinalTrim(env, t), n)[i] == DefaultUnknown(TrimCell(env, Column(t, n)[i]))
  {
    FinalTrimColumn(env, t, n);
    DefaultsAreTrimmed();
    var c := Column(t, n);
    TrimCells(env, c);
    InformedCells(env, ApplyRule(env, TrimText, c));
  }

  /**
   * A missing cause or accident type reaches the output of the final trim as
   * the text "<NA>", not as "Não informado", when `str(pd.NA)` is "<NA>".
   */
  lemma MissingKeyCellStaysNA(env: Env, t: Table, n: string, i: int)
    requires WellFormed(t) && n in t.names && n in DefaultColumns && 0 <= i < t.height
    requires Column(t, n)[i].Null? && env.naText == "<NA>"
    ensures Column(FinalTrim(env, t), n)[i] == Str("<NA>")
  {
    FinalTrimKey(env, t, n);
    MissingRendersAsNA(env);
  }

  /** Another trimmed column gets the trim alone. */
  lemma FinalTrimTrimmed(env: Env, t: Table, n: string)
    requires WellFormed(t) && n in t.names && n in TrimColumns && n !in DefaultColumns
    ensures forall i :: 0 <= i < t.height ==> Column(FinalTrim(env, t), n)[i] == TrimCell(env, Column(t, n)[i])
  {
    FinalTrimColumn(env, t, n);
    TrimCells(env, Column(t, n));
  }

  /** Every other column is left as it was. */
  lemma FinalTrimOther(env: Env, t: Table, n: string)
    requires WellFormed(t) && n in t.names && n !in TrimColumns
    ensures Column(FinalTrim(env, t), n) == Column(t, n)
  {
    FinalTrimColumn(env, t, n);
    DefaultsAreTrimmed();
  }

  /** "Não informado" is itself a clean, informed value. */
  lemma UnknownIsClean()
    ensures Unknown != "" && IsStripped(Unknown) && Unknown !in FinalNullTokens
  {
  }

  /**
   * After the final trim every trimmed cell is missing or stripped text that
   * is not a null token, and the two key columns are never missing or empty.
   */
  lemma FinalTrimIsClean(env: Env, t: Table, n: string)
    requires WellFormed(t) && n in t.names && n in TrimColumns
    ensures forall i :: 0 <= i < t.height ==>
              var v := Column(FinalTrim(env, t), n)[i];
              && (v.Null? || (v.Str? && IsStripped(v.s) && v.s !in FinalNullTokens))
              && (n in DefaultColumns ==> v.Str? && v.s != "")
  {
    UnknownIsClean();
    if n in DefaultColumns {
      FinalTrimKey(env, t, n);
    } else {
      FinalTrimTrimmed(env, t, n);
    }
  }

  /** Stage 8: the final trim, then `drop_duplicates` into a new frame. */
  function CleanFinal(env: Env, t: Table): (r: Table)
    requires WellFormed(t)
    ensures WellFormed(r) && r.names == t.names && r.height <= t.height
  {
    Dedup.UniqueNoLonger(Rows(FinalTrim(env, t)));
    Deduplicated(FinalTrim(env, t))
  }

  /**
   * The stage's rows are the distinct rows of the trimmed table: none twice,
   * none lost, none made up.
   */
  lemma CleanFinalRows(env: Env, t: Table)
    requires WellFormed(t)
    ensures Dedup.NoDuplicates(Rows(CleanFinal(env, t)))
    ensures forall row :: row in Rows(CleanFinal(env, t)) <==> row in Rows(FinalTrim(env, t))
  {
    Dedup.UniqueHasNoDuplicates(Rows(FinalTrim(env, t)));
    Dedup.UniqueKeepsEveryRow(Rows(FinalTrim(env, t)));
  }

  /** Every cell of a deduplicated column comes from the same column before. */
  lemma DeduplicatedCellOrigin(t: Table, n: string, i: nat)
    requires WellFormed(t) && n in t.names && i < Deduplicated(t).height
    ensures exists j :: 0 <= j < t.height && Column(Deduplicated(t), n)[i] == Column(t, n)[j]
  {
    var r := Deduplicated(t);
    var k := IndexOf(t.names, n);
    Dedup.UniqueKeepsEveryRow(Rows(t));
    var row := Rows(r)[i];
    assert row in Rows(t);
    var j :| 0 <= j < t.height && Rows(t)[j] == row;
    assert Column(r, n)[i] == RowAt(r, i)[k] == RowAt(t, j)[k] == Column(t, n)[j];
  }

  /** After deduplication too, the key columns hold no missing or empty cell. */
  lemma CleanFinalInformed(env: Env, t: Table, n: string)
    requires WellFormed(t) && n in t.names && n in DefaultColumns
    ensures forall i :: 0 <= i < CleanFinal(env, t).height ==>
              Column(CleanFinal(env, t), n)[i].Str? && Column(CleanFinal(env, t), n)[i].s != ""
  {
    var trimmed := FinalTrim(env, t);
    assert n in TrimColumns;
    FinalTrimIsClean(env, t, n);
    forall i | 0 <= i < CleanFinal(env, t).height
      ensures Column(CleanFinal(env, t), n)[i].Str? && Column(CleanFinal(env, t), n)[i].s != ""
    {
      DeduplicatedCellOrigin(trimmed, n, i);
    }
  }

  // ---- Stage 9: the output schema ---------------------------------------------------

  /** The loop that adds each listed column that is missing, filled with missing cells. */
  function AddMissing(t: Table, cs: seq<string>): (r: Table)
    requires WellFormed(t)
    ensures WellFormed(r) && r.height == t.height
    ensures forall n :: n in r.names <==> n in t.names || n in cs
    ensures forall n :: n in t.names ==> Column(r, n) == Column(t, n)
    ensures forall n :: n in cs && n !in t.names ==> Column(r, n) == Nulls(t.height)
    decreases |cs|
  {
    if cs == [] then t
    else
      var r0 := AddMissing(t, cs[..|cs| - 1]);
      var c := cs[|cs| - 1];
      assert forall n :: n in cs <==> n in cs[..|cs| - 1] || n == c;
      if c in r0.names then r0 else SetColumn(r0, c, Nulls(t.height))
  }

  /** Stage 9: the 45 output columns in their order, the absent ones all missing. */
  function Projection(t: Table): (r: Table)
    requires WellFormed(t)
    ensures WellFormed(r) && r.names == RequiredColumns && r.height == t.height
    ensures forall n :: n in RequiredColumns ==>
              Column(r, n) == if n in t.names then Column(t, n) else Nulls(t.height)
  {
    RequiredColumnsDistinct();
    SelectColumns(AddMissing(t, RequiredColumns), RequiredColumns)
  }

  /** A table whose names are all already listed is its own selection in that order. */
  lemma SelectAllIsIdentity(t: Table)
    requires WellFormed(t)
    ensures SelectColumns(t, t.names) == t
  {
    var r := SelectColumns(t, t.names);
    forall k | 0 <= k < |t.names| ensures r.cols[k] == t.cols[k] {
      ColumnAt(r, k);
      ColumnAt(t, k);
    }
  }

  /** Projecting an already projected table changes nothing. */
  lemma ProjectionIdempotent(t: Table)
    requires WellFormed(t)
    ensures Projection(Projection(t)) == Projection(t)
  {
    var p := Projection(t);
    var a := AddMissing(p, RequiredColumns);
    AddMissingOfPresent(p, RequiredColumns);
    SelectAllIsIdentity(p);
  }

  /** Adding columns that are all present already changes nothing. */
  lemma {:induction false} AddMissingOfPresent(t: Table, cs: seq<string>)
    requires WellFormed(t) && forall n :: n in cs ==> n in t.names
    ensures AddMissing(t, cs) == t
    decreases |cs|
  {
    if cs != [] {
      AddMissingOfPresent(t, cs[..|cs| - 1]);
    }
  }
}
