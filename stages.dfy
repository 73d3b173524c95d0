/**
 * What each of the nine stages does to the table, as functions of the table
 * before it, and the composition of all nine. The methods of `Transformer`
 * are proved to change a frame exactly as these say.
 */
module Stages {
  import opened Wrappers
  import opened Text
  import opened Values
  import opened Tables
  import opened Cleaning
  import opened Rules
  import opened Schema
  import Dedup

  // ---- Per-column rules ------------------------------------------------------

  /** `f` applied to every cell of a column. */
  function MapCells(c: Cells, f: Value -> Value): (r: Cells)
    ensures |r| == |c|
    ensures forall i :: 0 <= i < |c| ==> r[i] == f(c[i])
  {
    seq(|c|, i requires 0 <= i < |c| => f(c[i]))
  }

  /** The column-at-a-time rewrites the stages apply by column name. */
  datatype ColumnRule =
    | Normalize   // the whole-table pre-clean
    | ToInt64     // `pd.to_numeric(errors="coerce")` then `astype("Int64")`
    | ToFloat64   // `astype("Float64")`
    | ToText      // `astype("string")`
    | ToDate      // `data_inversa` parsed as a date
    | ToTime      // `horario` parsed as a time of day
    | LandUse     // `uso_solo` de-para
    | Weather     // `condicao_meteorologica` de-para
    | TrimText    // final strip and null tokens
    | Informed    // missing or empty becomes "Não informado"

  /** Every number of the column, after `to_numeric`, is a whole number. */
  predicate AllIntegral(c: Cells) {
    forall i :: 0 <= i < |c| && ToNumeric(c[i]).Some? ==> IsIntegral(ToNumeric(c[i]).value)
  }

  /**
   * `to_numeric` then `astype("Int64")`: when a number is not whole the cast
   * raises, the error is swallowed and the column keeps the float numbers.
   */
  function Int64Column(c: Cells): (r: Cells)
    ensures |r| == |c|
  {
    if AllIntegral(c) then
      MapCells(c, v => if ToNumeric(v).Some? then Int(ToNumeric(v).value.Floor) else Null)
    else
      MapCells(c, v => if ToNumeric(v).Some? then Float(ToNumeric(v).value) else Null)
  }

  /** Every cell allows `astype("Float64")`. */
  predicate AllFloatable(c: Cells) {
    forall i :: 0 <= i < |c| ==> CastToFloat(c[i]) != Invalid
  }

  /** `astype("Float64")`: all cells or none; a cell that refuses leaves the column as it was. */
  function Float64Column(c: Cells): (r: Cells)
    ensures |r| == |c|
  {
    if AllFloatable(c) then
      MapCells(c, v => if CastToFloat(v).Number? then Float(CastToFloat(v).x) else Null)
    else c
  }

  /**
   * `pd.to_datetime(s.astype(str).str.strip(), format="%Y-%m-%d", errors="coerce")`
   * on one cell; a missing cell here is the pre-clean's `pd.NA`.
   */
  function DateCell(env: Env, v: Value): (r: Value)
    ensures r.Null? || r.Date?
  {
    var d := env.parseDate(Strip(Render(Written(env), v)));
    if d.Some? then Date(d.value) else Null
  }

  /** The time-of-day parse of `horario` on one cell; a missing cell here is the pre-clean's `pd.NA`. */
  function TimeCell(env: Env, v: Value): (r: Value)
    ensures r.Null? || r.Time?
  {
    var t := env.parseTime(Strip(Render(Written(env), v)));
    if t.Some? then Time(t.value) else Null
  }

  function ApplyRule(env: Env, rule: ColumnRule, c: Cells): (r: Cells)
    ensures |r| == |c|
  {
    match rule
    case Normalize => MapCells(c, v => NormalizeCell(env, v))
    case ToInt64 => Int64Column(c)
    case ToFloat64 => Float64Column(c)
    case ToText => MapCells(c, v => AsString(env, v))
    case ToDate => MapCells(c, v => DateCell(env, v))
    case ToTime => MapCells(c, v => TimeCell(env, v))
    case LandUse => MapCells(c, v => UsoSolo(env, v))
    case Weather => MapCells(c, v => CondicaoMeteorologica(v))
    case TrimText => MapCells(c, v => TrimCell(env, v))
    case Informed => MapCells(c, v => DefaultUnknown(v))
  }

  /** `if name in df.columns: df[name] = rule(df[name])`. */
  function ApplyToColumn(env: Env, t: Table, rule: ColumnRule, name: string): (r: Table)
    requires WellFormed(t)
    ensures WellFormed(r) && r.names == t.names && r.height == t.height
    ensures forall n :: n in t.names ==>
              Column(r, n) == if n == name then ApplyRule(env, rule, Column(t, n)) else Column(t, n)
  {
    if name in t.names then SetColumn(t, name, ApplyRule(env, rule, Column(t, name))) else t
  }

  /** `for name in names: if name in df.columns: df[name] = rule(df[name])`. */
  function ApplyToColumns(env: Env, t: Table, rule: ColumnRule, names: seq<string>): (r: Table)
    requires WellFormed(t)
    ensures WellFormed(r) && r.names == t.names && r.height == t.height
    decreases |names|
  {
    if names == [] then t
    else ApplyToColumn(env, ApplyToColumns(env, t, rule, names[..|names| - 1]), rule, names[|names| - 1])
  }

  /**
   * A listed column gets the rule once, every other column is left as it
   * was; the labels and their order never change.
   */
  lemma {:induction false} ApplyToColumnsEffect(env: Env, t: Table, rule: ColumnRule, names: seq<string>)
    requires WellFormed(t) && Distinct(names)
    ensures forall n :: n in t.names ==>
              Column(ApplyToColumns(env, t, rule, names), n) ==
              if n in names then ApplyRule(env, rule, Column(t, n)) else Column(t, n)
    decreases |names|
  {
    if names != [] {
      var init := names[..|names| - 1];
      var last := names[|names| - 1];
      assert Distinct(init);
      ApplyToColumnsEffect(env, t, rule, init);
      assert names == init + [last];
      assert last !in init;
      forall n | n in t.names
        ensures Column(ApplyToColumns(env, t, rule, names), n) ==
                if n in names then ApplyRule(env, rule, Column(t, n)) else Column(t, n)
      {
        assert n in names <==> n in init || n == last;
      }
    }
  }

  /** `ApplyToColumnsEffect` for one column. */
  lemma ApplyToColumnsAt(env: Env, t: Table, rule: ColumnRule, names: seq<string>, n: string)
    requires WellFormed(t) && Distinct(names) && n in t.names
    ensures Column(ApplyToColumns(env, t, rule, names), n) ==
            if n in names then ApplyRule(env, rule, Column(t, n)) else Column(t, n)
  {
    ApplyToColumnsEffect(env, t, rule, names);
  }

  // ---- Stage 1: column pruning -------------------------------------------------

  function RemoveIrrelevant(t: Table): (r: Table)
    requires WellFormed(t)
    ensures WellFormed(r) && r.height == t.height && r.names == Kept(t.names, Irrelevant)
  {
    DropColumns(t, Irrelevant)
  }

  /** None of the six pruned columns survives; every other column keeps its place and cells. */
  lemma RemoveIrrelevantEffect(t: Table)
    requires WellFormed(t)
    ensures var r := RemoveIrrelevant(t);
            && (forall n :: n in r.names <==> n in t.names && n !in Irrelevant)
            && (forall n :: n in r.names ==> Column(r, n) == Column(t, n))
            && "dia_semana" !in r.names
  {
  }

  // ---- Stage 2: whole-table string pre-clean -----------------------------------

  function NormalizeStrings(env: Env, t: Table): (r: Table)
    requires WellFormed(t)
    ensures WellFormed(r) && r.names == t.names && r.height == t.height
  {
    ApplyToColumns(env, t, Normalize, t.names)
  }

  /** A table whose every cell is missing or clean text. */
  predicate AllClean(t: Table)
    requires WellFormed(t)
  {
    forall k, i :: 0 <= k < |t.cols| && 0 <= i < t.height ==>
      t.cols[k][i].Null? || (t.cols[k][i].Str? && IsClean(t.cols[k][i].s))
  }

  /**
   * After the pre-clean no cell is padded, empty, holds a comma or equals
   * one of the null tokens.
   */
  lemma NormalizeStringsIsClean(env: Env, t: Table)
    requires WellFormed(t)
    ensures AllClean(NormalizeStrings(env, t))
  {
    var r := NormalizeStrings(env, t);
    ApplyToColumnsEffect(env, t, Normalize, t.names);
    forall k, i | 0 <= k < |r.cols| && 0 <= i < r.height
      ensures r.cols[k][i].Null? || (r.cols[k][i].Str? && IsClean(r.cols[k][i].s))
    {
      ColumnAt(t, k);
      ColumnAt(r, k);
    }
  }

  /**
   * The pre-clean applied twice under the same rendering is the pre-clean
   * applied once, provided a missing cell renders as one of the null tokens
   * (as the raw input's NaN renders "nan"). The cells the pre-clean writes
   * are `pd.NA`, which renders as "<NA>" (see `Written`), so this is a fact
   * about the rule, not about running the source's stage twice.
   */
  lemma NormalizeStringsIdempotent(env: Env, t: Table)
    requires WellFormed(t)
    requires env.text(Null) in NullTokens
    ensures NormalizeStrings(env, NormalizeStrings(env, t)) == NormalizeStrings(env, t)
  {
    var r := NormalizeStrings(env, t);
    NormalizeStringsIsClean(env, t);
    var rr := NormalizeStrings(env, r);
    ApplyToColumnsEffect(env, r, Normalize, r.names);
    forall k | 0 <= k < |r.cols| ensures rr.cols[k] == r.cols[k] {
      ColumnAt(r, k);
      ColumnAt(rr, k);
      NormalizeCleanColumn(env, r.cols[k]);
    }
  }

  /** The pre-clean leaves a column of clean text and missing cells as it is. */
  lemma NormalizeCleanColumn(env: Env, c: Cells)
    requires env.text(Null) in NullTokens
    requires forall i :: 0 <= i < |c| ==> c[i].Null? || (c[i].Str? && IsClean(c[i].s))
    ensures ApplyRule(env, Normalize, c) == c
  {
    NormalizeCells(env, c);
    NormalizeTokensToNull(env, "", env.text(Null), "");
    assert "" + env.text(Null) + "" == env.text(Null);
    forall i | 0 <= i < |c| ensures ApplyRule(env, Normalize, c)[i] == c[i] {
      if c[i].Str? { NormalizeCleanIsIdentity(env, c[i].s); }
    }
  }

  /** The final trim trims each cell. */
  lemma TrimCells(env: Env, c: Cells)
    ensures forall i :: 0 <= i < |c| ==> ApplyRule(env, TrimText, c)[i] == TrimCell(env, c[i])
  {
  }

  /** The default fills each cell. */
  lemma InformedCells(env: Env, c: Cells)
    ensures forall i :: 0 <= i < |c| ==> ApplyRule(env, Informed, c)[i] == DefaultUnknown(c[i])
  {
  }

  /** The pre-clean cleans each cell. */
  lemma NormalizeCells(env: Env, c: Cells)
    ensures forall i :: 0 <= i < |c| ==> ApplyRule(env, Normalize, c)[i] == NormalizeCell(env, c[i])
  {
  }

  // ---- Stage 3: typed parsing ----------------------------------------------------

  function ConvertDataTypes(env: Env, t: Table): (r: Table)
    requires WellFormed(t)
    ensures WellFormed(r) && r.names == t.names && r.height == t.height
  {
    var ints := ApplyToColumns(env, t, ToInt64, IntColumns);
    var floats := ApplyToColumns(env, ints, ToFloat64, FloatColumns);
    var texts := ApplyToColumns(env, floats, ToText, StrColumns);
    var dates := ApplyToColumn(env, texts, ToDate, "data_inversa");
    ApplyToColumn(env, dates, ToTime, "horario")
  }

  /**
   * The integer pass keeps every number exactly and loses every non-number;
   * the column holds integers precisely when every number was whole.
   */
  lemma Int64ColumnKeepsNumbers(c: Cells)
    ensures var r := Int64Column(c);
            && (forall i :: 0 <= i < |c| ==> ToNumeric(r[i]) == ToNumeric(c[i]))
            && (AllIntegral(c) <==> forall i :: 0 <= i < |c| ==> r[i].Null? || r[i].Int?)
  {
    var r := Int64Column(c);
    if !AllIntegral(c) {
      var i :| 0 <= i < |c| && ToNumeric(c[i]).Some? && !IsIntegral(ToNumeric(c[i]).value);
      assert r[i].Float?;
    }
  }

  /** The three list passes of the typed parsing stage, on one column. */
  lemma ListPassesAt(env: Env, t: Table, n: string)
    requires WellFormed(t) && n in t.names
    ensures var texts := ApplyToColumns(env, ApplyToColumns(env, ApplyToColumns(env, t, ToInt64, IntColumns),
                                                           ToFloat64, FloatColumns), ToText, StrColumns);
            var c1 := if n in IntColumns then ApplyRule(env, ToInt64, Column(t, n)) else Column(t, n);
            var c2 := if n in FloatColumns then ApplyRule(env, ToFloat64, c1) else c1;
            Column(texts, n) == if n in StrColumns then ApplyRule(env, ToText, c2) else c2
  {
    ListsDistinct();
    var ints := ApplyToColumns(env, t, ToInt64, IntColumns);
    var floats := ApplyToColumns(env, ints, ToFloat64, FloatColumns);
    ApplyToColumnsAt(env, t, ToInt64, IntColumns, n);
    ApplyToColumnsAt(env, ints, ToFloat64, FloatColumns, n);
    ApplyToColumnsAt(env, floats, ToText, StrColumns, n);
  }

  /** The typed parsing stage is the three list passes followed by the date and the time parse. */
  lemma ConvertSplit(env: Env, t: Table) returns (texts: Table)
    requires WellFormed(t)
    ensures texts == ApplyToColumns(env, ApplyToColumns(env, ApplyToColumns(env, t, ToInt64, IntColumns),
                                                        ToFloat64, FloatColumns), ToText, StrColumns)
    ensures WellFormed(texts) && texts.names == t.names
    ensures var dates := ApplyToColumn(env, texts, ToDate, "data_inversa");
            ConvertDataTypes(env, t) == ApplyToColumn(env, dates, ToTime, "horario")
    ensures forall n :: n in t.names && n != "data_inversa" && n != "horario" ==>
              Column(ConvertDataTypes(env, t), n) == Column(texts, n)
  {
    texts := ApplyToColumns(env, ApplyToColumns(env, ApplyToColumns(env, t, ToInt64, IntColumns),
                                                ToFloat64, FloatColumns), ToText, StrColumns);
  }

  /** Every listed text column holds only text and missing cells. */
  lemma ConvertTextColumns(env: Env, t: Table)
    requires WellFormed(t)
    ensures forall n, i :: n in t.names && n in StrColumns && 0 <= i < t.height ==>
              Column(ConvertDataTypes(env, t), n)[i].Null? || Column(ConvertDataTypes(env, t), n)[i].Str?
  {
    forall n, i | n in t.names && n in StrColumns && 0 <= i < t.height
      ensures Column(ConvertDataTypes(env, t), n)[i].Null? || Column(ConvertDataTypes(env, t), n)[i].Str?
    {
      ConvertTextCell(env, t, n, i);
    }
  }

  lemma ConvertTextCell(env: Env, t: Table, n: string, i: nat)
    requires WellFormed(t) && n in t.names && n in StrColumns && i < t.height
    ensures Column(ConvertDataTypes(env, t), n)[i].Null? || Column(ConvertDataTypes(env, t), n)[i].Str?
  {
    var texts := ConvertSplit(env, t);
    DateUnlisted();
    TimeUnlisted();
    ListPassesAt(env, t, n);
    var c1 := if n in IntColumns then ApplyRule(env, ToInt64, Column(t, n)) else Column(t, n);
    var c2 := if n in FloatColumns then ApplyRule(env, ToFloat64, c1) else c1;
    TextCells(env, c2);
  }

  /** The text cast renders each cell. */
  lemma TextCells(env: Env, c: Cells)
    ensures forall i :: 0 <= i < |c| ==> ApplyRule(env, ToText, c)[i] == AsString(env, c[i])
  {
  }

  /** An integer column that is not also a text column keeps every number exactly. */
  lemma ConvertIntColumns(env: Env, t: Table)
    requires WellFormed(t)
    ensures forall n, i :: n in t.names && n in IntColumns && n !in StrColumns && 0 <= i < t.height ==>
              ToNumeric(Column(ConvertDataTypes(env, t), n)[i]) == ToNumeric(Column(t, n)[i])
  {
    var texts := ConvertSplit(env, t);
    ListsApart();
    forall n, i | n in t.names && n in IntColumns && n !in StrColumns && 0 <= i < t.height
      ensures ToNumeric(Column(ConvertDataTypes(env, t), n)[i]) == ToNumeric(Column(t, n)[i])
    {
      ListPassesAt(env, t, n);
      Int64ColumnKeepsNumbers(Column(t, n));
      assert Column(texts, n) == Int64Column(Column(t, n));
    }
  }

  /** `data_inversa` holds dates or missing cells. */
  lemma ConvertDates(env: Env, t: Table)
    requires WellFormed(t) && "data_inversa" in t.names
    ensures forall i :: 0 <= i < t.height ==>
              Column(ConvertDataTypes(env, t), "data_inversa")[i].Null? ||
              Column(ConvertDataTypes(env, t), "data_inversa")[i].Date?
  {
    var texts := ConvertSplit(env, t);
    var dates := ApplyToColumn(env, texts, ToDate, "data_inversa");
    var r := ApplyToColumn(env, dates, ToTime, "horario");
    var c := ApplyRule(env, ToDate, Column(texts, "data_inversa"));
    assert Column(r, "data_inversa") == c;
    DateCells(env, Column(texts, "data_inversa"));
  }

  /** The date parse parses each cell. */
  lemma DateCells(env: Env, c: Cells)
    ensures forall i :: 0 <= i < |c| ==> ApplyRule(env, ToDate, c)[i] == DateCell(env, c[i])
  {
  }

  /** `horario` holds times of day or missing cells. */
  lemma ConvertTimes(env: Env, t: Table)
    requires WellFormed(t) && "horario" in t.names
    ensures forall i :: 0 <= i < t.height ==>
              Column(ConvertDataTypes(env, t), "horario")[i].Null? ||
              Column(ConvertDataTypes(env, t), "horario")[i].Time?
  {
    var texts := ConvertSplit(env, t);
    var dates := ApplyToColumn(env, texts, ToDate, "data_inversa");
    var r := ApplyToColumn(env, dates, ToTime, "horario");
    var c := ApplyRule(env, ToTime, Column(dates, "horario"));
    assert Column(r, "horario") == c;
    TimeCells(env, Column(dates, "horario"));
  }

  /** The time parse parses each cell. */
  lemma TimeCells(env: Env, c: Cells)
    ensures forall i :: 0 <= i < |c| ==> ApplyRule(env, ToTime, c)[i] == TimeCell(env, c[i])
  {
  }

  /** Columns on none of the lists come through the typed parsing stage untouched. */
  lemma ConvertLeavesOthers(env: Env, t: Table)
    requires WellFormed(t)
    ensures forall n :: n in t.names && n !in IntColumns && n !in FloatColumns && n !in StrColumns &&
                        n != "data_inversa" && n != "horario" ==>
              Column(ConvertDataTypes(env, t), n) == Column(t, n)
  {
    var texts := ConvertSplit(env, t);
    forall n | n in t.names && n !in IntColumns && n !in FloatColumns && n !in StrColumns &&
               n != "data_inversa" && n != "horario"
    {
      ListPassesAt(env, t, n);
    }
  }

  /**
   * `br` is parsed as an integer before it is cast to text: when every
   * number in it is whole, each cell ends up as the decimal text of its
   * integer ("007" becomes "7"), or missing when it was not a number.
   */
  lemma BrBecomesIntegerText(env: Env, t: Table)
    requires WellFormed(t) && "br" in t.names && AllIntegral(Column(t, "br"))
    ensures forall i :: 0 <= i < t.height ==>
              Column(ConvertDataTypes(env, t), "br")[i] ==
              if ToNumeric(Column(t, "br")[i]).Some? then Str(IntText(ToNumeric(Column(t, "br")[i]).value.Floor))
              else Null
  {
    var texts := ConvertSplit(env, t);
    BrIsIntegerThenText();
    NumberListsApart();
    ListPassesAt(env, t, "br");
    var c := Column(t, "br");
    Int64Cells(c);
    TextCells(env, Int64Column(c));
  }

  /** The integer pass on a column of whole numbers. */
  lemma Int64Cells(c: Cells)
    requires AllIntegral(c)
    ensures forall i :: 0 <= i < |c| ==>
              Int64Column(c)[i] == if ToNumeric(c[i]).Some? then Int(ToNumeric(c[i]).value.Floor) else Null
  {
  }

  // ---- Stage 4: renaming --------------------------------------------------------

  /** No two columns end up with the same label (the map sends "marca" onto "veiculo_marca_modelo"). */
  predicate RenameSafe(names: seq<string>) {
    Distinct(Renamed(names, RenameMap))
  }

  function RenameStage(t: Table): (r: Table)
    requires WellFormed(t) && RenameSafe(t.names)
    ensures WellFormed(r) && r.height == t.height && r.names == Renamed(t.names, RenameMap)
  {
    RenameColumns(t, RenameMap)
  }

  // ---- Stage 5: value recoding --------------------------------------------------

  function DePara(env: Env, t: Table): (r: Table)
    requires WellFormed(t)
    ensures WellFormed(r) && r.names == t.names && r.height == t.height
  {
    ApplyToColumn(env, ApplyToColumn(env, t, LandUse, "uso_solo"), Weather, "condicao_meteorologica")
  }

  /**
   * `uso_solo` reads "Urbano" for "Sim" and "Rural" for "Não", no weather
   * cell is the bare "Ceu", and no other column changes.
   */
  lemma DeParaEffect(env: Env, t: Table)
    requires WellFormed(t)
    ensures var r := DePara(env, t);
            && (forall i :: "uso_solo" in t.names && 0 <= i < t.height ==>
                  Column(r, "uso_solo")[i] == UsoSolo(env, Column(t, "uso_solo")[i]))
            && (forall i :: "condicao_meteorologica" in t.names && 0 <= i < t.height ==>
                  Column(r, "condicao_meteorologica")[i] == CondicaoMeteorologica(Column(t, "condicao_meteorologica")[i]))
            && (forall n :: n in t.names && n != "uso_solo" && n != "condicao_meteorologica" ==>
                  Column(r, n) == Column(t, n))
  {
    var t1 := ApplyToColumn(env, t, LandUse, "uso_solo");
    var r := DePara(env, t);
    assert "uso_solo" != "condicao_meteorologica";
    if "uso_solo" in t.names {
      var c := Column(t, "uso_solo");
      assert Column(r, "uso_solo") == Column(t1, "uso_solo") == MapCells(c, v => UsoSolo(env, v));
    }
    if "condicao_meteorologica" in t.names {
      var c := Column(t1, "condicao_meteorologica");
      assert c == Column(t, "condicao_meteorologica");
      assert Column(r, "condicao_meteorologica") == MapCells(c, v => CondicaoMeteorologica(v));
    }
  }
}
