/**
 * The value-to-value rules of the derived-column stage and the de-para
 * recodings, with the fixed lookup tables they use.
 */
module Rules {
  import opened Wrappers
  import opened Text
  import opened Values

  /** State code to full state name. */
  const UfToLocalidade: map<string, string> := map[
    "AC" := "Acre", "AL" := "Alagoas", "AP" := "Amapá", "AM" := "Amazonas",
    "BA" := "Bahia", "CE" := "Ceará", "DF" := "Distrito Federal", "ES" := "Espírito Santo",
    "GO" := "Goiás", "MA" := "Maranhão", "MT" := "Mato Grosso", "MS" := "Mato Grosso do Sul",
    "MG" := "Minas Gerais", "PA" := "Pará", "PB" := "Paraíba", "PR" := "Paraná",
    "PE" := "Pernambuco", "PI" := "Piauí", "RJ" := "Rio de Janeiro", "RN" := "Rio Grande do Norte",
    "RS" := "Rio Grande do Sul", "RO" := "Rondônia", "RR" := "Roraima", "SC" := "Santa Catarina",
    "SP" := "São Paulo", "SE" := "Sergipe", "TO" := "Tocantins"]

  /** State code to macro-region. */
  const UfToRegiao: map<string, string> := map[
    "AC" := "Norte", "AL" := "Nordeste", "AP" := "Norte", "AM" := "Norte",
    "BA" := "Nordeste", "CE" := "Nordeste", "DF" := "Centro-Oeste", "ES" := "Sudeste",
    "GO" := "Centro-Oeste", "MA" := "Nordeste", "MT" := "Centro-Oeste", "MS" := "Centro-Oeste",
    "MG" := "Sudeste", "PA" := "Norte", "PB" := "Nordeste", "PR" := "Sul",
    "PE" := "Nordeste", "PI" := "Nordeste", "RJ" := "Sudeste", "RN" := "Nordeste",
    "RS" := "Sul", "RO" := "Norte", "RR" := "Norte", "SC" := "Sul",
    "SP" := "Sudeste", "SE" := "Nordeste", "TO" := "Norte"]

  const Regioes: set<string> := {"Norte", "Nordeste", "Centro-Oeste", "Sudeste", "Sul"}

  /** Weekday index (Monday is 0) to weekday name. */
  const DiasSemana: map<int, string> := map[
    0 := "Segunda-feira", 1 := "Terça-feira", 2 := "Quarta-feira", 3 := "Quinta-feira",
    4 := "Sexta-feira", 5 := "Sábado", 6 := "Domingo"]

  /** Both state tables cover the same 27 codes, and every region is one of the five. */
  lemma StateTablesAgree()
    ensures UfToLocalidade.Keys == UfToRegiao.Keys
    ensures forall uf :: uf in UfToRegiao ==> UfToRegiao[uf] in Regioes
  {
  }

  /** `Series.map(table)` on one cell: a known key gives its entry, anything else is missing. */
  function LookupUf(table: map<string, string>, v: Value): (r: Value)
    ensures r.Str? <==> v.Str? && v.s in table
    ensures r.Str? ==> r.s == table[v.s]
    ensures r.Null? || r.Str?
  {
    if v.Str? && v.s in table then Str(table[v.s]) else Null
  }

  // ---- Route -------------------------------------------------------------

  /** `mescla_rodovia`: "BR-" in front of the route text, with one "0" between when that text is shorter than 3. */
  function MesclaRodovia(env: Env, v: Value): (r: Value)
    ensures v.Null? <==> r.Null?
    ensures r.Str? ==> |r.s| >= 4 && r.s[..3] == "BR-" && IsStripped(r.s)
  {
    if v.Null? then Null
    else
      var s := Strip(Render(env, v));
      var r := if |s| < 3 then "BR-0" + s else "BR-" + s;
      assert r[|r| - 1] == if s == [] then (if |s| < 3 then '0' else '-') else s[|s| - 1];
      Str(r)
  }

  /**
   * `extrair_numero_rodovia`: the text after the last "-" (`split("-")[-1]`),
   * missing when there is no "-" at all.
   */
  function ExtrairNumeroRodovia(env: Env, v: Value): (r: Value)
    ensures r.Null? || r.Str?
    ensures r.Str? ==> '-' !in r.s
  {
    if v.Null? then Null
    else
      var s := Strip(Render(env, v));
      var k := LastIndex(s, '-');
      if k < 0 then Null else Str(s[k + 1..])
  }

  /**
   * On already stripped text the number exists exactly when there is a "-",
   * and it is the suffix that follows the last one.
   */
  lemma NumeroIsTextAfterLastHyphen(env: Env, s: string)
    requires IsStripped(s)
    ensures ExtrairNumeroRodovia(env, Str(s)).Str? <==> '-' in s
    ensures var r := ExtrairNumeroRodovia(env, Str(s));
            r.Str? ==> |r.s| < |s| && s[|s| - |r.s| - 1] == '-' && s[|s| - |r.s|..] == r.s
  {
    StripOfStripped(s);
  }

  /** The route number after `mescla_rodovia` pads its route. */
  function PaddedDigits(d: string): string {
    if |d| < 3 then "0" + d else d
  }

  /**
   * A route written as digits becomes "BR-" followed by the digits with at
   * most one leading "0" added, and its number is exactly that padded text.
   */
  lemma RouteOfDigits(env: Env, d: string)
    requires d != [] && AllDigits(d)
    ensures MesclaRodovia(env, Str(d)) == Str("BR-" + PaddedDigits(d))
    ensures ExtrairNumeroRodovia(env, MesclaRodovia(env, Str(d))) == Str(PaddedDigits(d))
    ensures |PaddedDigits(d)| == if |d| < 3 then |d| + 1 else |d|
  {
    assert IsStripped(d);
    StripOfStripped(d);
    var p := PaddedDigits(d);
    assert AllDigits(p) by {
      if |d| < 3 {
        forall k | 0 <= k < |p| ensures IsDigit(p[k]) {
          if k > 0 { assert p[k] == d[k - 1]; }
        }
      }
    }
    forall k | 0 <= k < |p| ensures p[k] != '-' {
      assert IsDigit(p[k]);
    }
    assert !IsSpace(p[|p| - 1]) by { assert IsDigit(p[|p| - 1]); }
    assert Strip(Render(env, Str(d))) == d;
    if |d| < 3 { assert "BR-0" + d == "BR-" + p; }
    NumeroOfRoute(env, p);
  }

  /** The number of "BR-" followed by hyphen-free text is that text. */
  lemma NumeroOfRoute(env: Env, p: string)
    requires p != [] && !IsSpace(p[|p| - 1])
    requires '-' !in p
    ensures ExtrairNumeroRodovia(env, Str("BR-" + p)) == Str(p)
  {
    var r := "BR-" + p;
    assert r[0] == 'B' && r[|r| - 1] == p[|p| - 1];
    StripOfStripped(r);
    forall k | 3 <= k < |r| ensures r[k] != '-' {
      assert r[k] == p[k - 3];
    }
    assert r[2] == '-';
    var k := LastIndex(r, '-');
    assert k == 2;
    assert r[3..] == p;
  }

  /**
   * A one-digit route gets a single "0": route "1" is "BR-01" with number
   * "01", never a three-digit "001".
   */
  lemma SingleDigitRoute(env: Env, c: char)
    requires IsDigit(c)
    ensures MesclaRodovia(env, Str([c])) == Str(['B', 'R', '-', '0', c])
    ensures ExtrairNumeroRodovia(env, MesclaRodovia(env, Str([c]))) == Str(['0', c])
  {
    RouteOfDigits(env, [c]);
    assert "BR-" + PaddedDigits([c]) == ['B', 'R', '-', '0', c];
  }

  /** Every formatted route has a number. */
  lemma FormattedRouteHasNumber(env: Env, v: Value)
    requires !v.Null?
    ensures ExtrairNumeroRodovia(env, MesclaRodovia(env, v)).Str?
  {
    var r := MesclaRodovia(env, v);
    assert r.s[2] == r.s[..3][2] == '-';
    NumeroIsTextAfterLastHyphen(env, r.s);
  }

  // ---- Hour and weekday buckets -------------------------------------------

  /** `period_of_day` once the hour is an integer. */
  function PeriodOfDay(h: int): string {
    if 0 <= h <= 5 then "Madrugada"
    else if 6 <= h <= 11 then "Manhã"
    else if 12 <= h <= 17 then "Tarde"
    else "Noite"
  }

  const DayParts: seq<string> := ["Madrugada", "Manhã", "Tarde", "Noite"]

  /** The day splits into four six-hour quarters; every other integer is night. */
  lemma {:induction false} PeriodOfDayByQuarter(h: int)
    ensures PeriodOfDay(h) == if 0 <= h < 24 then DayParts[h / 6] else "Noite"
  {
    if 0 <= h < 24 {
      assert 0 <= h / 6 < 4;
      assert h / 6 == 0 <==> h <= 5;
      assert h / 6 == 1 <==> 6 <= h <= 11;
      assert h / 6 == 2 <==> 12 <= h <= 17;
    }
  }

  /** The "Final de semana" / "Segunda à Sexta" lambda on one cell. */
  function PeriodoSemana(v: Value): (r: Value)
    ensures r.Null? || r.Str?
  {
    if v == Str("Domingo") || v == Str("Sábado") then Str("Final de semana")
    else if v in [Str("Segunda-feira"), Str("Terça-feira"), Str("Quarta-feira"), Str("Quinta-feira"), Str("Sexta-feira")]
    then Str("Segunda à Sexta")
    else Null
  }

  /**
   * The weekday names the derived stage writes are exactly the ones the week
   * period knows: indices 5 and 6 are the weekend, 0 to 4 the working week.
   */
  lemma PeriodoSemanaOfWeekday(w: int)
    requires 0 <= w < 7
    ensures w in DiasSemana
    ensures PeriodoSemana(Str(DiasSemana[w])) == Str(if w >= 5 then "Final de semana" else "Segunda à Sexta")
  {
  }

  /** Any other text, and a missing cell, has no week period. */
  lemma PeriodoSemanaOfOther(v: Value)
    requires forall w :: w in DiasSemana ==> v != Str(DiasSemana[w])
    ensures PeriodoSemana(v) == Null
  {
    assert v != Str(DiasSemana[0]) && v != Str(DiasSemana[1]) && v != Str(DiasSemana[2]);
    assert v != Str(DiasSemana[3]) && v != Str(DiasSemana[4]) && v != Str(DiasSemana[5]);
    assert v != Str(DiasSemana[6]);
  }

  // ---- Age buckets ---------------------------------------------------------

  /** `idade_to_faixa` once the age is an integer. */
  function FaixaEtariaAno(idade: int): Option<string> {
    if idade < 0 then None
    else if idade <= 9 then Some("0-9")
    else if idade <= 19 then Some("10-19")
    else if 20 <= idade <= 29 then Some("20-29")
    else if 30 <= idade <= 39 then Some("30-39")
    else if 40 <= idade <= 49 then Some("40-49")
    else if 50 <= idade <= 59 then Some("50-59")
    else if 60 <= idade <= 69 then Some("60-69")
    else if 70 <= idade <= 79 then Some("70-79")
    else if 80 <= idade <= 89 then Some("80-89")
    else if 90 <= idade <= 99 then Some("90-99")
    else Some("100+")
  }

  /** The label of the decade that starts at `10 * d`. */
  function DecadeLabel(d: nat): string {
    IntText(10 * d) + "-" + IntText(10 * d + 9)
  }

  /**
   * Every age from 0 to 99 falls in the decade that contains it, labelled
   * "<first>-<last>"; from 100 on the label is "100+"; negative ages have none.
   */
  lemma {:induction false} FaixaEtariaAnoByDecade(idade: int)
    ensures idade < 0 ==> FaixaEtariaAno(idade) == None
    ensures 0 <= idade <= 99 ==> FaixaEtariaAno(idade) == Some(DecadeLabel(idade / 10))
    ensures idade >= 100 ==> FaixaEtariaAno(idade) == Some("100+")
  {
    if 0 <= idade <= 49 {
      LowDecades(idade);
    } else if 50 <= idade <= 99 {
      HighDecades(idade);
    }
  }

  lemma LowDecades(idade: int)
    requires 0 <= idade <= 49
    ensures FaixaEtariaAno(idade) == Some(DecadeLabel(idade / 10))
  {
    EarlyDecadeLabels();
    MiddleDecadeLabels();
    if idade <= 9 { assert idade / 10 == 0; }
    else if idade <= 19 { assert idade / 10 == 1; }
    else if idade <= 29 { assert idade / 10 == 2; }
    else if idade <= 39 { assert idade / 10 == 3; }
    else { assert idade / 10 == 4; }
  }

  lemma HighDecades(idade: int)
    requires 50 <= idade <= 99
    ensures FaixaEtariaAno(idade) == Some(DecadeLabel(idade / 10))
  {
    MiddleDecadeLabels();
    LateDecadeLabels();
    if idade <= 59 { assert idade / 10 == 5; }
    else if idade <= 69 { assert idade / 10 == 6; }
    else if idade <= 79 { assert idade / 10 == 7; }
    else if idade <= 89 { assert idade / 10 == 8; }
    else { assert idade / 10 == 9; }
  }

  /** The labels of the first four decades, written out. */
  lemma EarlyDecadeLabels()
    ensures DecadeLabel(0) == "0-9" && DecadeLabel(1) == "10-19"
    ensures DecadeLabel(2) == "20-29" && DecadeLabel(3) == "30-39"
  {
  }

  /** The labels of the middle three decades, written out. */
  lemma MiddleDecadeLabels()
    ensures DecadeLabel(4) == "40-49" && DecadeLabel(5) == "50-59" && DecadeLabel(6) == "60-69"
  {
    assert DecadeLabel(4) == "40-49";
    assert DecadeLabel(5) == "50-59";
  }

  /** The labels of the last three decades, written out. */
  lemma LateDecadeLabels()
    ensures DecadeLabel(7) == "70-79" && DecadeLabel(8) == "80-89" && DecadeLabel(9) == "90-99"
  {
    assert DecadeLabel(7) == "70-79";
    assert DecadeLabel(8) == "80-89";
  }

  /** `idade_to_classe` once the age is an integer. */
  function FaixaEtariaClasse(idade: int): Option<string> {
    if idade < 0 then None
    else if idade <= 11 then Some("Criança")
    else if 12 <= idade <= 17 then Some("Adolescente")
    else if 18 <= idade <= 59 then Some("Adulto")
    else Some("Idoso")
  }

  /** Position of an age class in life order. */
  function ClasseRank(c: Option<string>): int {
    match c
    case Some("Criança") => 0
    case Some("Adolescente") => 1
    case Some("Adulto") => 2
    case Some("Idoso") => 3
    case _ => -1
  }

  /** An older person never gets an earlier age class. */
  lemma ClasseIsMonotone(a: int, b: int)
    requires 0 <= a <= b
    ensures 0 <= ClasseRank(FaixaEtariaClasse(a)) <= ClasseRank(FaixaEtariaClasse(b))
  {
  }

  /** The two age buckets agree: children are under 20, the elderly 60 or over. */
  lemma ClasseAgreesWithFaixa(idade: int)
    requires idade >= 0
    ensures FaixaEtariaClasse(idade) == Some("Criança") ==> FaixaEtariaAno(idade) in {Some("0-9"), Some("10-19")}
    ensures FaixaEtariaClasse(idade) == Some("Idoso") <==>
              FaixaEtariaAno(idade) in {Some("60-69"), Some("70-79"), Some("80-89"), Some("90-99"), Some("100+")}
  {
  }

  /**
   * A rule on a nullable integer cell, as `Series.apply` runs it: a missing
   * cell stays missing, `int(v)` must succeed (`None` when it raises), and the
   * rule's missing result is a missing cell.
   */
  function ApplyIntRule(rule: int -> Option<string>, v: Value): (r: Option<Value>)
    ensures v.Null? ==> r == Some(Null)
    ensures r.None? <==> !v.Null? && PyInt(v).None?
    ensures r.Some? ==> r.value.Null? || r.value.Str?
  {
    if v.Null? then Some(Null)
    else match PyInt(v)
      case None => None
      case Some(n) => Some(if rule(n).Some? then Str(rule(n).value) else Null)
  }

  // ---- Severity ------------------------------------------------------------

  /** First match wins: a death, then an injury, then exactly zero injuries. */
  function Gravidade(mortos: real, feridos: real): string {
    if mortos > 0.0 then "Com morto"
    else if feridos > 0.0 then "Com ferido"
    else if feridos == 0.0 then "Sem vítima"
    else "Não informado"
  }

  /** "Não informado" only for a non-positive death count and a negative injury count. */
  lemma GravidadeNaoInformado(mortos: real, feridos: real)
    ensures Gravidade(mortos, feridos) == "Não informado" <==> mortos <= 0.0 && feridos < 0.0
    ensures mortos >= 0.0 && feridos >= 0.0 ==> Gravidade(mortos, feridos) != "Não informado"
  {
  }

  /** `gravidade` of one row: both counts are null-filled to 0 before the rules run. */
  function GravidadeCell(mortos: Value, feridos: Value): Value {
    Str(Gravidade(NumericOrZero(mortos), NumericOrZero(feridos)))
  }

  /** A missing injury count reads as zero injuries, so a row without deaths is "Sem vítima". */
  lemma GravidadeOfMissingInjuries(mortos: Value)
    requires NumericOrZero(mortos) <= 0.0
    ensures GravidadeCell(mortos, Null) == Str("Sem vítima")
  {
  }

  /** Severity score, first match wins: death 13, pedestrian strike 6, injury 4, else 1. */
  function Ups(mortos: real, feridos: real, tipo: Value): int {
    if mortos > 0.0 then 13
    else if tipo == Str("Atropelamento") then 6
    else if feridos > 0.0 then 4
    else 1
  }

  /** The score takes one of four values, and a death beats a pedestrian strike. */
  lemma UpsRange(mortos: real, feridos: real, tipo: Value)
    ensures Ups(mortos, feridos, tipo) in {1, 4, 6, 13}
    ensures mortos > 0.0 ==> Ups(mortos, feridos, tipo) == 13
  {
  }

  /** The score and the severity label tell the same story. */
  lemma UpsAgreesWithGravidade(mortos: real, feridos: real, tipo: Value)
    ensures Ups(mortos, feridos, tipo) == 13 <==> Gravidade(mortos, feridos) == "Com morto"
    ensures Ups(mortos, feridos, tipo) == 4 ==> Gravidade(mortos, feridos) == "Com ferido"
    ensures Ups(mortos, feridos, tipo) == 1 ==> Gravidade(mortos, feridos) in {"Sem vítima", "Não informado"}
    ensures Gravidade(mortos, feridos) == "Com ferido" ==> Ups(mortos, feridos, tipo) in {4, 6}
  {
  }

  /** `ups` of one row: `sinistro_tipo` is compared as text, a missing one as "". */
  function UpsCell(mortos: Value, feridos: Value, tipo: Value): Value {
    Int(Ups(NumericOrZero(mortos), NumericOrZero(feridos), tipo))
  }

  // ---- De-para -------------------------------------------------------------

  /** Land use: "Sim" is urban, "Não" rural; then `astype("string")`. */
  function UsoSolo(env: Env, v: Value): (r: Value)
    ensures r.Null? <==> v.Null?
    ensures v == Str("Sim") ==> r == Str("Urbano")
    ensures v == Str("Não") ==> r == Str("Rural")
    ensures v.Str? && v.s != "Sim" && v.s != "Não" ==> r == v
  {
    if v == Str("Sim") then Str("Urbano")
    else if v == Str("Não") then Str("Rural")
    else AsString(env, v)
  }

  /** Weather: the whole value "Ceu" is respelt "Céu"; nothing else changes. */
  function CondicaoMeteorologica(v: Value): (r: Value)
    ensures r != Str("Ceu")
    ensures v == Str("Ceu") ==> r == Str("Céu")
    ensures v != Str("Ceu") ==> r == v
  {
    if v == Str("Ceu") then Str("Céu") else v
  }
}
