/**
 * The fixed column lists and the rename map of the transformation, with the
 * facts about them the stages rely on (no list names a column twice).
 */
module Schema {
  import opened Tables

  /** Dropped by the first stage. */
  const Irrelevant: seq<string> :=
    ["regional", "uop", "delegacia", "classificacao_acidente", "dia_semana", "fase_dia"]

  /** Parsed as numbers and, when every number is whole, stored as nullable integers. */
  const IntColumns: seq<string> :=
    ["id", "pesid", "id_veiculo", "idade", "ano_fabricacao_veiculo", "ordem_tipo_acidente",
     "br", "ilesos", "feridos_leves", "feridos_graves", "mortos"]

  /** Cast to nullable floats when every cell allows it. */
  const FloatColumns: seq<string> := ["km", "latitude", "longitude"]

  /** Cast to nullable text (after the integer pass, so `br` is integer text). */
  const StrColumns: seq<string> :=
    ["dia_semana", "uf", "municipio", "br", "causa_principal", "causa_acidente", "tipo_acidente",
     "fase_dia", "sentido_via", "condicao_metereologica", "tipo_pista", "tracado_via", "uso_solo",
     "veiculo_tipo", "veiculo_marca_modelo", "tipo_veiculo", "estado_fisico", "sexo"]

  /** Source label to target label; labels that are not keys stay as they are. */
  const RenameMap: map<string, string> := map[
    "ano_fabricacao_veiculo" := "veiculo_ano_fabricacao",
    "br" := "rodovia",
    "causa_acidente" := "sinistro_causa",
    "causa_principal" := "sinistro_causa_principal",
    "condicao_metereologica" := "condicao_meteorologica",
    "data_inversa" := "data",
    "estado_fisico" := "estado_fisico",
    "feridos_graves" := "feridos_graves",
    "feridos_leves" := "feridos_leves",
    "horario" := "horario",
    "id_veiculo" := "veiculo_id",
    "id" := "sinistro_id",
    "idade" := "envolvido_idade",
    "ilesos" := "ilesos",
    "km" := "quilometro",
    "latitude" := "latitude",
    "longitude" := "longitude",
    "marca" := "veiculo_marca_modelo",
    "mortos" := "mortos",
    "municipio" := "municipio",
    "pesid" := "id_envolvido",
    "ordem_tipo_acidente" := "sinistro_ordem_tipo",
    "sentido_via" := "via_sentido",
    "sexo" := "envolvido_sexo",
    "tipo_acidente" := "sinistro_tipo",
    "tipo_envolvido" := "envolvido_tipo",
    "tipo_pista" := "via_tipo",
    "tipo_veiculo" := "veiculo_tipo",
    "tracado_via" := "via_tracado",
    "uf" := "uf",
    "uso_solo" := "uso_solo"]

  /** Stripped, with the final null tokens made missing, by the last cleaning stage. */
  const TrimColumns: seq<string> :=
    ["uf", "via_sentido", "uso_solo", "sinistro_tipo", "sinistro_causa", "gravidade", "municipio",
     "condicao_meteorologica", "via_tipo", "via_tracado", "veiculo_marca_modelo"]

  /** Missing or empty cells become "Não informado" in these two. */
  const DefaultColumns: seq<string> := ["sinistro_causa", "sinistro_tipo"]

  // The output schema, in its order, written as the themes it is made of.
  const IdColumns: seq<string> := ["sinistro_id", "id_envolvido", "veiculo_id"]
  const TimeColumns: seq<string> :=
    ["data", "horario", "data_hora", "ano", "hora", "dia_semana", "periodo", "periodo_semana"]
  const PlaceColumns: seq<string> :=
    ["uf", "localidade", "regiao", "municipio", "rodovia", "rodovia_numero", "quilometro",
     "latitude", "longitude"]
  const CrashColumns: seq<string> :=
    ["sinistro_tipo", "sinistro_causa", "sinistro_causa_principal", "sinistro_ordem_tipo"]
  const RoadColumns: seq<string> :=
    ["condicao_meteorologica", "via_tipo", "via_tracado", "via_sentido", "uso_solo"]
  const PersonColumns: seq<string> :=
    ["envolvido_idade", "envolvido_sexo", "envolvido_tipo", "estado_fisico", "faixa_etaria_ano",
     "faixa_etaria_classe"]
  const VehicleColumns: seq<string> := ["veiculo_tipo", "veiculo_marca_modelo", "veiculo_ano_fabricacao"]
  const VictimColumns: seq<string> :=
    ["ilesos", "feridos_leves", "feridos_graves", "feridos", "mortos", "gravidade", "ups"]

  /** The columns of the output, in the output's order. */
  const RequiredColumns: seq<string> :=
    IdColumns + TimeColumns + PlaceColumns + CrashColumns + RoadColumns + PersonColumns +
    VehicleColumns + VictimColumns

  predicate Disjoint(a: seq<string>, b: seq<string>) {
    forall x :: x in a ==> x !in b
  }

  lemma DistinctConcat(a: seq<string>, b: seq<string>)
    requires Distinct(a) && Distinct(b) && Disjoint(a, b)
    ensures Distinct(a + b)
  {
    var c := a + b;
    forall i, j | 0 <= i < j < |c| ensures c[i] != c[j] {
      if i < |a| && j >= |a| {
        assert c[i] in a && c[j] == b[j - |a|];
      } else if i >= |a| {
        assert c[i] == b[i - |a|] && c[j] == b[j - |a|];
      }
    }
  }

  lemma DisjointConcat(a: seq<string>, b: seq<string>, c: seq<string>)
    requires Disjoint(a, c) && Disjoint(b, c)
    ensures Disjoint(a + b, c)
  {
  }

  // One lemma per theme: it shares no name with the themes before it.

  lemma PlaceIsNew()
    ensures Disjoint(IdColumns + TimeColumns, PlaceColumns)
  {
    assert Disjoint(IdColumns, PlaceColumns);
    assert Disjoint(TimeColumns, PlaceColumns);
    DisjointConcat(IdColumns, TimeColumns, PlaceColumns);
  }

  lemma CrashIsNew()
    ensures Disjoint(IdColumns + TimeColumns + PlaceColumns, CrashColumns)
  {
    assert Disjoint(IdColumns, CrashColumns);
    assert Disjoint(TimeColumns, CrashColumns);
    assert Disjoint(PlaceColumns, CrashColumns);
    DisjointConcat(IdColumns, TimeColumns, CrashColumns);
    DisjointConcat(IdColumns + TimeColumns, PlaceColumns, CrashColumns);
  }

  lemma RoadIsNew()
    ensures Disjoint(IdColumns + TimeColumns + PlaceColumns + CrashColumns, RoadColumns)
  {
    assert Disjoint(IdColumns, RoadColumns);
    assert Disjoint(TimeColumns, RoadColumns);
    assert Disjoint(PlaceColumns, RoadColumns);
    assert Disjoint(CrashColumns, RoadColumns);
    DisjointConcat(IdColumns, TimeColumns, RoadColumns);
    DisjointConcat(IdColumns + TimeColumns, PlaceColumns, RoadColumns);
    DisjointConcat(IdColumns + TimeColumns + PlaceColumns, CrashColumns, RoadColumns);
  }

  lemma PersonApartFromEarlyThemes()
    ensures Disjoint(IdColumns, PersonColumns) && Disjoint(TimeColumns, PersonColumns)
  {
  }

  lemma PersonApartFromLaterThemes()
    ensures Disjoint(PlaceColumns, PersonColumns) && Disjoint(CrashColumns, PersonColumns)
    ensures Disjoint(RoadColumns, PersonColumns)
  {
  }

  lemma PersonIsNew()
    ensures Disjoint(IdColumns + TimeColumns + PlaceColumns + CrashColumns + RoadColumns, PersonColumns)
  {
    PersonApartFromEarlyThemes();
    PersonApartFromLaterThemes();
    DisjointConcat(IdColumns, TimeColumns, PersonColumns);
    DisjointConcat(IdColumns + TimeColumns, PlaceColumns, PersonColumns);
    DisjointConcat(IdColumns + TimeColumns + PlaceColumns, CrashColumns, PersonColumns);
    DisjointConcat(IdColumns + TimeColumns + PlaceColumns + CrashColumns, RoadColumns, PersonColumns);
  }

  lemma VehicleIsNew()
    ensures Disjoint(IdColumns + TimeColumns + PlaceColumns + CrashColumns + RoadColumns + PersonColumns,
                     VehicleColumns)
  {
    assert Disjoint(IdColumns, VehicleColumns);
    assert Disjoint(TimeColumns, VehicleColumns);
    assert Disjoint(PlaceColumns, VehicleColumns);
    assert Disjoint(CrashColumns, VehicleColumns);
    assert Disjoint(RoadColumns, VehicleColumns);
    assert Disjoint(PersonColumns, VehicleColumns);
    DisjointConcat(IdColumns, TimeColumns, VehicleColumns);
    DisjointConcat(IdColumns + TimeColumns, PlaceColumns, VehicleColumns);
    DisjointConcat(IdColumns + TimeColumns + PlaceColumns, CrashColumns, VehicleColumns);
    DisjointConcat(IdColumns + TimeColumns + PlaceColumns + CrashColumns, RoadColumns, VehicleColumns);
    DisjointConcat(IdColumns + TimeColumns + PlaceColumns + CrashColumns + RoadColumns, PersonColumns,
                   VehicleColumns);
  }

  lemma VictimApartFromEarlyThemes()
    ensures Disjoint(IdColumns, VictimColumns) && Disjoint(TimeColumns, VictimColumns)
  {
  }

  lemma VictimApartFromPlaces()
    ensures Disjoint(PlaceColumns, VictimColumns)
  {
  }

  lemma VictimApartFromCrashAndRoad()
    ensures Disjoint(CrashColumns, VictimColumns) && Disjoint(RoadColumns, VictimColumns)
  {
  }

  lemma VictimApartFromPeople()
    ensures Disjoint(PersonColumns, VictimColumns) && Disjoint(VehicleColumns, VictimColumns)
  {
  }

  lemma VictimIsNew()
    ensures Disjoint(IdColumns + TimeColumns + PlaceColumns + CrashColumns + RoadColumns + PersonColumns +
                     VehicleColumns, VictimColumns)
  {
    VictimApartFromEarlyThemes();
    VictimApartFromPlaces();
    VictimApartFromCrashAndRoad();
    VictimApartFromPeople();
    DisjointConcat(IdColumns, TimeColumns, VictimColumns);
    DisjointConcat(IdColumns + TimeColumns, PlaceColumns, VictimColumns);
    DisjointConcat(IdColumns + TimeColumns + PlaceColumns, CrashColumns, VictimColumns);
    DisjointConcat(IdColumns + TimeColumns + PlaceColumns + CrashColumns, RoadColumns, VictimColumns);
    DisjointConcat(IdColumns + TimeColumns + PlaceColumns + CrashColumns + RoadColumns, PersonColumns,
                   VictimColumns);
    DisjointConcat(IdColumns + TimeColumns + PlaceColumns + CrashColumns + RoadColumns + PersonColumns,
                   VehicleColumns, VictimColumns);
  }

  /** The output schema has 45 columns and names none of them twice. */
  lemma RequiredColumnsDistinct()
    ensures |RequiredColumns| == 45
    ensures Distinct(RequiredColumns)
  {
    assert Distinct(IdColumns) && Distinct(TimeColumns) && Distinct(PlaceColumns);
    assert Distinct(CrashColumns) && Distinct(RoadColumns);
    assert Distinct(PersonColumns) && Distinct(VehicleColumns) && Distinct(VictimColumns);
    assert Disjoint(IdColumns, TimeColumns);
    DistinctConcat(IdColumns, TimeColumns);
    PlaceIsNew();
    DistinctConcat(IdColumns + TimeColumns, PlaceColumns);
    CrashIsNew();
    DistinctConcat(IdColumns + TimeColumns + PlaceColumns, CrashColumns);
    RoadIsNew();
    DistinctConcat(IdColumns + TimeColumns + PlaceColumns + CrashColumns, RoadColumns);
    PersonIsNew();
    DistinctConcat(IdColumns + TimeColumns + PlaceColumns + CrashColumns + RoadColumns, PersonColumns);
    VehicleIsNew();
    DistinctConcat(IdColumns + TimeColumns + PlaceColumns + CrashColumns + RoadColumns + PersonColumns,
                   VehicleColumns);
    VictimIsNew();
    DistinctConcat(IdColumns + TimeColumns + PlaceColumns + CrashColumns + RoadColumns + PersonColumns +
                   VehicleColumns, VictimColumns);
  }

  /** The other lists name no column twice either, so each listed column is converted once. */
  lemma ListsDistinct()
    ensures Distinct(Irrelevant) && Distinct(IntColumns) && Distinct(FloatColumns)
    ensures Distinct(StrColumns) && Distinct(TrimColumns) && Distinct(DefaultColumns)
  {
  }

  /** `br` is the one column both parsed as an integer and cast to text, in that order. */
  lemma BrIsIntegerThenText()
    ensures "br" in IntColumns && "br" in StrColumns
    ensures forall n :: n in IntColumns && n in StrColumns ==> n == "br"
  {
  }

  /**
   * The integer and float lists share no column, and the date and time
   * columns are on none of the three lists.
   */
  lemma ListsApart()
    ensures Disjoint(IntColumns, FloatColumns) && Disjoint(FloatColumns, StrColumns)
    ensures "data_inversa" !in IntColumns && "data_inversa" !in FloatColumns && "data_inversa" !in StrColumns
    ensures "horario" !in IntColumns && "horario" !in FloatColumns && "horario" !in StrColumns
  {
    NumberListsApart();
    DateUnlisted();
    TimeUnlisted();
  }

  lemma NumberListsApart()
    ensures Disjoint(IntColumns, FloatColumns) && Disjoint(FloatColumns, StrColumns)
  {
    IntFloatApart();
    FloatStrApart();
  }

  lemma IntFloatApart()
    ensures Disjoint(IntColumns, FloatColumns)
  {
  }

  lemma FloatStrApart()
    ensures Disjoint(FloatColumns, StrColumns)
  {
  }

  lemma DateUnlisted()
    ensures "data_inversa" !in IntColumns && "data_inversa" !in FloatColumns && "data_inversa" !in StrColumns
  {
  }

  lemma TimeUnlisted()
    ensures "horario" !in IntColumns && "horario" !in FloatColumns && "horario" !in StrColumns
  {
  }

  /** The final trim lists name no column twice. */
  lemma TrimListsDistinct()
    ensures Distinct(TrimColumns) && Distinct(DefaultColumns)
  {
  }

  /** The two key columns are trimmed before they get their default. */
  lemma DefaultsAreTrimmed()
    ensures forall n :: n in DefaultColumns ==> n in TrimColumns
  {
  }

  /** No label is renamed to `dia_semana`, and the first stage drops the input's own. */
  lemma DiaSemanaIsNoTarget()
    ensures "dia_semana" in Irrelevant
    ensures "dia_semana" in RequiredColumns && "dia_semana" !in TrimColumns
    ensures forall k :: k in RenameMap ==> RenameMap[k] != "dia_semana"
  {
  }

  /** The two key columns come from the input's cause and type of accident. */
  lemma KeyColumnSources()
    ensures "causa_acidente" !in Irrelevant && "tipo_acidente" !in Irrelevant
    ensures "causa_acidente" in RenameMap && RenameMap["causa_acidente"] == "sinistro_causa"
    ensures "tipo_acidente" in RenameMap && RenameMap["tipo_acidente"] == "sinistro_tipo"
    ensures "sinistro_causa" in DefaultColumns && "sinistro_tipo" in DefaultColumns
    ensures "sinistro_causa" in RequiredColumns && "sinistro_tipo" in RequiredColumns
  {
  }

  /** The three identifiers are output columns. */
  lemma IdsRequired()
    ensures "sinistro_id" in RequiredColumns && "id_envolvido" in RequiredColumns && "veiculo_id" in RequiredColumns
  {
    assert RequiredColumns[..3] == IdColumns;
  }
}
