/** The Portuguese display labels for the catalogue's type and stat codes.
    Both lookups are `table[code] || code`: the label when the table has a
    non-empty one, otherwise the code itself. */
module Translations {

  import opened Text

  /** typeTranslations: the eighteen type codes. */
  const TypeLabels: map<string, string> := map[
    "normal" := "Normal",
    "fire" := "Fogo",
    "water" := "Água",
    "electric" := "Elétrico",
    "grass" := "Planta",
    "ice" := "Gelo",
    "fighting" := "Luta",
    "poison" := "Veneno",
    "ground" := "Terra",
    "flying" := "Voador",
    "psychic" := "Psíquico",
    "bug" := "Inseto",
    "rock" := "Pedra",
    "ghost" := "Fantasma",
    "dragon" := "Dragão",
    "dark" := "Sombrio",
    "steel" := "Aço",
    "fairy" := "Fada"
  ]

  /** The table inside translateStatName: the six base-stat codes. */
  const StatLabels: map<string, string> := map[
    "hp" := "HP",
    "attack" := "Ataque",
    "defense" := "Defesa",
    "special-attack" := "Ataque Especial",
    "special-defense" := "Defesa Especial",
    "speed" := "Velocidade"
  ]

  /** `table[code] || code`: an absent key and an empty label both fall back
      to the code. */
  function LabelOr(table: map<string, string>, code: string): (shown: string)
    ensures code in table && table[code] != "" ==> shown == table[code]
    ensures !(code in table && table[code] != "") ==> shown == code
    ensures shown == "" ==> code == ""
  {
    if code in table && table[code] != "" then table[code] else code
  }

  /** Every code of the table starts with a small ASCII letter and no label
      does (they start with a capital, 'Á' included), so no label is empty and
      no label is a code. */
  ghost predicate LabelsAreNotCodes(table: map<string, string>)
  {
    CodesStartLower(table) && LabelsStartOtherwise(table)
  }

  ghost predicate CodesStartLower(table: map<string, string>)
  {
    forall code :: code in table.Keys ==> code != "" && IsAsciiLower(code[0])
  }

  ghost predicate LabelsStartOtherwise(table: map<string, string>)
  {
    forall shown :: shown in table.Values ==> shown != "" && !IsAsciiLower(shown[0])
  }

  /** When no label is a code, translating twice is translating once. */
  lemma LabelOrIdempotent(table: map<string, string>, code: string)
    requires LabelsAreNotCodes(table)
    ensures LabelOr(table, LabelOr(table, code)) == LabelOr(table, code)
  {
    if code in table {
      assert table[code] in table.Values;
    }
  }

  lemma StatLabelsAreNotCodes()
    ensures LabelsAreNotCodes(StatLabels)
  {
    StatCodesStartLower();
    StatLabelsStartOtherwise();
  }

  lemma StatCodesStartLower()
    ensures CodesStartLower(StatLabels)
  {
  }

  lemma StatLabelsStartOtherwise()
    ensures LabelsStartOtherwise(StatLabels)
  {
  }

  lemma TypeLabelsAreNotCodes()
    ensures LabelsAreNotCodes(TypeLabels)
  {
    TypeCodesStartLower();
    TypeLabelsStartOtherwise();
  }

  lemma TypeCodesStartLower()
    ensures CodesStartLower(TypeLabels)
  {
  }

  lemma TypeLabelsStartOtherwise()
    ensures LabelsStartOtherwise(TypeLabels)
  {
  }

  /** translateStatName: the label of one of the six known stats, and any
      other name unchanged. */
  function TranslateStatName(name: string): (shown: string)
    ensures name == "hp" ==> shown == "HP"
    ensures name == "attack" ==> shown == "Ataque"
    ensures name == "defense" ==> shown == "Defesa"
    ensures name == "special-attack" ==> shown == "Ataque Especial"
    ensures name == "special-defense" ==> shown == "Defesa Especial"
    ensures name == "speed" ==> shown == "Velocidade"
    ensures name !in StatLabels ==> shown == name
  {
    LabelOr(StatLabels, name)
  }

  /** A translated stat name is never translated again. */
  lemma TranslateStatNameIdempotent(name: string)
    ensures TranslateStatName(TranslateStatName(name)) == TranslateStatName(name)
  {
    StatLabelsAreNotCodes();
    LabelOrIdempotent(StatLabels, name);
  }

  /** Two different known stats never share a label. */
  lemma TranslateStatNameInjective(a: string, b: string)
    requires a in StatLabels && b in StatLabels && a != b
    ensures TranslateStatName(a) != TranslateStatName(b)
  {
  }

  /** `typeTranslations[type] || type` on a card's and the detail view's
      badges: the Portuguese label of a known type, any other code unchanged. */
  function TranslateType(code: string): (shown: string)
    ensures code in TypeLabels ==> shown == TypeLabels[code] && shown != code
    ensures code !in TypeLabels ==> shown == code
  {
    TypeLabelsAreNotCodes();
    LabelOr(TypeLabels, code)
  }

  lemma TranslateTypeIdempotent(code: string)
    ensures TranslateType(TranslateType(code)) == TranslateType(code)
  {
    TypeLabelsAreNotCodes();
    LabelOrIdempotent(TypeLabels, code);
  }
}
