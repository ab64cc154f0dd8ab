/** The catalogue entry as the viewer uses it, and the choice of the text
    shown as its description in the detail view. */
module Catalog {

  import opened Seqs

  /** One flavor_text_entries item of a species: its language code and text. */
  datatype FlavorText = FlavorText(language: string, text: string)

  /** A loaded entry. flavorTexts is None when the species record or its
      flavor_text_entries is missing. Sprites, height, weight, abilities and
      stats only feed the HTML and are not part of the model. */
  datatype Pokemon = Pokemon(id: nat, name: string, types: seq<string>, flavorTexts: Option<seq<FlavorText>>)

  const DescriptionLanguage: string := "pt"

  const NoDescription: string := "Descrição não disponível."

  const FormFeed: char := '\U{000C}'

  /** entries[i] is the first entry whose language is lang. */
  predicate IsFirstInLanguage(entries: seq<FlavorText>, lang: string, i: int)
  {
    0 <= i < |entries| && entries[i].language == lang &&
    forall j :: 0 <= j < i ==> entries[j].language != lang
  }

  /** Array.prototype.find on the language code, as an index: the first entry
      in lang, or None when there is none. */
  function FirstInLanguage(entries: seq<FlavorText>, lang: string): (r: Option<nat>)
    ensures r.Some? ==> IsFirstInLanguage(entries, lang, r.value)
    ensures r.None? <==> forall j :: 0 <= j < |entries| ==> entries[j].language != lang
  {
    if entries == [] then None
    else if entries[0].language == lang then Some(0)
    else match FirstInLanguage(entries[1..], lang)
      case None => None
      case Some(k) => Some(k + 1)
  }

  /** text.replace(/\f/g, ' '): every form feed becomes a space, everything
      else stays where it is. */
  function ReplaceFormFeeds(s: string): (r: string)
    ensures |r| == |s|
    ensures forall i :: 0 <= i < |s| && s[i] != FormFeed ==> r[i] == s[i]
    ensures forall i :: 0 <= i < |s| && s[i] == FormFeed ==> r[i] == ' '
    ensures FormFeed !in r
  {
    if s == [] then []
    else [if s[0] == FormFeed then ' ' else s[0]] + ReplaceFormFeeds(s[1..])
  }

  lemma ReplaceFormFeedsIdempotent(s: string)
    ensures ReplaceFormFeeds(ReplaceFormFeeds(s)) == ReplaceFormFeeds(s)
  {
  }

  /** A text with no form feed is shown exactly as it is. */
  lemma {:induction false} ReplaceFormFeedsUnchanged(s: string)
    requires FormFeed !in s
    ensures ReplaceFormFeeds(s) == s
  {
    if s != [] {
      ReplaceFormFeedsUnchanged(s[1..]);
    }
  }

  /** The detail view's description: the text of the first Portuguese entry
      with its form feeds turned into spaces, or the placeholder when the
      species or its entries are missing or none is in Portuguese. */
  function Description(p: Pokemon): (d: string)
    ensures p.flavorTexts.None? ==> d == NoDescription
    ensures p.flavorTexts.Some? ==>
      var entries := p.flavorTexts.value;
      (forall i :: IsFirstInLanguage(entries, DescriptionLanguage, i) ==>
          d == ReplaceFormFeeds(entries[i].text)) &&
      ((forall i :: 0 <= i < |entries| ==> entries[i].language != DescriptionLanguage) ==>
          d == NoDescription)
    ensures FormFeed !in d
  {
    match p.flavorTexts
    case None => NoDescription
    case Some(entries) =>
      match FirstInLanguage(entries, DescriptionLanguage)
      case None => NoDescription
      case Some(i) => ReplaceFormFeeds(entries[i].text)
  }
}
