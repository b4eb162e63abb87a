/** `java.util.Locale`, reduced to what the modelled code compares: a
    language and a country. */
module Locales {
  import opened Strings

  datatype Locale = Locale(language: string, country: string)

  /** `Locale.US`. */
  const US: Locale := Locale("en", "US")

  /** `new Locale(language, country)`: the language is kept in lower case and
      the country in upper case. */
  function NewLocale(language: string, country: string): (r: Locale)
    ensures |r.language| == |language| && |r.country| == |country|
    ensures forall k :: 0 <= k < |r.language| ==> !('A' <= r.language[k] <= 'Z')
    ensures forall k :: 0 <= k < |r.country| ==> !('a' <= r.country[k] <= 'z')
  {
    Locale(ToLower(language), ToUpper(country))
  }
}
