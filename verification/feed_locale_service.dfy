/** `FeedLocaleService`: a stack of locales for feed jobs that run outside a
    request, and the list of locales the site supports. */
module FeedLocaleServices {
  import opened Wrappers
  import opened Strings
  import opened Locales

  /** The current locale for a stack whose top is at index 0: `Locale.US`
      when the stack is empty. A null pushed on the stack reads back as null. */
  function LocaleOf(stack: seq<Option<Locale>>): (r: Option<Locale>)
    ensures stack == [] ==> r == Some(US)
    ensures stack != [] ==> r == stack[0]
  {
    if stack == [] then Some(US) else stack[0]
  }

  /** The locale one key of the form `language_country[_...]` names, if it
      has at least two `_`-separated parts. */
  function KeyLocale(key: string): (r: Option<Locale>)
    ensures r.Some? <==> |Split(key, {'_'})| >= 2
  {
    var parts := Split(key, {'_'});
    if |parts| >= 2 then Some(NewLocale(parts[0], parts[1])) else None
  }

  /** `buildLocaleCache`: the locales of the keys that name one, in order. */
  function SupportedOf(keys: seq<string>): (r: seq<Locale>)
    ensures |r| <= |keys|
    ensures forall k :: 0 <= k < |r| ==> exists j :: 0 <= j < |keys| && KeyLocale(keys[j]) == Some(r[k])
  {
    if keys == [] then []
    else
      var init := SupportedOf(keys[..|keys| - 1]);
      var last := keys[|keys| - 1];
      assert forall j :: 0 <= j < |keys| - 1 ==> keys[..|keys| - 1][j] == keys[j];
      if KeyLocale(last).Some? then init + [KeyLocale(last).value] else init
  }

  /** Keys that all name a locale give one locale each, in order. */
  lemma {:induction false} SupportedOfAll(keys: seq<string>)
    requires forall j :: 0 <= j < |keys| ==> KeyLocale(keys[j]).Some?
    ensures |SupportedOf(keys)| == |keys|
    ensures forall j :: 0 <= j < |keys| ==> SupportedOf(keys)[j] == KeyLocale(keys[j]).value
    decreases |keys|
  {
    if keys != [] {
      var init := keys[..|keys| - 1];
      SupportedOfAll(init);
      forall j | 0 <= j < |keys| - 1 ensures SupportedOf(keys)[j] == KeyLocale(keys[j]).value {
        assert init[j] == keys[j];
      }
    }
  }

  /** A key without an `_` between two non-empty parts is skipped. */
  lemma {:induction false} SupportedOfSkips(keys: seq<string>, key: string)
    requires |Split(key, {'_'})| < 2
    ensures SupportedOf(keys + [key]) == SupportedOf(keys)
  {
    assert (keys + [key])[..|keys|] == keys;
  }

  /** The key `language_country` of a lower-case language and an upper-case
      country, neither with `_`, reads back as that locale. */
  lemma KeyLocaleRoundTrip(language: string, country: string)
    requires language != [] && country != []
    requires forall k :: 0 <= k < |language| ==> language[k] != '_' && !('A' <= language[k] <= 'Z')
    requires forall k :: 0 <= k < |country| ==> country[k] != '_' && !('a' <= country[k] <= 'z')
    ensures KeyLocale(language + "_" + country) == Some(Locale(language, country))
  {
    SplitJoin([language, country], '_');
    assert Join([language, country], "_") == language + "_" + country;
    assert ToLower(language) == language;
    assert ToUpper(country) == country;
  }

  class FeedLocaleService {
    /** Top of the stack first. */
    var stack: seq<Option<Locale>>
    var supportedLocaleKeys: Option<seq<string>>
    var supportedLocales: Option<seq<Locale>>

    constructor()
      ensures stack == [] && supportedLocaleKeys == None && supportedLocales == None
    {
      stack := [];
      supportedLocaleKeys := None;
      supportedLocales := None;
    }

    /** `getLocale`. */
    function GetLocale(): (r: Option<Locale>)
      reads this
      ensures r == LocaleOf(stack)
    {
      LocaleOf(stack)
    }

    method PushLocale(locale: Option<Locale>)
      modifies this
      ensures stack == [locale] + old(stack)
      ensures GetLocale() == locale
      ensures supportedLocaleKeys == old(supportedLocaleKeys) && supportedLocales == old(supportedLocales)
    {
      stack := [locale] + stack;
    }

    /** `popLocale`: the top of the stack, removed; null on an empty stack,
        which is left as it is. */
    method PopLocale() returns (r: Option<Locale>)
      modifies this
      ensures old(stack) == [] ==> r == None && stack == []
      ensures old(stack) != [] ==> r == old(stack)[0] && stack == old(stack)[1..]
      ensures supportedLocaleKeys == old(supportedLocaleKeys) && supportedLocales == old(supportedLocales)
    {
      if |stack| == 0 {
        return None;
      }
      r := stack[0];
      stack := stack[1..];
    }

    /** `getSupportedLocaleKeys`: fails with a NullPointerException before any keys are set. */
    function GetSupportedLocaleKeys(): (r: Result<seq<string>>)
      reads this
      ensures r.Err? <==> supportedLocaleKeys.None?
      ensures r.Ok? ==> r.value == supportedLocaleKeys.value
    {
      if supportedLocaleKeys.None? then Err(NullPointer) else Ok(supportedLocaleKeys.value)
    }

    /** `setSupportedLocaleKeys`: the keys are copied and the supported
        locales rebuilt from them, replacing the old ones. */
    method SetSupportedLocaleKeys(keys: seq<string>)
      modifies this
      ensures supportedLocaleKeys == Some(keys)
      ensures supportedLocales == Some(SupportedOf(keys))
      ensures stack == old(stack)
    {
      supportedLocaleKeys := Some(keys);
      BuildLocaleCache();
    }

    method BuildLocaleCache()
      requires supportedLocaleKeys.Some?
      modifies this
      ensures stack == old(stack) && supportedLocaleKeys == old(supportedLocaleKeys)
      ensures supportedLocales == Some(SupportedOf(supportedLocaleKeys.value))
    {
      var keys := supportedLocaleKeys.value;
      var locales: seq<Locale> := [];
      for i := 0 to |keys|
        invariant locales == SupportedOf(keys[..i])
      {
        assert keys[..i + 1][..i] == keys[..i];
        var parts := Split(keys[i], {'_'});
        if |parts| >= 2 {
          locales := locales + [NewLocale(parts[0], parts[1])];
        }
      }
      assert keys[..|keys|] == keys;
      supportedLocales := Some(locales);
    }

    /** `getSupportedLocales`: empty until keys are set. */
    function GetSupportedLocales(): (r: seq<Locale>)
      reads this
      ensures supportedLocales.None? ==> r == []
      ensures supportedLocales.Some? ==> r == supportedLocales.value
    {
      if supportedLocales.None? then [] else supportedLocales.value
    }

    function GetSupportedLocaleCount(): (r: nat)
      reads this
      ensures r == |GetSupportedLocales()|
    {
      if supportedLocales.Some? then |supportedLocales.value| else 0
    }

    /** `isSupportedLocale`: some supported locale has exactly this language
        and this country. Before any keys are set the list it scans is null. */
    method IsSupportedLocale(language: Option<string>, country: Option<string>) returns (r: Result<bool>)
      ensures supportedLocales.None? ==> r == Err(NullPointer)
      ensures supportedLocales.Some? ==> r == Ok(exists k :: (0 <= k < |supportedLocales.value|
        && Some(supportedLocales.value[k].language) == language && Some(supportedLocales.value[k].country) == country))
    {
      if supportedLocales.None? {
        return Err(NullPointer);
      }
      var locales := supportedLocales.value;
      for i := 0 to |locales|
        invariant forall k :: 0 <= k < i ==> !(Some(locales[k].language) == language && Some(locales[k].country) == country)
      {
        if Some(locales[i].language) == language && Some(locales[i].country) == country {
          return Ok(true);
        }
      }
      return Ok(false);
    }
  }

  /** A push followed by a pop gives back the pushed locale and restores
      the locale seen before. */
  method PushThenPop(service: FeedLocaleService, locale: Option<Locale>) returns (r: Option<Locale>)
    modifies service
    ensures r == locale
    ensures service.stack == old(service.stack) && service.GetLocale() == old(service.GetLocale())
    ensures service.supportedLocales == old(service.supportedLocales)
  {
    service.PushLocale(locale);
    r := service.PopLocale();
  }
}
