/**
 * The weather tool: a canned report for New York, matched without regard
 * to case, and an error naming the city for every other input.
 */
module Weather {
  import opened Wrappers
  import opened Text

  /** The one city the tool knows, in lower case. */
  const KnownCity: string := "new york"

  const NewYorkReport: string :=
    "The weather in New York is sunny with a temperature of 25 degrees Celsius (77 degrees Fahrenheit)."

  /** The error message is MessageHead + city + MessageTail. */
  const MessageHead: string := "Weather information for '"
  const MessageTail: string := "' is not available."

  datatype WeatherResult = Report(report: string) | Unavailable(errorMessage: string) {
    function Status(): (s: string)
      ensures s == "success" <==> Report?
      ensures s == "error" <==> Unavailable?
    {
      if Report? then "success" else "error"
    }
  }

  /** The error message names the city, and the city can be read back out of it. */
  function UnavailableMessage(city: string): (message: string)
    ensures CityOfMessage(message) == Some(city)
  {
    var rest := city + MessageTail;
    StripPrefixOfConcat(MessageHead, rest);
    assert rest[|rest| - |MessageTail|..] == MessageTail;
    assert rest[..|rest| - |MessageTail|] == city;
    assert MessageHead + city + MessageTail == MessageHead + rest;
    MessageHead + city + MessageTail
  }

  /**
   * Reads the city back out of an error message: drops MessageHead in front
   * and MessageTail at the end, or gives None if either is missing.
   */
  function CityOfMessage(message: string): (r: Option<string>)
    ensures r.Some? ==> MessageHead + r.value + MessageTail == message
  {
    var rest :- StripPrefix(MessageHead, message);
    if |MessageTail| <= |rest| && rest[|rest| - |MessageTail|..] == MessageTail then
      assert rest == rest[..|rest| - |MessageTail|] + MessageTail;
      Some(rest[..|rest| - |MessageTail|])
    else
      None
  }

  /** Different cities get different error messages. */
  lemma UnavailableMessageInjective(a: string, b: string)
    requires UnavailableMessage(a) == UnavailableMessage(b)
    ensures a == b
  {
    assert CityOfMessage(UnavailableMessage(a)) == Some(a);
  }

  /**
   * The report comes back exactly when the city spells "new york" in any
   * mix of capitals; every other city, the empty one included, gets the
   * error naming it as it was passed.
   */
  function GetWeather(city: string): (r: WeatherResult)
    ensures r.Report? <==> EqualsIgnoringCase(city, KnownCity)
    ensures r.Report? ==> r.report == NewYorkReport
    ensures r.Unavailable? ==> CityOfMessage(r.errorMessage) == Some(city)
  {
    LowerEqualsIffIgnoringCase(city, KnownCity);
    if Lower(city) == KnownCity then
      Report(NewYorkReport)
    else
      Unavailable(UnavailableMessage(city))
  }

  /** Two spellings that differ only in capitals get the same answer. */
  lemma CaseDoesNotMatterForReport(a: string, b: string)
    requires EqualsIgnoringCase(a, b)
    ensures GetWeather(a).Report? == GetWeather(b).Report?
  {
  }

  /** "New York", "NEW YORK" and "new york" all give the report. */
  lemma NewYorkSpellings(city: string)
    requires city == "New York" || city == "NEW YORK" || city == "new york"
    ensures GetWeather(city) == Report(NewYorkReport)
  {
    assert EqualsIgnoringCase(city, KnownCity);
  }
}
