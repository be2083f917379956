/**
 * The enrichment loop of `main`: every collected observation gets the
 * weather of its ZIP code on the date of its timestamp.  The climate API is
 * the `climate` parameter: the response the `n`-th request of the loop gets
 * when it asks for a ZIP code and a date.  Each request has its own
 * response, so two observations with the same ZIP code and date may still
 * get different ones (one request can fail while the other succeeds).
 */
module Enrichment {
  import opened Common
  import opened Collector
  import Weather

  /** `datetime.split("T")[0]`: the part of the timestamp before its first 'T', or all of it. */
  function DateKey(datetime: string): (key: string)
    ensures |key| <= |datetime| && key == datetime[..|key|]
    ensures 'T' !in key
    ensures |key| < |datetime| ==> datetime[|key|] == 'T'
  {
    if |datetime| == 0 || datetime[0] == 'T' then ""
    else [datetime[0]] + DateKey(datetime[1..])
  }

  /** The three properties above pin the key down: no other prefix has them. */
  lemma DateKeyUnique(datetime: string, p: string)
    requires |p| <= |datetime| && p == datetime[..|p|]
    requires 'T' !in p
    requires |p| < |datetime| ==> datetime[|p|] == 'T'
    ensures p == DateKey(datetime)
  {
  }

  /** Observation `o` after `observation["weather"] = get_weather_for_observation(zip, date, token)` as request `n`. */
  function WithWeather(o: Observation, n: nat, climate: (nat, string, string) -> Weather.ClimateResponse): Observation
  {
    o.(weather := Weather.Lookup(climate(n, o.zipCode, DateKey(o.datetime))))
  }

  /**
   * Sets the weather of every observation, in dictionary order: the
   * observation at position `j` is enriched by request `j`.  No entry is
   * added, removed or moved.
   */
  method Enrich(observations: Dict<int, Observation>, climate: (nat, string, string) -> Weather.ClimateResponse)
    returns (enriched: Dict<int, Observation>)
    requires observations.Valid()
    ensures enriched.Valid() && enriched.keys == observations.keys
    ensures enriched.entries.Keys == observations.entries.Keys
    ensures forall j :: 0 <= j < |observations.keys| ==>
              var k := observations.keys[j];
              enriched.entries[k] == WithWeather(observations.entries[k], j, climate)
  {
    var keys := observations.keys;
    enriched := observations;
    for i := 0 to |keys|
      invariant enriched.Valid() && enriched.keys == keys
      invariant enriched.entries.Keys == observations.entries.Keys
      invariant forall j :: 0 <= j < i ==> enriched.entries[keys[j]] == WithWeather(observations.entries[keys[j]], j, climate)
      invariant forall j :: i <= j < |keys| ==> enriched.entries[keys[j]] == observations.entries[keys[j]]
    {
      var k := keys[i];
      var observation := enriched.entries[k];
      var weather := Weather.Fetch(climate(i, observation.zipCode, DateKey(observation.datetime)));
      enriched := enriched.Put(k, observation.(weather := weather));
    }
  }
}
