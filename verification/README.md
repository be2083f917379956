# critter_finder, modelled in Dafny

`critter_finder.py` asks the iNaturalist API for recent observations of a
taxon and keeps the ones that are more than two days old and whose place
description contains a US ZIP code. It then asks the NOAA climate-data API
for the average temperature and the precipitation at that ZIP code on the
observation's date. Finally it draws the observations on a map and charts
the weather per species.

This project models the data-handling core of the script:

- `ZipCode` (`zip_code.dfy`): the pattern `\b\d{5}(?:[-\s]?\d{4})?\b` and
  `re.search` with it. The search is a scanner that is proved to report the
  leftmost match and, at that start, the longest one.
- `Collector` (`collector.dfy`): the filter loop of
  `get_inaturalist_observations`. It covers the time filter, the ZIP filter,
  the observation record it builds, the exceptions it does not catch, and
  the insertion-ordered dictionary keyed by observation id.
- `Weather` (`weather.dfy`): the record loop of `get_weather_for_observation`.
- `Enrichment` (`enrichment.dfy`): the enrichment loop of `main` and its
  date key `datetime.split("T")[0]`.
- `Aggregate` (`aggregate.dfy`): the per-species grouping and the rows
  `plot_weather_data` builds before plotting.
- `MapBounds` (`map_bounds.dfy`): the padded bounding box of
  `plot_observations_on_map`.
- `Common` (`common.dfy`): `Option`, `Result`, and `Dict`. `Dict` is a
  dictionary with the insertion order of a Python `dict`: a new key goes at
  the end, and overwriting a key keeps its place.

The loops of the source are methods with loop invariants. The collector,
weather and grouping loops are each proved equal to a recursive
specification function, and the properties are lemmas about those
functions. The enrichment loop is specified entry by entry: its
postcondition gives the new value of every entry.

Where the code and its documented intent disagree, the model follows the
code:

- Weather takes the LAST `TAVG` and the LAST `PRCP` record of a response.
  This is because the loop overwrites the field on every match; it does not
  take the first.
- A `None` temperature or precipitation sample is not skipped when a
  species is averaged. `sum` raises a `TypeError` on it, so the aggregation
  fails with `NoneInSum`. The defaults in `weather.get("avg_temp", 0)` never
  apply, because the weather dictionary always has both keys.
- A `null` `place_guess` makes `re.search` raise a `TypeError`. A kept record
  with an empty `observation_photos` list raises an `IndexError`. Neither
  exception is caught, so both end the collection (`Collector.CollectError`).
  A missing `place_guess` key reads as `""` and is skipped.

## Model

| member | source | states |
|---|---|---|
| Common.Dict.Put | critter_finder.py:69 | `d[k] = v`: the entry becomes `v`. An existing key keeps its position; a new key is appended. The dictionary stays well formed. |
| ZipCode.MatchAt | critter_finder.py:58 | At one start position, the scanner returns an end exactly when the pattern matches there, and that end is the longest possible. |
| ZipCode.SearchFrom | critter_finder.py:58 | From a position on, it returns the leftmost start with a match and the longest match at it, or nothing when no later position matches. |
| ZipCode.Search | critter_finder.py:58 | `re.search` returns a match that is leftmost and then longest, and returns nothing only when no substring matches with word boundaries at both ends. |
| ZipCode.Extract | critter_finder.py:58-63 | The group is 5 digits, 9 digits, or 5 digits, a separator and 4 digits. It is found exactly when some match exists, and it is the text of the leftmost-longest match. |
| ZipCode.WholeCode | critter_finder.py:58 | A place description that is itself a ZIP code yields all of itself. |
| ZipCode.TenDigits | critter_finder.py:58 | No match overlaps a run of ten digits, wherever the run stands in the description, so such a run yields no ZIP code. |
| Collector.Judge | critter_finder.py:51-69 | One record is kept exactly when it is old enough, has a non-null place with a ZIP code, and has a photo. It crashes exactly when an old-enough record has a null place (the `TypeError`, `NullPlaceGuess`), or has a ZIP code but no photo (the `IndexError`, `NoPhoto`). The kept observation carries the record's timestamp, species, the first match as ZIP code, location and first photo URL. |
| Collector.Collected | critter_finder.py:50-69 | The fold of the loop body over the records: it skips, adds or overwrites an entry per record and stops at the first exception. On success the dictionary is well formed. |
| Collector.Collect | critter_finder.py:50-69 | The filter loop computes the fold of the loop body over the records, stopping at the first exception. |
| Collector.GetObservations | critter_finder.py:45-72 | A failed request yields the empty dictionary. Otherwise the result is that of the filter loop. |
| Collector.ErrSticks | critter_finder.py:50-69 | Once a record has raised, the records after it do not change the outcome. |
| Collector.CollectedFails | critter_finder.py:50-69 | Collection fails exactly when some record crashes the loop body, and then with the error of the first such record. |
| Collector.CollectedKeys | critter_finder.py:69 | On success, an id is a key exactly when some kept record carries it. |
| Collector.CollectedLastWins | critter_finder.py:69 | On success, the entry of an id is the observation built from the last kept record with that id. |
| Weather.Extract | critter_finder.py:249-255 | The record loop returns, per field, the value of the last record of that type, or None when there is none. |
| Weather.Fetch | critter_finder.py:244-258 | A transport error gives None. A response gives the sample its records determine. |
| Weather.LastValueIsLast | critter_finder.py:249-254 | A field is None exactly when no record has its type. Otherwise it holds the value of a record of that type that no later record of that type follows. |
| Weather.OtherTypesIgnored | critter_finder.py:250-254 | Dropping every record that is neither TAVG nor PRCP leaves the sample unchanged. |
| Weather.AppendRecord | critter_finder.py:250-254 | A further TAVG or PRCP record replaces only its own field; any other record changes nothing. |
| Enrichment.DateKey | critter_finder.py:280 | The key is the longest prefix of the timestamp without a 'T'. It is the whole timestamp, or it is followed by the first 'T'. |
| Enrichment.DateKeyUnique | critter_finder.py:280 | Those three properties determine the key. |
| Enrichment.Enrich | critter_finder.py:278-281 | The observation at each position gets the weather of the request made for it at that position, for its ZIP code and date key. No entry is added, removed or reordered, and nothing else in an entry changes. |
| Aggregate.Named | critter_finder.py:181 | The kept observations are exactly those with a non-empty species. |
| Aggregate.SpeciesOrder | critter_finder.py:184-192 | The species keys are distinct and are exactly the species of observations that have weather. |
| Aggregate.SamplesOf | critter_finder.py:184-192 | A species' temperature and rain lists grow in lock-step. They hold exactly the samples of that species' observations with weather. |
| Aggregate.SamplesCount | critter_finder.py:184-192 | Each list has exactly one entry per observation of the species that has weather. |
| Aggregate.CountGrows | critter_finder.py:184-192 | Distinct contributing observations of a species are counted at distinct positions. |
| Aggregate.SamplesInOrder | critter_finder.py:184-192 | The samples of the j-th observation sit at the position given by the number of contributing observations of the species before it, so the lists follow observation order one entry per observation. |
| Aggregate.Group | critter_finder.py:183-192 | The grouping loop yields species in first-seen order, each with the samples of its observations. |
| Aggregate.Qualifying | critter_finder.py:194-198 | A species is kept exactly when it is non-empty and both of its lists are non-empty. When all species qualify, nothing is dropped. |
| Aggregate.Known | critter_finder.py:203-204 | Exactly the present samples. When no sample is None, the list is the values of the samples, position by position. |
| Aggregate.Trunc | critter_finder.py:203 | `int()` truncates toward zero. |
| Aggregate.RowsOf | critter_finder.py:200-207 | Rows come out in key order, with the truncated mean temperature and the summed rain. There is a row for every key exactly when no list holds None; otherwise the error names the first such species. |
| Aggregate.AggregateWeather | critter_finder.py:179-207 | Aggregation succeeds exactly when every observation with a species and weather has both values. It then gives one row per species in first-seen order, with the truncated mean temperature and the total rain of that species' samples. Otherwise it fails on a species with such an observation. |
| Aggregate.NamedKeepsSamples | critter_finder.py:181-192 | Dropping observations without a species changes neither the species order nor any species' samples. |
| Aggregate.ContributorsHaveSamples | critter_finder.py:194-198 | Every grouped species has a name and at least one sample of each kind, so the filter drops none. |
| Aggregate.CompleteSamples | critter_finder.py:188-192 | No species' list holds None exactly when every observation with a species and weather has both values. |
| Aggregate.IncompleteSamples | critter_finder.py:188-192 | A None in a species' list comes from an observation of that species with a missing value. |
| MapBounds.Min | critter_finder.py:99-100 | `min` returns an element that no element is below. |
| MapBounds.Max | critter_finder.py:99-100 | `max` returns an element that no element is above. |
| MapBounds.Lats | critter_finder.py:95 | The latitudes of the points, in order. |
| MapBounds.Lons | critter_finder.py:96 | The longitudes of the points, in order. |
| MapBounds.BoundingBox | critter_finder.py:95-108 | The corners form a non-degenerate box that strictly contains every point. It is the padded box of the extreme coordinates. |
| MapBounds.Corners | critter_finder.py:98-108 | The box is centred on the extent. It is taller than the extent by half the latitude span and wider by twice the longitude span, where a zero span counts as 0.1. |
| MapBounds.SameLatitude | critter_finder.py:102-106 | When all points share a latitude, the box is 0.05 degrees tall and centred on it. |

## Left out

- The HTTP requests to both APIs are parameters: a `SearchResponse` and a `climate` function that gives the `ClimateResponse` of the n-th request of the enrichment loop for a ZIP code and a date. Each request has its own response, so a failure can hit one of two observations with the same ZIP code and date. Query parameters, tokens and status codes are not modelled.
- A response without a `results` key raises a `KeyError`; the model has no such response. So does an observation record without an `id`, `time_observed_at`, `species_guess`, `location` or photo `url` key, and a climate record without a `datatype` or `value` key.
- `datetime.fromisoformat`, `datetime.today()` and the two-day offset are not modelled. `.replace(tzinfo=None)` drops the UTC offset without converting, so the script compares the local clock reading of the observation (`...T23:00:00+09:00` counts as 23:00) with the machine's local time. `observedInstant` stands for that offset-free clock reading, and the cutoff is a parameter on the same scale. An observation exactly at the cutoff is not kept. A malformed timestamp (`ValueError`) is not modelled.
- `ZipCode.IsSpace` and `ZipCode.IsWordChar` are the ASCII parts of Python's Unicode `\s`, `\d` and `\w`. Non-ASCII digits, spaces and letters are classified differently by Python.
- Weather values are exact reals. The temperature and rain values, and the `sum` and `/` applied to them, are exact real arithmetic, not floating point. A float sum can differ in its last bits (0.1 + 0.2 is not 0.3), and `int()` of a float mean can differ from the exact one when the mean is at an integer boundary.
- Coordinates are exact reals. Floating-point rounding and parsing the `"lat,lon"` location string with `float` are not modelled.
- MapBounds.BoundingBox requires at least one point, because `main` returns before plotting when nothing was collected. `min` on an empty list (`ValueError`) is therefore not modelled.
- The `or 0.1` fallback is written as a test for a zero span; a negative span cannot occur.
- Drawing is not modelled: the map projection, colour assignment, the legend, image download, `PIL` resizing, the bar charts and `tight_layout`/`show`.
- The pandas `dropna` on the rows is not modelled: every row already has a number in both columns. When no species qualifies, the row list is empty, and `dropna` on a DataFrame without those columns raises a `KeyError`; that exception is outside the model.
- Console input of the taxon id and result count, the spinner thread, and `print` are not modelled.
