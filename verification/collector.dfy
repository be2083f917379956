/**
 * The observation collector: the filter loop of `get_inaturalist_observations`.
 *
 * The HTTP request is not part of the model: its parsed `results` list is the
 * `records` parameter.  The cutoff `datetime.today() - 2 days` is the `cutoff`
 * parameter, and timestamps are offset-free clock readings (integers) that the
 * comparison orders.
 */
module Collector {
  import opened Common
  import ZipCode
  import Weather

  /** One entry of the biodiversity API's `results` list, reduced to the fields the loop reads. */
  datatype RawRecord = RawRecord(
    id: int,
    // `time_observed_at`; "" stands for a null or empty field, both of which are falsy
    timeObservedAt: string,
    // the clock reading of `fromisoformat(time_observed_at)` once its UTC offset is dropped, unconverted
    observedInstant: int,
    // `species_guess`; "" stands for null
    speciesGuess: string,
    // `place_guess`: Some("") when the key is missing, None when it holds null
    placeGuess: Option<string>,
    // `location`, the "lat,lon" string
    location: string,
    // the `photo.url` of each entry of `observation_photos`, in order
    photoUrls: seq<string>)

  /** The dictionary stored per observation id; `weather` is absent (None) until enrichment. */
  datatype Observation = Observation(
    datetime: string,
    species: string,
    zipCode: string,
    coordinates: string,
    photoUrl: string,
    weather: Option<Weather.WeatherSample>)

  /** The exceptions the loop does not catch: `re.search` on a null place (TypeError), an empty photo list (IndexError). */
  datatype CollectError = NullPlaceGuess(id: int) | NoPhoto(id: int)

  /** What the loop body does with one record. */
  datatype Verdict = Skip | Keep(obs: Observation) | Crash(error: CollectError)

  /** The time filter: the timestamp is present and strictly earlier than the cutoff. */
  predicate OldEnough(r: RawRecord, cutoff: int)
  {
    r.timeObservedAt != "" && r.observedInstant < cutoff
  }

  /** The loop body for one record. */
  function Judge(r: RawRecord, cutoff: int): (v: Verdict)
    ensures v.Keep? <==> OldEnough(r, cutoff) && r.placeGuess.Some? && ZipCode.Extract(r.placeGuess.value).Some? && |r.photoUrls| > 0
    ensures v.Crash? <==>
              && OldEnough(r, cutoff)
              && (r.placeGuess.None? || (ZipCode.Extract(r.placeGuess.value).Some? && |r.photoUrls| == 0))
    ensures v.Keep? ==> ZipCode.ZipShape(v.obs.zipCode) && Some(v.obs.zipCode) == ZipCode.Extract(r.placeGuess.value)
    ensures v.Keep? ==> v.obs == Observation(r.timeObservedAt, r.speciesGuess, v.obs.zipCode, r.location, r.photoUrls[0], None)
    ensures v.Crash? ==> v.error.id == r.id
    ensures v.Crash? ==> (v.error.NullPlaceGuess? <==> r.placeGuess.None?)
  {
    if !OldEnough(r, cutoff) then Skip
    else match r.placeGuess
      case None => Crash(NullPlaceGuess(r.id))
      case Some(place) =>
        match ZipCode.Extract(place)
        case None => Skip
        case Some(zip) =>
          if |r.photoUrls| == 0 then Crash(NoPhoto(r.id))
          else Keep(Observation(r.timeObservedAt, r.speciesGuess, zip, r.location, r.photoUrls[0], None))
  }

  /** The collected dictionary after the loop has run over `records`, or the exception that ended it. */
  function Collected(records: seq<RawRecord>, cutoff: int): (r: Result<Dict<int, Observation>, CollectError>)
    ensures r.Ok? ==> r.value.Valid()
  {
    if |records| == 0 then Ok(EmptyDict())
    else
      match Collected(records[..|records| - 1], cutoff)
      case Err(e) => Err(e)
      case Ok(d) =>
        var r := records[|records| - 1];
        match Judge(r, cutoff)
        case Skip => Ok(d)
        case Keep(obs) => Ok(d.Put(r.id, obs))
        case Crash(e) => Err(e)
  }

  method Collect(records: seq<RawRecord>, cutoff: int) returns (r: Result<Dict<int, Observation>, CollectError>)
    ensures r == Collected(records, cutoff)
  {
    var observations: Dict<int, Observation> := EmptyDict();
    for i := 0 to |records|
      invariant Collected(records[..i], cutoff) == Ok(observations)
    {
      assert records[..i + 1][..i] == records[..i];
      var record := records[i];
      if record.timeObservedAt != "" && record.observedInstant < cutoff {
        if record.placeGuess.None? {
          ErrSticks(records, i + 1, cutoff);
          return Err(NullPlaceGuess(record.id));
        }
        var zipCode := ZipCode.Extract(record.placeGuess.value);
        if zipCode.Some? {
          if |record.photoUrls| == 0 {
            ErrSticks(records, i + 1, cutoff);
            return Err(NoPhoto(record.id));
          }
          var data := Observation(record.timeObservedAt, record.speciesGuess, zipCode.value,
                                  record.location, record.photoUrls[0], None);
          observations := observations.Put(record.id, data);
        }
      }
    }
    assert records[..|records|] == records;
    r := Ok(observations);
  }

  /** What the search request yields: a `RequestException`, or the parsed `results` list. */
  datatype SearchResponse = RequestFailed | Listing(records: seq<RawRecord>)

  /** `get_inaturalist_observations`: a failed request is reported and yields the empty dictionary. */
  method GetObservations(response: SearchResponse, cutoff: int) returns (r: Result<Dict<int, Observation>, CollectError>)
    ensures response.RequestFailed? ==> r.Ok? && r.value.keys == [] && r.value.entries == map[]
    ensures response.Listing? ==> r == Collected(response.records, cutoff)
  {
    match response
    case RequestFailed =>
      r := Ok(EmptyDict());
    case Listing(records) =>
      r := Collect(records, cutoff);
  }

  /** Once the loop has raised, the rest of the list does not matter. */
  lemma {:induction false} ErrSticks(records: seq<RawRecord>, n: nat, cutoff: int)
    requires n <= |records| && Collected(records[..n], cutoff).Err?
    ensures Collected(records, cutoff) == Collected(records[..n], cutoff)
    decreases |records|
  {
    if n < |records| {
      var init := records[..|records| - 1];
      assert init[..n] == records[..n];
      ErrSticks(init, n, cutoff);
    } else {
      assert records[..n] == records;
    }
  }

  /** The collection fails exactly when some record crashes the loop body, and then with the error of the first such record. */
  lemma {:induction false} CollectedFails(records: seq<RawRecord>, cutoff: int)
    ensures Collected(records, cutoff).Err? <==> exists i :: 0 <= i < |records| && Judge(records[i], cutoff).Crash?
    ensures Collected(records, cutoff).Err? ==>
      exists i :: 0 <= i < |records| && Judge(records[i], cutoff) == Crash(Collected(records, cutoff).error)
        && forall j :: 0 <= j < i ==> !Judge(records[j], cutoff).Crash?
  {
    if |records| > 0 {
      var init := records[..|records| - 1];
      CollectedFails(init, cutoff);
      assert forall i :: 0 <= i < |init| ==> init[i] == records[i];
    }
  }

  /** Record `i` is kept by the loop body and carries id `k`. */
  ghost predicate KeptAt(records: seq<RawRecord>, cutoff: int, i: int, k: int)
  {
    0 <= i < |records| && records[i].id == k && Judge(records[i], cutoff).Keep?
  }

  /** Record `i` is the last record kept with id `k`. */
  ghost predicate LastKeptAt(records: seq<RawRecord>, cutoff: int, i: int, k: int)
  {
    KeptAt(records, cutoff, i, k) && forall j :: i < j ==> !KeptAt(records, cutoff, j, k)
  }

  /** One step of the loop, on success: the dictionary before and after the last record. */
  lemma CollectedStep(records: seq<RawRecord>, cutoff: int)
    requires |records| > 0 && Collected(records, cutoff).Ok?
    ensures Collected(records[..|records| - 1], cutoff).Ok?
    ensures var d := Collected(records[..|records| - 1], cutoff).value;
            var last := records[|records| - 1];
            Collected(records, cutoff).value
              == if Judge(last, cutoff).Keep? then d.Put(last.id, Judge(last, cutoff).obs) else d
  {
  }

  /** On success the dictionary has one entry for each id that some kept record carries, and no other. */
  lemma {:induction false} CollectedKeys(records: seq<RawRecord>, cutoff: int, k: int)
    requires Collected(records, cutoff).Ok?
    ensures k in Collected(records, cutoff).value.entries <==> exists i :: KeptAt(records, cutoff, i, k)
  {
    if |records| > 0 {
      var n := |records|;
      var init := records[..n - 1];
      var last := records[n - 1];
      CollectedStep(records, cutoff);
      CollectedKeys(init, cutoff, k);
      if last.id == k && Judge(last, cutoff).Keep? {
        assert KeptAt(records, cutoff, n - 1, k);
      } else if k in Collected(init, cutoff).value.entries {
        var i :| KeptAt(init, cutoff, i, k);
        assert KeptAt(records, cutoff, i, k);
      } else {
        forall i | KeptAt(records, cutoff, i, k)
          ensures false
        {
          assert KeptAt(init, cutoff, i, k);
        }
      }
    }
  }

  /**
   * On success the entry of each id is what the LAST kept record with that id
   * produced: later records overwrite earlier ones, and records the filters
   * skip leave the dictionary alone.
   */
  lemma {:induction false} CollectedLastWins(records: seq<RawRecord>, cutoff: int, k: int)
    requires Collected(records, cutoff).Ok?
    requires k in Collected(records, cutoff).value.entries
    ensures exists i ::
              && LastKeptAt(records, cutoff, i, k)
              && Judge(records[i], cutoff) == Keep(Collected(records, cutoff).value.entries[k])
  {
    var n := |records|;
    var init := records[..n - 1];
    var last := records[n - 1];
    CollectedStep(records, cutoff);
    if Judge(last, cutoff).Keep? && last.id == k {
      assert LastKeptAt(records, cutoff, n - 1, k);
    } else {
      var d := Collected(init, cutoff).value;
      assert Collected(records, cutoff).value.entries[k] == d.entries[k];
      CollectedLastWins(init, cutoff, k);
      var i :| LastKeptAt(init, cutoff, i, k) && Judge(init[i], cutoff) == Keep(d.entries[k]);
      assert records[i] == init[i];
      assert KeptAt(records, cutoff, i, k);
      LastKeptExtends(records, cutoff, i, k);
    }
  }

  lemma LastKeptExtends(records: seq<RawRecord>, cutoff: int, i: int, k: int)
    requires |records| > 0 && LastKeptAt(records[..|records| - 1], cutoff, i, k)
    requires !KeptAt(records, cutoff, |records| - 1, k)
    ensures LastKeptAt(records, cutoff, i, k)
  {
    var init := records[..|records| - 1];
    assert records[i] == init[i];
    forall j | i < j
      ensures !KeptAt(records, cutoff, j, k)
    {
      if j < |init| {
        assert records[j] == init[j];
        assert !KeptAt(init, cutoff, j, k);
      }
    }
  }
}
