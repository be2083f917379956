/**
 * Weather-record extraction from a climate-data response: the record loop
 * of `get_weather_for_observation`.  The HTTP request itself is not part of
 * the model; its outcome is the `ClimateResponse` parameter.
 */
module Weather {
  import opened Common

  const TAVG: string := "TAVG"
  const PRCP: string := "PRCP"

  /** One typed value record of the response's `results` list. */
  datatype DataRecord = DataRecord(dataType: string, value: real)

  /** The `{avg_temp, rain}` dictionary; both fields may be absent (None). */
  datatype WeatherSample = WeatherSample(avgTemp: Option<real>, rain: Option<real>)

  /** What the HTTP request yields: a transport error, or the parsed `results` list. */
  datatype ClimateResponse = TransportError | Results(records: seq<DataRecord>)

  /** The value of the last record whose data type is `t`, if there is one. */
  function LastValue(records: seq<DataRecord>, t: string): Option<real>
  {
    if |records| == 0 then None
    else if records[|records| - 1].dataType == t then Some(records[|records| - 1].value)
    else LastValue(records[..|records| - 1], t)
  }

  /** The sample a list of records yields: the last TAVG value and the last PRCP value. */
  function SampleOf(records: seq<DataRecord>): WeatherSample
  {
    WeatherSample(LastValue(records, TAVG), LastValue(records, PRCP))
  }

  /** The record loop: starts from both fields absent and overwrites a field on every record of its type. */
  method Extract(records: seq<DataRecord>) returns (w: WeatherSample)
    ensures w == SampleOf(records)
  {
    var avgTemp: Option<real> := None;
    var rain: Option<real> := None;
    for i := 0 to |records|
      invariant avgTemp == LastValue(records[..i], TAVG)
      invariant rain == LastValue(records[..i], PRCP)
    {
      assert records[..i + 1][..i] == records[..i];
      var record := records[i];
      if record.dataType == TAVG {
        avgTemp := Some(record.value);
      } else if record.dataType == PRCP {
        rain := Some(record.value);
      }
    }
    assert records[..|records|] == records;
    w := WeatherSample(avgTemp, rain);
  }

  /** What `get_weather_for_observation` returns for a response: None on a transport error. */
  function Lookup(response: ClimateResponse): Option<WeatherSample>
  {
    match response
    case TransportError => None
    case Results(records) => Some(SampleOf(records))
  }

  method Fetch(response: ClimateResponse) returns (w: Option<WeatherSample>)
    ensures w == Lookup(response)
    ensures w.None? <==> response.TransportError?
  {
    match response
    case TransportError =>
      w := None;
    case Results(records) =>
      var sample := Extract(records);
      w := Some(sample);
  }

  /** A field of the sample is absent exactly when no record has its type; otherwise it holds the value of the last such record. */
  lemma {:induction false} LastValueIsLast(records: seq<DataRecord>, t: string)
    ensures LastValue(records, t).None? <==> forall i :: 0 <= i < |records| ==> records[i].dataType != t
    ensures LastValue(records, t).Some? ==>
      exists i :: 0 <= i < |records| && records[i].dataType == t && records[i].value == LastValue(records, t).value
        && forall j :: i < j < |records| ==> records[j].dataType != t
  {
    if |records| > 0 {
      var init := records[..|records| - 1];
      LastValueIsLast(init, t);
      assert forall i :: 0 <= i < |init| ==> init[i] == records[i];
      if records[|records| - 1].dataType != t && LastValue(init, t).Some? {
        var i :| 0 <= i < |init| && init[i].dataType == t && init[i].value == LastValue(init, t).value
          && forall j :: i < j < |init| ==> init[j].dataType != t;
        assert records[i].dataType == t;
      }
    }
  }

  /** Only TAVG and PRCP records matter: dropping every other record leaves the sample unchanged. */
  function Relevant(records: seq<DataRecord>): seq<DataRecord>
  {
    if |records| == 0 then []
    else if records[|records| - 1].dataType in {TAVG, PRCP} then Relevant(records[..|records| - 1]) + [records[|records| - 1]]
    else Relevant(records[..|records| - 1])
  }

  lemma {:induction false} OtherTypesIgnored(records: seq<DataRecord>)
    ensures SampleOf(Relevant(records)) == SampleOf(records)
  {
    if |records| > 0 {
      var init := records[..|records| - 1];
      OtherTypesIgnored(init);
      var last := records[|records| - 1];
      if last.dataType in {TAVG, PRCP} {
        assert (Relevant(init) + [last])[..|Relevant(init)|] == Relevant(init);
      }
    }
  }

  /** Appending a record of another type changes nothing; appending a TAVG or PRCP record replaces just that field. */
  lemma AppendRecord(records: seq<DataRecord>, r: DataRecord)
    ensures r.dataType == TAVG ==> SampleOf(records + [r]) == SampleOf(records).(avgTemp := Some(r.value))
    ensures r.dataType == PRCP ==> SampleOf(records + [r]) == SampleOf(records).(rain := Some(r.value))
    ensures r.dataType !in {TAVG, PRCP} ==> SampleOf(records + [r]) == SampleOf(records)
  {
    assert (records + [r])[..|records|] == records;
  }
}
