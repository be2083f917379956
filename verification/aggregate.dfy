/**
 * Per-species aggregation: the data part of `plot_weather_data`, before the
 * table is handed to the plotting library.
 *
 * Samples stay optional values: the weather dictionary always has both keys,
 * so the default 0 of `weather.get(..., 0)` never applies, and a None sample
 * reaching `sum` raises a TypeError, which is the `NoneInSum` error here.
 */
module Aggregate {
  import opened Common
  import opened Collector

  /** The two lists `species_weather[species]` holds. */
  datatype Samples = Samples(temps: seq<Option<real>>, rains: seq<Option<real>>)

  /** One row of `aggregated_data`. */
  datatype Row = Row(species: string, avgTemp: int, rain: real)

  /** The TypeError `sum` raises on a None sample, with the species whose row was being built. */
  datatype AggregateError = NoneInSum(species: string)

  /** An observation adds samples: it has a species and its weather lookup did not fail. */
  predicate Contributes(o: Observation)
  {
    o.species != "" && o.weather.Some?
  }

  /** `{k: v for k, v in observations.items() if v["species"]}`, on the values in dictionary order. */
  function Named(observations: seq<Observation>): (named: seq<Observation>)
    ensures forall o :: o in named <==> o in observations && o.species != ""
  {
    if |observations| == 0 then []
    else
      var init := observations[..|observations| - 1];
      var o := observations[|observations| - 1];
      assert observations == init + [o];
      if o.species != "" then Named(init) + [o] else Named(init)
  }

  /** The species that contribute, each once, in order of first contribution. */
  function SpeciesOrder(observations: seq<Observation>): (order: seq<string>)
    ensures Distinct(order)
    ensures forall sp :: sp in order <==> exists o :: o in observations && Contributes(o) && o.species == sp
  {
    if |observations| == 0 then []
    else
      var init := observations[..|observations| - 1];
      var o := observations[|observations| - 1];
      assert observations == init + [o];
      var order := SpeciesOrder(init);
      if Contributes(o) && o.species !in order then order + [o.species] else order
  }

  /** How many observations of species `sp` contribute samples. */
  function CountOf(observations: seq<Observation>, sp: string): nat
  {
    if |observations| == 0 then 0
    else
      var o := observations[|observations| - 1];
      CountOf(observations[..|observations| - 1], sp) + if Contributes(o) && o.species == sp then 1 else 0
  }

  /** The temperature and rain samples of species `sp`, in observation order. */
  function SamplesOf(observations: seq<Observation>, sp: string): (s: Samples)
    ensures |s.temps| == |s.rains|
    ensures forall x :: x in s.temps <==>
              exists o :: o in observations && Contributes(o) && o.species == sp && o.weather.value.avgTemp == x
    ensures forall x :: x in s.rains <==>
              exists o :: o in observations && Contributes(o) && o.species == sp && o.weather.value.rain == x
  {
    if |observations| == 0 then Samples([], [])
    else
      var init := observations[..|observations| - 1];
      var o := observations[|observations| - 1];
      assert observations == init + [o];
      var s := SamplesOf(init, sp);
      if Contributes(o) && o.species == sp then
        Samples(s.temps + [o.weather.value.avgTemp], s.rains + [o.weather.value.rain])
      else s
  }

  /** Each list has one entry per contributing observation of the species. */
  lemma {:induction false} SamplesCount(observations: seq<Observation>, sp: string)
    ensures |SamplesOf(observations, sp).temps| == |SamplesOf(observations, sp).rains| == CountOf(observations, sp)
  {
    if |observations| > 0 {
      SamplesCount(observations[..|observations| - 1], sp);
    }
  }

  /** Distinct contributing observations get distinct positions: the count grows past each of them. */
  lemma {:induction false} CountGrows(observations: seq<Observation>, sp: string, i: int, j: int)
    requires 0 <= i < j <= |observations|
    requires Contributes(observations[i]) && observations[i].species == sp
    ensures CountOf(observations[..i], sp) < CountOf(observations[..j], sp)
    decreases j
  {
    assert observations[..j][..j - 1] == observations[..j - 1];
    if j > i + 1 {
      CountGrows(observations, sp, i, j - 1);
    }
  }

  /**
   * The samples are in observation order: those of observation `j` sit at
   * the position given by the number of contributing observations of the
   * same species before it.
   */
  lemma {:induction false} SamplesInOrder(observations: seq<Observation>, sp: string, j: int)
    requires 0 <= j < |observations| && Contributes(observations[j]) && observations[j].species == sp
    ensures var s, k := SamplesOf(observations, sp), CountOf(observations[..j], sp);
            && k < |s.temps|
            && s.temps[k] == observations[j].weather.value.avgTemp
            && s.rains[k] == observations[j].weather.value.rain
  {
    var init := observations[..|observations| - 1];
    SamplesCount(init, sp);
    if j < |init| {
      SamplesInOrder(init, sp, j);
      assert observations[..j] == init[..j];
      assert CountOf(init[..j], sp) < CountOf(init, sp);
    } else {
      assert observations[..j] == init;
    }
  }

  /** The grouping loop, run on observations that all have a species. */
  method Group(named: seq<Observation>) returns (groups: Dict<string, Samples>)
    requires forall o :: o in named ==> o.species != ""
    ensures groups.Valid()
    ensures groups.keys == SpeciesOrder(named)
    ensures forall sp :: sp in groups.entries ==> groups.entries[sp] == SamplesOf(named, sp)
  {
    groups := EmptyDict();
    for i := 0 to |named|
      invariant groups.Valid()
      invariant groups.keys == SpeciesOrder(named[..i])
      invariant forall sp :: sp in groups.entries ==> groups.entries[sp] == SamplesOf(named[..i], sp)
      invariant forall sp :: sp !in groups.entries ==> SamplesOf(named[..i], sp) == Samples([], [])
    {
      assert named[..i + 1][..i] == named[..i];
      var o := named[i];
      assert o in named;
      if o.weather.Some? {
        var weather := o.weather.value;
        var samples := if o.species in groups.entries then groups.entries[o.species] else Samples([], []);
        groups := groups.Put(o.species, Samples(samples.temps + [weather.avgTemp], samples.rains + [weather.rain]));
      }
    }
    assert named[..|named|] == named;
  }

  /** The species kept by the filter of lines 194-198: a species and two non-empty lists. */
  function Qualifying(keys: seq<string>, groups: map<string, Samples>): (kept: seq<string>)
    requires forall k :: k in keys ==> k in groups
    ensures forall k :: k in kept <==> k in keys && k != "" && |groups[k].temps| > 0 && |groups[k].rains| > 0
    ensures (forall k :: k in keys ==> k != "" && |groups[k].temps| > 0 && |groups[k].rains| > 0) ==> kept == keys
  {
    if |keys| == 0 then []
    else
      var rest := Qualifying(keys[1..], groups);
      assert keys == [keys[0]] + keys[1..];
      var k := keys[0];
      if k != "" && |groups[k].temps| > 0 && |groups[k].rains| > 0 then [k] + rest else rest
  }

  /** The present values of a list of optional samples, in order. */
  function Known(xs: seq<Option<real>>): (vs: seq<real>)
    ensures forall v :: v in vs <==> Some(v) in xs
    ensures None !in xs ==> |vs| == |xs| && forall i :: 0 <= i < |xs| ==> vs[i] == xs[i].value
  {
    if |xs| == 0 then []
    else
      assert xs == [xs[0]] + xs[1..];
      if xs[0].Some? then [xs[0].value] + Known(xs[1..]) else Known(xs[1..])
  }

  function Sum(xs: seq<real>): real
  {
    if |xs| == 0 then 0.0 else xs[0] + Sum(xs[1..])
  }

  /** Python's `int()` on a number: truncation toward zero. */
  function Trunc(x: real): (n: int)
    ensures 0.0 <= x ==> n as real <= x < n as real + 1.0
    ensures x < 0.0 ==> n as real - 1.0 < x <= n as real
  {
    if x >= 0.0 then x.Floor else -((-x).Floor)
  }

  /** `[{"species": s, "avg_temp": int(sum(t) / len(t)), "rain": sum(r)} for s in keys]`. */
  function RowsOf(keys: seq<string>, groups: map<string, Samples>): (r: Result<seq<Row>, AggregateError>)
    requires forall k :: k in keys ==> k in groups && |groups[k].temps| > 0
    ensures r.Ok? <==> forall k :: k in keys ==> None !in groups[k].temps && None !in groups[k].rains
    ensures r.Ok? ==> |r.value| == |keys|
    ensures r.Ok? ==> forall i :: 0 <= i < |keys| ==>
              var ts := Known(groups[keys[i]].temps);
              && r.value[i].species == keys[i]
              && |ts| > 0
              && r.value[i].avgTemp == Trunc(Sum(ts) / |ts| as real)
              && r.value[i].rain == Sum(Known(groups[keys[i]].rains))
    ensures r.Err? ==>
              exists i :: 0 <= i < |keys| && keys[i] == r.error.species
                && (None in groups[keys[i]].temps || None in groups[keys[i]].rains)
                && forall j :: 0 <= j < i ==> None !in groups[keys[j]].temps && None !in groups[keys[j]].rains
  {
    if |keys| == 0 then Ok([])
    else
      assert keys == [keys[0]] + keys[1..];
      var k := keys[0];
      var s := groups[k];
      if None in s.temps || None in s.rains then Err(NoneInSum(k))
      else
        var row := Row(k, Trunc(Sum(Known(s.temps)) / |s.temps| as real), Sum(Known(s.rains)));
        match RowsOf(keys[1..], groups)
        case Err(e) => Err(e)
        case Ok(rows) => Ok([row] + rows)
  }

  /** `plot_weather_data` up to the DataFrame: filter, group, then one row per species. */
  method AggregateWeather(observations: seq<Observation>) returns (r: Result<seq<Row>, AggregateError>)
    ensures r.Ok? <==>
              forall o :: o in observations && Contributes(o) ==> o.weather.value.avgTemp.Some? && o.weather.value.rain.Some?
    ensures r.Ok? ==> |r.value| == |SpeciesOrder(observations)|
    ensures r.Ok? ==> forall i :: 0 <= i < |r.value| ==>
              var sp := SpeciesOrder(observations)[i];
              var ts := Known(SamplesOf(observations, sp).temps);
              && r.value[i].species == sp
              && |ts| > 0
              && r.value[i].avgTemp == Trunc(Sum(ts) / |ts| as real)
              && r.value[i].rain == Sum(Known(SamplesOf(observations, sp).rains))
    ensures r.Err? ==>
              exists o :: o in observations && Contributes(o) && o.species == r.error.species
                && (o.weather.value.avgTemp.None? || o.weather.value.rain.None?)
  {
    var named := Named(observations);
    var groups := Group(named);
    NamedKeepsSamples(observations);
    ContributorsHaveSamples(observations);
    var kept := Qualifying(groups.keys, groups.entries);
    r := RowsOf(kept, groups.entries);
    CompleteSamples(observations);
    if r.Err? {
      IncompleteSamples(observations, r.error.species);
    }
  }

  /** Every species in the order has a name and at least one sample of each kind. */
  lemma ContributorsHaveSamples(observations: seq<Observation>)
    ensures forall sp :: sp in SpeciesOrder(observations) ==>
              sp != "" && |SamplesOf(observations, sp).temps| > 0 && |SamplesOf(observations, sp).rains| > 0
  {
    forall sp | sp in SpeciesOrder(observations)
      ensures sp != "" && |SamplesOf(observations, sp).temps| > 0 && |SamplesOf(observations, sp).rains| > 0
    {
      var o :| o in observations && Contributes(o) && o.species == sp;
      assert o.weather.value.avgTemp in SamplesOf(observations, sp).temps;
    }
  }

  /** No species has a None sample exactly when every contributing observation has both values. */
  lemma CompleteSamples(observations: seq<Observation>)
    ensures (forall sp :: sp in SpeciesOrder(observations) ==>
               None !in SamplesOf(observations, sp).temps && None !in SamplesOf(observations, sp).rains)
        <==> (forall o :: o in observations && Contributes(o) ==>
               o.weather.value.avgTemp.Some? && o.weather.value.rain.Some?)
  {
    if forall sp :: sp in SpeciesOrder(observations) ==>
         None !in SamplesOf(observations, sp).temps && None !in SamplesOf(observations, sp).rains
    {
      forall o | o in observations && Contributes(o)
        ensures o.weather.value.avgTemp.Some? && o.weather.value.rain.Some?
      {
        assert o.species in SpeciesOrder(observations);
        assert o.weather.value.avgTemp in SamplesOf(observations, o.species).temps;
        assert o.weather.value.rain in SamplesOf(observations, o.species).rains;
      }
    }
  }

  /** A species with a None sample has a contributing observation with a missing value. */
  lemma IncompleteSamples(observations: seq<Observation>, sp: string)
    requires None in SamplesOf(observations, sp).temps || None in SamplesOf(observations, sp).rains
    ensures exists o :: o in observations && Contributes(o) && o.species == sp
              && (o.weather.value.avgTemp.None? || o.weather.value.rain.None?)
  {
    if None in SamplesOf(observations, sp).temps {
      var o :| o in observations && Contributes(o) && o.species == sp && o.weather.value.avgTemp == None;
    } else {
      var o :| o in observations && Contributes(o) && o.species == sp && o.weather.value.rain == None;
    }
  }

  /** Dropping the observations without a species changes neither the species order nor any species' samples. */
  lemma {:induction false} NamedKeepsSamples(observations: seq<Observation>)
    ensures SpeciesOrder(Named(observations)) == SpeciesOrder(observations)
    ensures forall sp :: SamplesOf(Named(observations), sp) == SamplesOf(observations, sp)
  {
    if |observations| > 0 {
      var init := observations[..|observations| - 1];
      var o := observations[|observations| - 1];
      NamedKeepsSamples(init);
      if o.species != "" {
        var named := Named(init) + [o];
        assert named[..|named| - 1] == Named(init);
      }
    }
  }
}
