/**
 * `get_flight_statistics`: the records of a year and/or month, their count,
 * miles, per-airline and per-cabin tallies, international/domestic split and
 * the most-flown airline.
 */
module Statistics {
  import opened Optional
  import opened FlightRecords
  import opened Tallies
  import Ordering

  /** A record falls in the period; a zero year or month (Python's falsy value) does not filter. */
  predicate PeriodMatch(r: FlightRecord, year: int, month: int): (b: bool)
    ensures year == 0 && month == 0 ==> b
    ensures b && year != 0 ==> r.recordDate.year == year
    ensures b && month != 0 ==> r.recordDate.month == month
  {
    (year == 0 || r.recordDate.year == year) && (month == 0 || r.recordDate.month == month)
  }

  /** The `filtered_records` list: the records of the period, in stored order. */
  function InPeriod(rs: seq<FlightRecord>, year: int, month: int): (f: seq<FlightRecord>)
    ensures |f| <= |rs|
  {
    if rs == [] then []
    else
      var last := rs[|rs| - 1];
      InPeriod(rs[..|rs| - 1], year, month) + (if PeriodMatch(last, year, month) then [last] else [])
  }

  /** The dictionary built by counting one field over `rs` in order. */
  function TallyBy(rs: seq<FlightRecord>, f: Field): (t: Tally)
    ensures |t| <= |rs|
    ensures rs != [] ==> |t| >= 1
  {
    if rs == [] then [] else Bump(TallyBy(rs[..|rs| - 1], f), FieldOf(rs[|rs| - 1], f))
  }

  /** `max(d, key=d.get) if d else 'N/A'`. */
  function TopName(t: Tally): (name: string)
    ensures t == [] ==> name == "N/A"
    ensures t != [] ==> exists i :: 0 <= i < |t| && t[i].0 == name && forall j :: 0 <= j < |t| ==> t[j].1 <= t[i].1
  {
    if t == [] then "N/A" else t[Ordering.FirstMaxIndex(t, EntryCount)].0
  }

  /** The statistics dictionary, without its float average and its `period` label. */
  datatype Stats = Stats(
    totalFlights: nat,
    totalMiles: int,
    internationalFlights: nat,
    domesticFlights: int,
    airlinePreference: Tally,
    cabinDistribution: Tally,
    topAirline: string)

  /** The report for a period; None stands for the empty dict returned when
      classifying a record of the period raises. */
  function StatisticsOf(records: seq<FlightRecord>, year: int, month: int): (s: Option<Stats>)
    ensures s.Some? ==> s.value.totalFlights <= |records|
    ensures s.Some? ==> s.value.internationalFlights <= s.value.totalFlights
    ensures s.Some? ==> (s.value.totalFlights == 0 <==> s.value.airlinePreference == [])
  {
    var f := InPeriod(records, year, month);
    if !AllClassifiable(f) then None
    else
      var airlines := TallyBy(f, AirlineField);
      Some(Stats(|f|, SumMiles(f), CountInternational(f), |f| - CountInternational(f),
                 airlines, TallyBy(f, CabinField), TopName(airlines)))
  }

  /** `get_flight_statistics(year, month)` over the loaded records. */
  method FlightStatistics(records: seq<FlightRecord>, year: int, month: int) returns (stats: Option<Stats>)
    ensures stats == StatisticsOf(records, year, month)
  {
    var filtered := SelectPeriod(records, year, month);
    var totalFlights := |filtered|;
    var totalMiles := SumMiles(filtered);
    var airlineCount := CountByField(filtered, AirlineField);
    var cabinDistribution := CountByField(filtered, CabinField);
    var international := CountInternationalFlights(filtered);
    if international.None? {
      return None;
    }
    stats := Some(Stats(totalFlights, totalMiles, international.value, totalFlights - international.value,
                        airlineCount, cabinDistribution, TopName(airlineCount)));
  }

  /** The loop that builds `filtered_records`. */
  method SelectPeriod(records: seq<FlightRecord>, year: int, month: int) returns (filtered: seq<FlightRecord>)
    ensures filtered == InPeriod(records, year, month)
  {
    filtered := [];
    for i := 0 to |records|
      invariant filtered == InPeriod(records[..i], year, month)
    {
      assert records[..i + 1][..i] == records[..i];
      var r := records[i];
      if year != 0 && r.recordDate.year != year {
        continue;
      }
      if month != 0 && r.recordDate.month != month {
        continue;
      }
      filtered := filtered + [r];
    }
    assert records[..|records|] == records;
  }

  /** The loop that fills `airline_count` or `cabin_distribution`. */
  method CountByField(rs: seq<FlightRecord>, f: Field) returns (tally: Tally)
    ensures tally == TallyBy(rs, f)
  {
    tally := [];
    for i := 0 to |rs|
      invariant tally == TallyBy(rs[..i], f)
    {
      assert rs[..i + 1][..i] == rs[..i];
      tally := Bump(tally, FieldOf(rs[i], f));
    }
    assert rs[..|rs|] == rs;
  }

  /** The generator sum of international flights; None when indexing an empty
      airport code raises. */
  method CountInternationalFlights(rs: seq<FlightRecord>) returns (count: Option<nat>)
    ensures count.Some? <==> AllClassifiable(rs)
    ensures count.Some? ==> count.value == CountInternational(rs)
  {
    var n := 0;
    for i := 0 to |rs|
      invariant AllClassifiable(rs[..i])
      invariant n == CountInternational(rs[..i])
    {
      assert rs[..i + 1][..i] == rs[..i];
      var r := rs[i];
      if !Classifiable(r) {
        return None;
      }
      if r.departureAirport[0] != DomesticPrefix || r.arrivalAirport[0] != DomesticPrefix {
        n := n + 1;
      }
    }
    assert rs[..|rs|] == rs;
    count := Some(n);
  }

  /** The period filter keeps exactly the records of the period, each as often
      as it is stored. */
  lemma {:induction false} InPeriodMembers(rs: seq<FlightRecord>, year: int, month: int)
    ensures forall r :: multiset(InPeriod(rs, year, month))[r] == if PeriodMatch(r, year, month) then multiset(rs)[r] else 0
  {
    if rs != [] {
      InPeriodMembers(rs[..|rs| - 1], year, month);
      assert rs == rs[..|rs| - 1] + [rs[|rs| - 1]];
    }
  }

  /** The number of flights in the period is the number of stored positions whose
      record falls in it. */
  lemma {:induction false} InPeriodCount(rs: seq<FlightRecord>, year: int, month: int)
    ensures |InPeriod(rs, year, month)| == |set i | 0 <= i < |rs| && PeriodMatch(rs[i], year, month)|
  {
    if rs != [] {
      InPeriodCount(rs[..|rs| - 1], year, month);
      MatchingPositionsSnoc(rs, year, month);
    }
  }

  /** The matching positions of a non-empty log are those of all but its last
      record, plus the last position when that record matches. */
  lemma MatchingPositionsSnoc(rs: seq<FlightRecord>, year: int, month: int)
    requires rs != []
    ensures var n := |rs|;
      var p := rs[..n - 1];
      |set i | 0 <= i < n && PeriodMatch(rs[i], year, month)|
        == |set i | 0 <= i < |p| && PeriodMatch(p[i], year, month)| + (if PeriodMatch(rs[n - 1], year, month) then 1 else 0)
  {
    var n := |rs|;
    var p := rs[..n - 1];
    var sp := set i | 0 <= i < |p| && PeriodMatch(p[i], year, month);
    var s := set i | 0 <= i < n && PeriodMatch(rs[i], year, month);
    var extra := if PeriodMatch(rs[n - 1], year, month) then {n - 1} else {};
    forall i | i in s ensures i in sp + extra {
      if i < n - 1 { assert p[i] == rs[i]; }
    }
    forall i | i in sp + extra ensures i in s {
      if i < n - 1 { assert p[i] == rs[i]; }
    }
    assert s == sp + extra;
    assert sp !! extra;
  }

  /** With neither a year nor a month every record is kept. */
  lemma {:induction false} InPeriodUnfiltered(rs: seq<FlightRecord>)
    ensures InPeriod(rs, 0, 0) == rs
  {
    if rs != [] {
      InPeriodUnfiltered(rs[..|rs| - 1]);
      assert rs == rs[..|rs| - 1] + [rs[|rs| - 1]];
    }
  }

  lemma InPeriodClassifiable(rs: seq<FlightRecord>, year: int, month: int)
    requires AllClassifiable(rs)
    ensures AllClassifiable(InPeriod(rs, year, month))
  {
    InPeriodMembers(rs, year, month);
    var f := InPeriod(rs, year, month);
    forall i | 0 <= i < |f| ensures Classifiable(f[i]) {
      assert f[i] in multiset(f);
      assert f[i] in multiset(rs);
    }
  }

  /** A per-field tally has distinct keys, one for each value that occurs. */
  lemma {:induction false} TallyByKeys(rs: seq<FlightRecord>, f: Field)
    ensures DistinctKeys(TallyBy(rs, f))
    ensures Keys(TallyBy(rs, f)) == set r | r in rs :: FieldOf(r, f)
  {
    if rs != [] {
      var p := rs[..|rs| - 1];
      var last := rs[|rs| - 1];
      TallyByKeys(p, f);
      BumpKeys(TallyBy(p, f), FieldOf(last, f));
      assert rs == p + [last];
      assert (set r | r in rs :: FieldOf(r, f)) == (set r | r in p :: FieldOf(r, f)) + {FieldOf(last, f)};
    }
  }

  /** The count of a value is the number of records carrying it (the length of
      the list `[r for r in rs if r[field] == value]`). */
  lemma {:induction false} TallyByValueCounts(rs: seq<FlightRecord>, f: Field)
    ensures forall v :: CountOf(TallyBy(rs, f), v) == |Keep(rs, f, v)|
  {
    if rs != [] {
      var p := rs[..|rs| - 1];
      var last := rs[|rs| - 1];
      TallyByValueCounts(p, f);
      TallyByKeys(p, f);
      BumpCounts(TallyBy(p, f), FieldOf(last, f));
    }
  }

  /** The counts of a per-field tally sum to the number of records. */
  lemma {:induction false} TallyByTotal(rs: seq<FlightRecord>, f: Field)
    ensures Total(TallyBy(rs, f)) == |rs|
  {
    if rs != [] {
      TallyByTotal(rs[..|rs| - 1], f);
      BumpTotal(TallyBy(rs[..|rs| - 1], f), FieldOf(rs[|rs| - 1], f));
    }
  }

  /** A per-field tally has distinct keys, one for each value that occurs, the
      count of a value is the number of records carrying it, and the counts sum to |rs|. */
  lemma TallyByCounts(rs: seq<FlightRecord>, f: Field)
    ensures DistinctKeys(TallyBy(rs, f))
    ensures Keys(TallyBy(rs, f)) == set r | r in rs :: FieldOf(r, f)
    ensures forall v :: CountOf(TallyBy(rs, f), v) == |Keep(rs, f, v)|
    ensures Total(TallyBy(rs, f)) == |rs|
  {
    TallyByKeys(rs, f);
    TallyByValueCounts(rs, f);
    TallyByTotal(rs, f);
  }

  /** In `rs`, a record whose field is `a` comes before every record whose field is `b`. */
  ghost predicate SeenBefore(rs: seq<FlightRecord>, f: Field, a: string, b: string) {
    exists p :: 0 <= p < |rs| && FieldOf(rs[p], f) == a && forall q :: 0 <= q <= p ==> FieldOf(rs[q], f) != b
  }

  /** Appending a record keeps which value was seen first. */
  lemma SeenBeforeSnoc(rs: seq<FlightRecord>, f: Field, a: string, b: string, x: FlightRecord)
    requires SeenBefore(rs, f, a, b)
    ensures SeenBefore(rs + [x], f, a, b)
  {
    var p :| 0 <= p < |rs| && FieldOf(rs[p], f) == a && forall q :: 0 <= q <= p ==> FieldOf(rs[q], f) != b;
    var s := rs + [x];
    assert s[p] == rs[p];
    forall q | 0 <= q <= p ensures FieldOf(s[q], f) != b {
      assert s[q] == rs[q];
    }
  }

  /** A value already seen comes before a value that first shows up in an appended record. */
  lemma SeenBeforeNewValue(rs: seq<FlightRecord>, f: Field, a: string, b: string, x: FlightRecord)
    requires a in (set r | r in rs :: FieldOf(r, f))
    requires b !in (set r | r in rs :: FieldOf(r, f))
    ensures SeenBefore(rs + [x], f, a, b)
  {
    var r :| r in rs && FieldOf(r, f) == a;
    var p :| 0 <= p < |rs| && rs[p] == r;
    var s := rs + [x];
    assert s[p] == rs[p];
    forall q | 0 <= q <= p ensures FieldOf(s[q], f) != b {
      assert s[q] == rs[q] && rs[q] in rs;
    }
  }

  /** A tally lists its keys in the order their values first occur in the records
      (Python dicts keep insertion order). */
  lemma {:induction false} TallyByFirstSeenOrder(rs: seq<FlightRecord>, f: Field)
    ensures var t := TallyBy(rs, f);
      forall i, j :: 0 <= i < j < |t| ==> SeenBefore(rs, f, t[i].0, t[j].0)
  {
    if rs != [] {
      var p := rs[..|rs| - 1];
      var last := rs[|rs| - 1];
      var v := FieldOf(last, f);
      var tp := TallyBy(p, f);
      var t := TallyBy(rs, f);
      assert rs == p + [last];
      TallyByFirstSeenOrder(p, f);
      TallyByKeys(p, f);
      BumpInPlace(tp, v);
      if v in Keys(tp) {
        var k :| 0 <= k < |tp| && tp[k].0 == v;
        assert t == tp[k := (v, tp[k].1 + 1)];
        FirstSeenKeptKeys(p, f, last, tp, t);
      } else {
        forall i | 0 <= i < |tp| ensures tp[i].0 in (set r | r in p :: FieldOf(r, f)) {
          assert tp[i].0 in Keys(tp);
        }
        FirstSeenNewKey(p, f, last, tp, v);
      }
    }
  }

  /** A bump that leaves every key at its position keeps the first-seen order. */
  lemma FirstSeenKeptKeys(p: seq<FlightRecord>, f: Field, last: FlightRecord, tp: Tally, t: Tally)
    requires forall i, j :: 0 <= i < j < |tp| ==> SeenBefore(p, f, tp[i].0, tp[j].0)
    requires |t| == |tp| && forall i :: 0 <= i < |t| ==> t[i].0 == tp[i].0
    ensures forall i, j :: 0 <= i < j < |t| ==> SeenBefore(p + [last], f, t[i].0, t[j].0)
  {
    forall i, j | 0 <= i < j < |t| ensures SeenBefore(p + [last], f, t[i].0, t[j].0) {
      SeenBeforeSnoc(p, f, tp[i].0, tp[j].0, last);
    }
  }

  /** A key appended for a value not seen before comes after every stored key. */
  lemma FirstSeenNewKey(p: seq<FlightRecord>, f: Field, last: FlightRecord, tp: Tally, v: string)
    requires forall i, j :: 0 <= i < j < |tp| ==> SeenBefore(p, f, tp[i].0, tp[j].0)
    requires forall i :: 0 <= i < |tp| ==> tp[i].0 in (set r | r in p :: FieldOf(r, f))
    requires v !in (set r | r in p :: FieldOf(r, f))
    ensures var t := tp + [(v, 1)];
      forall i, j :: 0 <= i < j < |t| ==> SeenBefore(p + [last], f, t[i].0, t[j].0)
  {
    var t := tp + [(v, 1)];
    forall i, j | 0 <= i < j < |t| ensures SeenBefore(p + [last], f, t[i].0, t[j].0) {
      if j < |tp| {
        SeenBeforeSnoc(p, f, tp[i].0, tp[j].0, last);
      } else {
        SeenBeforeNewValue(p, f, tp[i].0, v, last);
      }
    }
  }

  /** The statistics exist exactly when every record of the period can be classified. */
  lemma StatisticsDefined(records: seq<FlightRecord>, year: int, month: int)
    ensures StatisticsOf(records, year, month).Some? <==> AllClassifiable(InPeriod(records, year, month))
    ensures AllClassifiable(records) ==> StatisticsOf(records, year, month).Some?
  {
    if AllClassifiable(records) {
      InPeriodClassifiable(records, year, month);
    }
  }

  /** The report's numbers agree with each other: both tallies sum to the
      number of flights, international and domestic flights split it, and the
      domestic figure is the number of flights between two domestic airports. */
  lemma StatisticsConsistent(records: seq<FlightRecord>, year: int, month: int)
    requires StatisticsOf(records, year, month).Some?
    ensures var s := StatisticsOf(records, year, month).value;
      && s.totalFlights == |set i | 0 <= i < |records| && PeriodMatch(records[i], year, month)|
      && Total(s.airlinePreference) == s.totalFlights
      && Total(s.cabinDistribution) == s.totalFlights
      && s.internationalFlights + s.domesticFlights == s.totalFlights
      && s.internationalFlights <= s.totalFlights
      && s.domesticFlights == CountDomestic(InPeriod(records, year, month))
  {
    var f := InPeriod(records, year, month);
    InPeriodCount(records, year, month);
    TallyByCounts(f, AirlineField);
    TallyByCounts(f, CabinField);
    InternationalPlusDomestic(f);
  }

  /** Without filters the report covers every record and all their miles. */
  lemma StatisticsOfEverything(records: seq<FlightRecord>)
    requires AllClassifiable(records)
    ensures StatisticsOf(records, 0, 0).Some?
    ensures StatisticsOf(records, 0, 0).value.totalFlights == |records|
    ensures StatisticsOf(records, 0, 0).value.totalMiles == SumMiles(records)
  {
    InPeriodUnfiltered(records);
  }

  /** The top airline is 'N/A' when nothing was counted; otherwise it is an
      airline of the period flown at least as often as every other airline,
      and the first such in the order airlines were first seen. */
  lemma TopAirlineMostFlown(records: seq<FlightRecord>, year: int, month: int)
    requires StatisticsOf(records, year, month).Some?
    ensures var s := StatisticsOf(records, year, month).value;
      var f := InPeriod(records, year, month);
      && (s.totalFlights == 0 <==> s.airlinePreference == [])
      && (s.totalFlights == 0 ==> s.topAirline == "N/A")
      && (s.totalFlights > 0 ==>
            && (exists r :: r in f && r.airline == s.topAirline)
            && (forall a :: |Keep(f, AirlineField, a)| <= |Keep(f, AirlineField, s.topAirline)|)
            && (forall i :: 0 <= i < |s.airlinePreference| && s.airlinePreference[i].0 != s.topAirline
                  && CountOf(s.airlinePreference, s.airlinePreference[i].0) == CountOf(s.airlinePreference, s.topAirline)
                  ==> exists j :: 0 <= j < i && s.airlinePreference[j].0 == s.topAirline)
            && (forall a :: a != s.topAirline && |Keep(f, AirlineField, a)| == |Keep(f, AirlineField, s.topAirline)|
                  ==> SeenBefore(f, AirlineField, s.topAirline, a)))
  {
    var f := InPeriod(records, year, month);
    var s := StatisticsOf(records, year, month).value;
    TallyByCounts(f, AirlineField);
    if f != [] {
      assert f[0] in f && FieldOf(f[0], AirlineField) == f[0].airline;
      assert f[0].airline in Keys(TallyBy(f, AirlineField));
      TopNameOfAirlineTally(f);
      forall a | a != s.topAirline && |Keep(f, AirlineField, a)| == |Keep(f, AirlineField, s.topAirline)|
        ensures SeenBefore(f, AirlineField, s.topAirline, a)
      {
        TopNameFirstSeen(f, a);
      }
    }
  }

  /** The name `max(d, key=d.get)` picks from the airline tally of non-empty
      records: an airline flown there, flown at least as often as any other,
      and the first such in tally order. */
  lemma TopNameOfAirlineTally(f: seq<FlightRecord>)
    requires f != []
    ensures var t := TallyBy(f, AirlineField);
      var top := TopName(t);
      && (exists r :: r in f && r.airline == top)
      && (forall a :: |Keep(f, AirlineField, a)| <= |Keep(f, AirlineField, top)|)
      && (forall i :: 0 <= i < |t| && t[i].0 != top && CountOf(t, t[i].0) == CountOf(t, top)
            ==> exists j :: 0 <= j < i && t[j].0 == top)
  {
    var t := TallyBy(f, AirlineField);
    TallyByCounts(f, AirlineField);
    assert f[0] in f && FieldOf(f[0], AirlineField) == f[0].airline;
    assert f[0].airline in Keys(t);
    var m := Ordering.FirstMaxIndex(t, EntryCount);
    var top := t[m].0;
    assert top in Keys(t);
    CountOfAt(t, m);
    forall a ensures |Keep(f, AirlineField, a)| <= |Keep(f, AirlineField, top)| {
      if a in Keys(t) {
        var j :| 0 <= j < |t| && t[j].0 == a;
        CountOfAt(t, j);
        assert EntryCount(t[j]) <= EntryCount(t[m]);
      } else {
        CountOfMissing(t, a);
      }
    }
    forall i | 0 <= i < |t| && t[i].0 != top && CountOf(t, t[i].0) == CountOf(t, top)
      ensures exists j :: 0 <= j < i && t[j].0 == top
    {
      TopNameFirstAmongTies(t, i);
    }
  }

  /** An airline flown as often as the top name first appears in the records
      after the top name does: ties go to the airline seen first. */
  lemma TopNameFirstSeen(f: seq<FlightRecord>, a: string)
    requires f != []
    ensures var top := TopName(TallyBy(f, AirlineField));
      a != top && |Keep(f, AirlineField, a)| == |Keep(f, AirlineField, top)| ==> SeenBefore(f, AirlineField, top, a)
  {
    var t := TallyBy(f, AirlineField);
    var top := TopName(t);
    if a == top || |Keep(f, AirlineField, a)| != |Keep(f, AirlineField, top)| {
      return;
    }
    TopNameOfAirlineTally(f);
    TallyByCounts(f, AirlineField);
    var r :| r in f && r.airline == top;
    assert multiset(Keep(f, AirlineField, top))[r] > 0;
    var ka := Keep(f, AirlineField, a);
    assert |ka| > 0;
    assert ka[0] in multiset(ka);
    assert ka[0] in f && FieldOf(ka[0], AirlineField) == a;
    assert a in Keys(t);
    var ia :| 0 <= ia < |t| && t[ia].0 == a;
    CountOfAt(t, ia);
    TopNameFirstAmongTies(t, ia);
    var j :| 0 <= j < ia && t[j].0 == top;
    TallyByFirstSeenOrder(f, AirlineField);
  }

  /** An entry as frequent as the top name but with another key comes after it. */
  lemma TopNameFirstAmongTies(t: Tally, i: nat)
    requires DistinctKeys(t) && i < |t|
    requires t[i].0 != TopName(t) && CountOf(t, t[i].0) == CountOf(t, TopName(t))
    ensures exists j :: 0 <= j < i && t[j].0 == TopName(t)
  {
    var m := Ordering.FirstMaxIndex(t, EntryCount);
    CountOfAt(t, i);
    CountOfAt(t, m);
    assert EntryCount(t[i]) == EntryCount(t[m]);
    assert m < i;
  }
}
