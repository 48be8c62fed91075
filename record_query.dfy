/**
 * `get_flight_records`: filter by airline and cabin, newest first, at most
 * `limit` records.
 */
module RecordQuery {
  import opened FlightRecords
  import opened Ordering

  /** A record passes the filters; a blank filter (None or "") passes everything. */
  predicate MatchesFilters(r: FlightRecord, airline: string, cabinClass: string): (b: bool)
    ensures airline == "" && cabinClass == "" ==> b
    ensures b && airline != "" ==> r.airline == airline
    ensures b && cabinClass != "" ==> r.cabinClass == cabinClass
  {
    (airline == "" || r.airline == airline) && (cabinClass == "" || r.cabinClass == cabinClass)
  }

  /** The records left after the two list comprehensions, in stored order. */
  function Selected(records: seq<FlightRecord>, airline: string, cabinClass: string): (s: seq<FlightRecord>)
    ensures |s| <= |records|
    ensures airline == "" && cabinClass == "" ==> s == records
  {
    var byAirline := if airline != "" then Keep(records, AirlineField, airline) else records;
    if cabinClass != "" then Keep(byAirline, CabinField, cabinClass) else byAirline
  }

  /** The filters keep every stored record that passes them, as often as it is
      stored, and nothing else. */
  lemma SelectedMembers(records: seq<FlightRecord>, airline: string, cabinClass: string)
    ensures forall r :: multiset(Selected(records, airline, cabinClass))[r] ==
                        (if MatchesFilters(r, airline, cabinClass) then multiset(records)[r] else 0)
  {
  }

  /** The length of `xs[:limit]` for a list of length `n` when `limit` is truthy;
      a zero limit does not truncate, a negative one drops records from the end. */
  function SliceLength(n: nat, limit: int): (k: nat)
    ensures k <= n
    ensures limit == 0 ==> k == n
    ensures limit > 0 ==> k == if limit < n then limit else n
    ensures limit < 0 ==> k == if n + limit > 0 then n + limit else 0
  {
    if limit == 0 then n
    else if limit > 0 then (if limit < n then limit else n)
    else if n + limit > 0 then n + limit
    else 0
  }

  /** `get_flight_records(airline, cabin_class, limit)` over the loaded records:
      every result passes the filters, results are newest first, their number
      follows Python's slice, and what was cut off is no newer than what was kept. */
  method GetFlightRecords(records: seq<FlightRecord>, airline: string, cabinClass: string, limit: int)
    returns (result: seq<FlightRecord>)
    ensures forall r :: r in result ==> r in records && MatchesFilters(r, airline, cabinClass)
    ensures SortedDesc(result, DateKey)
    ensures |result| == SliceLength(|Selected(records, airline, cabinClass)|, limit)
    ensures limit > 0 ==> |result| <= limit
    ensures multiset(result) <= multiset(Selected(records, airline, cabinClass))
    ensures limit == 0 ==> multiset(result) == multiset(Selected(records, airline, cabinClass))
    ensures forall x, y :: x in multiset(Selected(records, airline, cabinClass)) - multiset(result) && y in result
              ==> DateKey(y) >= DateKey(x)
  {
    var rs := records;
    if airline != "" {
      rs := Keep(rs, AirlineField, airline);
    }
    if cabinClass != "" {
      rs := Keep(rs, CabinField, cabinClass);
    }
    result := NewestFirst(rs, limit);
    SelectedMembers(records, airline, cabinClass);
    forall r | r in result ensures r in records && MatchesFilters(r, airline, cabinClass) {
      assert r in multiset(result);
      assert r in multiset(rs);
    }
  }

  /** `records.sort(key=record_date, reverse=True)` followed by `records[:limit]`. */
  method NewestFirst(rs: seq<FlightRecord>, limit: int) returns (result: seq<FlightRecord>)
    ensures SortedDesc(result, DateKey)
    ensures |result| == SliceLength(|rs|, limit)
    ensures multiset(result) <= multiset(rs)
    ensures limit == 0 ==> multiset(result) == multiset(rs)
    ensures forall x, y :: x in multiset(rs) - multiset(result) && y in result ==> DateKey(y) >= DateKey(x)
  {
    var sorted := SortedNewestFirst(rs);
    var k := SliceLength(|sorted|, limit);
    SortedPrefixHoldsLargest(sorted, DateKey, k);
    result := sorted[..k];
    assert k == |sorted| ==> result == sorted;
  }

  /** `records.sort(key=record_date, reverse=True)` on a copy of the list. */
  method SortedNewestFirst(rs: seq<FlightRecord>) returns (sorted: seq<FlightRecord>)
    ensures SortedDesc(sorted, DateKey)
    ensures multiset(sorted) == multiset(rs)
    ensures |sorted| == |rs|
  {
    var a := new FlightRecord[|rs|](i requires 0 <= i < |rs| => rs[i]);
    assert a[..] == rs;
    SortDescendingInPlace(a, DateKey);
    sorted := a[..];
  }
}
