/**
 * The figures the example reports derive from statistics and records: the
 * membership tier of a mileage, the three most flown airlines, the longest and
 * shortest flight, and how many distinct airlines and cabins were used.
 */
module Insights {
  import opened FlightRecords
  import opened Tallies
  import opened Ordering

  /** The four membership tiers, lowest first. */
  datatype Tier = Ordinary | Silver | Gold | Platinum

  const PlatinumMiles := 100000
  const GoldMiles := 50000
  const SilverMiles := 10000

  /** A tier's position in the order Ordinary < Silver < Gold < Platinum. */
  function TierRank(t: Tier): nat {
    match t
    case Ordinary => 0
    case Silver => 1
    case Gold => 2
    case Platinum => 3
  }

  /** The tier a year's total mileage earns: the highest threshold it reaches. */
  function MembershipTier(totalMiles: int): (t: Tier)
    ensures t == Platinum <==> totalMiles >= PlatinumMiles
    ensures t == Gold <==> GoldMiles <= totalMiles < PlatinumMiles
    ensures t == Silver <==> SilverMiles <= totalMiles < GoldMiles
    ensures t == Ordinary <==> totalMiles < SilverMiles
  {
    if totalMiles >= PlatinumMiles then Platinum
    else if totalMiles >= GoldMiles then Gold
    else if totalMiles >= SilverMiles then Silver
    else Ordinary
  }

  /** Flying more never lowers the tier. */
  lemma TierMonotone(m: int, n: int)
    requires m <= n
    ensures TierRank(MembershipTier(m)) <= TierRank(MembershipTier(n))
  {
  }

  /** How many entries the top list keeps: three, or all when there are fewer. */
  function TopCount(n: nat): nat {
    if n < 3 then n else 3
  }

  /** The airline tally sorted by count, most flown first, cut to three entries. */
  function TopAirlines(t: Tally): (top: seq<(string, nat)>)
    ensures |top| == TopCount(|t|)
  {
    var sorted := SortDesc(t, EntryCount);
    sorted[..TopCount(|t|)]
  }

  /** The top list holds min(3, n) entries of the tally, most flown first, and
      every entry left out was flown no more often than any entry kept. */
  lemma TopAirlinesAreMostFlown(t: Tally)
    ensures |TopAirlines(t)| == TopCount(|t|)
    ensures SortedDesc(TopAirlines(t), EntryCount)
    ensures multiset(TopAirlines(t)) <= multiset(t)
    ensures forall x, y :: x in multiset(t) - multiset(TopAirlines(t)) && y in TopAirlines(t) ==>
              EntryCount(y) >= EntryCount(x)
  {
    var sorted := SortDesc(t, EntryCount);
    var top := TopAirlines(t);
    assert top == sorted[..TopCount(|t|)];
    SortDescSorted(t, EntryCount);
    SortedPrefixHoldsLargest(sorted, EntryCount, TopCount(|t|));
  }

  function MilesOf(r: FlightRecord): int { r.miles }

  function NegatedMiles(r: FlightRecord): int { -r.miles }

  /** `max` by miles: the first record with the largest mileage. */
  function LongestFlight(rs: seq<FlightRecord>): (r: FlightRecord)
    requires |rs| > 0
    ensures r in rs
    ensures forall x | x in rs :: x.miles <= r.miles
  {
    rs[FirstMaxIndex(rs, MilesOf)]
  }

  /** `min` by miles: the first record with the smallest mileage. */
  function ShortestFlight(rs: seq<FlightRecord>): (r: FlightRecord)
    requires |rs| > 0
    ensures r in rs
    ensures forall x | x in rs :: r.miles <= x.miles
  {
    rs[FirstMaxIndex(rs, NegatedMiles)]
  }

  /** Ties go to the earliest record, as `max` and `min` keep the first one met:
      every record before the chosen one is strictly shorter (longer). */
  lemma ExtremesPreferEarliest(rs: seq<FlightRecord>)
    requires |rs| > 0
    ensures exists i :: 0 <= i < |rs| && rs[i] == LongestFlight(rs) &&
              forall j :: 0 <= j < i ==> rs[j].miles < rs[i].miles
    ensures exists i :: 0 <= i < |rs| && rs[i] == ShortestFlight(rs) &&
              forall j :: 0 <= j < i ==> rs[j].miles > rs[i].miles
  {
    var m := FirstMaxIndex(rs, MilesOf);
    var n := FirstMaxIndex(rs, NegatedMiles);
    assert forall j :: 0 <= j < m ==> MilesOf(rs[j]) < MilesOf(rs[m]);
    assert forall j :: 0 <= j < n ==> NegatedMiles(rs[j]) < NegatedMiles(rs[n]);
  }

  /** The set of airlines (or cabins) the records use. */
  function DistinctValues(rs: seq<FlightRecord>, f: Field): (values: set<string>)
    ensures |rs| > 0 ==> FieldOf(rs[0], f) in values
  {
    set r | r in rs :: FieldOf(r, f)
  }

  /** Every distinct value is some record's, and every record's value is there. */
  lemma DistinctValuesMembers(rs: seq<FlightRecord>, f: Field, v: string)
    ensures v in DistinctValues(rs, f) <==> exists i :: 0 <= i < |rs| && FieldOf(rs[i], f) == v
  {
    if v in DistinctValues(rs, f) {
      var r :| r in rs && FieldOf(r, f) == v;
      var i :| 0 <= i < |rs| && rs[i] == r;
    }
  }

  lemma DistinctValuesSnoc(init: seq<FlightRecord>, last: FlightRecord, f: Field)
    ensures DistinctValues(init + [last], f) == DistinctValues(init, f) + {FieldOf(last, f)}
  {
    var rs := init + [last];
    forall v | v in DistinctValues(rs, f) ensures v in DistinctValues(init, f) + {FieldOf(last, f)} {
      var r :| r in rs && FieldOf(r, f) == v;
      if r != last {
        assert r in init;
      }
    }
    forall v | v in DistinctValues(init, f) ensures v in DistinctValues(rs, f) {
      var r :| r in init && FieldOf(r, f) == v;
      assert r in rs;
    }
    assert last in rs;
  }

  /** There are never more distinct values than records, and at least one when
      there is a record. */
  lemma {:induction false} DistinctValuesBounds(rs: seq<FlightRecord>, f: Field)
    ensures |DistinctValues(rs, f)| <= |rs|
    ensures |rs| > 0 ==> |DistinctValues(rs, f)| >= 1
  {
    if rs == [] {
      assert DistinctValues(rs, f) == {};
    } else {
      var init := rs[..|rs| - 1];
      assert rs == init + [rs[|rs| - 1]];
      DistinctValuesBounds(init, f);
      DistinctValuesSnoc(init, rs[|rs| - 1], f);
    }
  }
}
