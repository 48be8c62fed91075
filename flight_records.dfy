/**
 * Flight records (the `FlightRecord` dataclass) and the per-record predicates
 * the tracker uses: the domestic/international split, the record key, and the
 * list-comprehension filters on one field.
 */
module FlightRecords {

  /** `record_date`: its ISO text is kept as its chronological position plus the
      calendar year and month that `datetime.fromisoformat` extracts from it. */
  datatype Timestamp = Timestamp(instant: int, year: int, month: int)

  datatype FlightRecord = FlightRecord(
    flightNumber: string,
    departureAirport: string,
    arrivalAirport: string,
    departureTime: string,
    arrivalTime: string,
    airline: string,
    cabinClass: string,
    miles: int,
    recordDate: Timestamp)

  /** The two string fields the tracker groups and filters by. */
  datatype Field = AirlineField | CabinField

  function FieldOf(r: FlightRecord, f: Field): string {
    match f
    case AirlineField => r.airline
    case CabinField => r.cabinClass
  }

  /** The sort key of `get_flight_records`. */
  function DateKey(r: FlightRecord): int {
    r.recordDate.instant
  }

  /** The domestic-airport marker: a code starting with this letter is domestic. */
  const DomesticPrefix: char := 'Z'

  /** True when the international test can be evaluated without indexing an empty
      code. Python's `and`/`or` short-circuit, so the arrival code is only looked
      at when the departure code starts with the domestic marker. */
  predicate Classifiable(r: FlightRecord) {
    |r.departureAirport| > 0 && (r.departureAirport[0] == DomesticPrefix ==> |r.arrivalAirport| > 0)
  }

  predicate AllClassifiable(rs: seq<FlightRecord>) {
    forall i | 0 <= i < |rs| :: Classifiable(rs[i])
  }

  /** A domestic flight: both airport codes start with the marker. */
  predicate IsDomestic(r: FlightRecord)
    requires Classifiable(r)
  {
    r.departureAirport[0] == DomesticPrefix && r.arrivalAirport[0] == DomesticPrefix
  }

  /** The inline test used when counting international flights in statistics and
      in the achievement check. */
  predicate CountsAsInternational(r: FlightRecord)
    requires Classifiable(r)
  {
    r.departureAirport[0] != DomesticPrefix || r.arrivalAirport[0] != DomesticPrefix
  }

  /** `FlightRecord.is_international`: it agrees with the inline counting test
      and is the exact negation of being domestic. */
  function IsInternational(r: FlightRecord): (b: bool)
    requires Classifiable(r)
    ensures b == CountsAsInternational(r)
    ensures b != IsDomestic(r)
  {
    !(r.departureAirport[0] == DomesticPrefix && r.arrivalAirport[0] == DomesticPrefix)
  }

  /** `FlightRecord.get_key`: flight number, departure time and departure airport
      joined by underscores. */
  function RecordKey(r: FlightRecord): (key: string)
    ensures |key| == |r.flightNumber| + |r.departureTime| + |r.departureAirport| + 2
    ensures key[..|r.flightNumber|] == r.flightNumber && key[|r.flightNumber|] == '_'
    ensures key[|key| - |r.departureAirport|..] == r.departureAirport
  {
    r.flightNumber + "_" + r.departureTime + "_" + r.departureAirport
  }

  lemma SeparatorSplitsUniquely(x1: string, y1: string, x2: string, y2: string)
    requires '_' !in x1 && '_' !in x2
    requires x1 + "_" + y1 == x2 + "_" + y2
    ensures x1 == x2 && y1 == y2
  {
    var s := x1 + "_" + y1;
    assert s[|x1|] == '_';
    assert s == x2 + "_" + y2;
    assert s[|x2|] == '_';
    assert x1 == s[..|x1|] == x2;
    assert y1 == s[|x1| + 1..] == y2;
  }

  /** The key identifies a record's flight number, departure time and departure
      airport as long as the first two contain no underscore (true of flight
      numbers and ISO timestamps). */
  lemma RecordKeyIdentifiesFlight(a: FlightRecord, b: FlightRecord)
    requires '_' !in a.flightNumber && '_' !in a.departureTime
    requires '_' !in b.flightNumber && '_' !in b.departureTime
    requires RecordKey(a) == RecordKey(b)
    ensures a.flightNumber == b.flightNumber
    ensures a.departureTime == b.departureTime
    ensures a.departureAirport == b.departureAirport
  {
    ThreePartJoinSplits(a.flightNumber, a.departureTime, a.departureAirport,
                        b.flightNumber, b.departureTime, b.departureAirport);
  }

  /** `x_y_z` joins whose first two parts hold no `_` determine all three parts. */
  lemma ThreePartJoinSplits(x1: string, y1: string, z1: string, x2: string, y2: string, z2: string)
    requires '_' !in x1 && '_' !in y1 && '_' !in x2 && '_' !in y2
    requires x1 + "_" + y1 + "_" + z1 == x2 + "_" + y2 + "_" + z2
    ensures x1 == x2 && y1 == y2 && z1 == z2
  {
    assert x1 + "_" + y1 + "_" + z1 == x1 + "_" + (y1 + "_" + z1);
    assert x2 + "_" + y2 + "_" + z2 == x2 + "_" + (y2 + "_" + z2);
    SeparatorSplitsUniquely(x1, y1 + "_" + z1, x2, y2 + "_" + z2);
    SeparatorSplitsUniquely(y1, z1, y2, z2);
  }

  /** `[r for r in rs if r[field] == v]`: keeps exactly the records whose field
      is `v`, each as often as it occurs, in their original order. */
  function Keep(rs: seq<FlightRecord>, f: Field, v: string): (k: seq<FlightRecord>)
    ensures forall r :: multiset(k)[r] == if FieldOf(r, f) == v then multiset(rs)[r] else 0
    ensures |k| <= |rs|
  {
    if rs == [] then []
    else
      var last := rs[|rs| - 1];
      assert rs == rs[..|rs| - 1] + [last];
      Keep(rs[..|rs| - 1], f, v) + (if FieldOf(last, f) == v then [last] else [])
  }

  /** Number of records that count as international (the generator sums at
      flight_assistant.py lines 462-465 and 524-527). */
  function CountInternational(rs: seq<FlightRecord>): (n: nat)
    requires AllClassifiable(rs)
    ensures n <= |rs|
  {
    if rs == [] then 0
    else CountInternational(rs[..|rs| - 1]) + (if CountsAsInternational(rs[|rs| - 1]) then 1 else 0)
  }

  function CountDomestic(rs: seq<FlightRecord>): nat
    requires AllClassifiable(rs)
  {
    if rs == [] then 0
    else CountDomestic(rs[..|rs| - 1]) + (if IsDomestic(rs[|rs| - 1]) then 1 else 0)
  }

  /** Every record is exactly one of international or domestic. */
  lemma {:induction false} InternationalPlusDomestic(rs: seq<FlightRecord>)
    requires AllClassifiable(rs)
    ensures CountInternational(rs) + CountDomestic(rs) == |rs|
  {
    if rs != [] {
      InternationalPlusDomestic(rs[..|rs| - 1]);
      assert IsInternational(rs[|rs| - 1]) == CountsAsInternational(rs[|rs| - 1]);
    }
  }

  lemma {:induction false} CountInternationalAppend(a: seq<FlightRecord>, b: seq<FlightRecord>)
    requires AllClassifiable(a) && AllClassifiable(b)
    ensures AllClassifiable(a + b)
    ensures CountInternational(a + b) == CountInternational(a) + CountInternational(b)
  {
    assert AllClassifiable(a + b) by {
      forall i | 0 <= i < |a + b| ensures Classifiable((a + b)[i]) {
        if i >= |a| { assert (a + b)[i] == b[i - |a|]; }
      }
    }
    if b != [] {
      var b' := b[..|b| - 1];
      assert (a + b)[..|a + b| - 1] == a + b';
      assert AllClassifiable(b');
      CountInternationalAppend(a, b');
    } else {
      assert a + b == a;
    }
  }

  /** `sum(r['miles'] for r in rs)`. */
  function SumMiles(rs: seq<FlightRecord>): (total: int)
    ensures (forall i :: 0 <= i < |rs| ==> rs[i].miles >= 0) ==> total >= 0
  {
    if rs == [] then 0 else SumMiles(rs[..|rs| - 1]) + rs[|rs| - 1].miles
  }

  /** An international record at position j counts on top of everything
      recorded up to an earlier position i. */
  lemma LaterInternationalCounts(h: seq<FlightRecord>, i: nat, j: nat)
    requires i < j < |h| && AllClassifiable(h[..j + 1])
    requires Classifiable(h[j]) && IsInternational(h[j])
    ensures AllClassifiable(h[..i + 1])
    ensures CountInternational(h[..j + 1]) >= CountInternational(h[..i + 1]) + 1
  {
    var whole := h[..j + 1];
    var early := h[..i + 1];
    var later := h[i + 1..j + 1];
    assert whole == early + later;
    assert AllClassifiable(early) by {
      forall k | 0 <= k < |early| ensures Classifiable(early[k]) { assert early[k] == whole[k]; }
    }
    assert AllClassifiable(later) by {
      forall k | 0 <= k < |later| ensures Classifiable(later[k]) { assert later[k] == whole[i + 1 + k]; }
    }
    CountInternationalAppend(early, later);
    assert later[|later| - 1] == h[j];
    assert later == later[..|later| - 1] + [h[j]];
  }
}
