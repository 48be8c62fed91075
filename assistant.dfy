/**
 * The `FlightAssistant` object. Its three JSON files become three list fields
 * that its methods reload (read) and rewrite (assign); whether a rewrite
 * succeeds is an input, as is the clock.
 */
module Assistant {
  import opened Optional
  import opened FlightRecords
  import opened Statistics
  import opened PriceAlerts
  import opened Achievements

  class FlightAssistant {
    /** flight_records.json */
    var records: seq<FlightRecord>
    /** achievements.json */
    var achievements: seq<Achievement>
    /** price_alerts.json */
    var alerts: seq<PriceAlert>

    /** The assistant over the lists its data files hold (empty when just created). */
    constructor(records: seq<FlightRecord>, achievements: seq<Achievement>, alerts: seq<PriceAlert>)
      ensures this.records == records && this.achievements == achievements && this.alerts == alerts
    {
      this.records := records;
      this.achievements := achievements;
      this.alerts := alerts;
    }

    /** `add_flight_record`: the record, stamped with the current time, is appended
        to the stored records; only when that save succeeds is the achievement
        check run and True returned. */
    method AddFlightRecord(flightNumber: string, departureAirport: string, arrivalAirport: string,
                           departureTime: string, arrivalTime: string, airline: string,
                           cabinClass: string, miles: int, now: Timestamp,
                           recordsSaved: bool, achievementsSaved: bool) returns (ok: bool)
      modifies this`records, this`achievements
      ensures ok == recordsSaved
      ensures var record := FlightRecord(flightNumber, departureAirport, arrivalAirport, departureTime,
                                         arrivalTime, airline, cabinClass, miles, now);
        && records == (if ok then old(records) + [record] else old(records))
        && achievements == (if ok && achievementsSaved
                            then old(achievements) + NewAchievements(record, records, old(achievements), now)
                            else old(achievements))
    {
      var record := FlightRecord(flightNumber, departureAirport, arrivalAirport, departureTime,
                                 arrivalTime, airline, cabinClass, miles, now);
      var updated := records + [record];
      if !recordsSaved {
        return false;
      }
      records := updated;
      CheckAndUnlockAchievements(record, now, achievementsSaved);
      return true;
    }

    /** `check_and_unlock_achievements`: the rules' new achievements are appended
        to the stored list, which is rewritten only when something unlocked. */
    method CheckAndUnlockAchievements(record: FlightRecord, now: Timestamp, saved: bool)
      modifies this`achievements
      ensures achievements == if saved then old(achievements) + NewAchievements(record, records, old(achievements), now)
                              else old(achievements)
    {
      var stored, unlocked := EvaluateAchievementRules(record, records, achievements, now);
      if |unlocked| > 0 && saved {
        achievements := stored;
      }
    }

    /** `monitor_price`: with no price the table is untouched and the result is
        False; otherwise the route's alert is replaced or appended (kept only if
        the save succeeds) and the result is True either way. */
    method MonitorPrice(departure: string, arrival: string, travelDate: string, threshold: Option<int>,
                        priceLookup: Option<PriceInfo>, now: Timestamp, saved: bool) returns (ok: bool)
      modifies this`alerts
      ensures ok == priceLookup.Some?
      ensures alerts == if ok && saved
                        then Upsert(old(alerts), NewAlert(old(alerts), departure, arrival, travelDate,
                                                          priceLookup.value, threshold, now))
                        else old(alerts)
    {
      if priceLookup.None? {
        return false;
      }
      var info := priceLookup.value;
      var table := alerts;
      var routeKey := RouteKey(departure, arrival, travelDate);
      var currentPrice := info.minPrice.GetOr(0);

      var previous := FindRoute(table, routeKey);
      var previousPrice := if previous.Some? then Some(table[previous.value].currentPrice) else None;
      var priceDrop := false;
      if previous.Some? && previousPrice.value != 0 {
        var drop := previousPrice.value - currentPrice;
        if drop > 0 && (threshold.None? || drop >= threshold.value) {
          priceDrop := true;
        }
      }
      var newAlert := PriceAlert(routeKey, departure, arrival, travelDate, currentPrice,
                                 previousPrice, priceDrop, now, info);

      if previous.Some? {
        table := table[previous.value := newAlert];
      } else {
        table := table + [newAlert];
      }
      if saved {
        alerts := table;
      }
      return true;
    }
  }

  /** The `for alert in alerts: if alert.get('route_key') == route_key: break` search. */
  method FindRoute(alerts: seq<PriceAlert>, key: string) returns (index: Option<nat>)
    ensures index == FirstRouteIndex(alerts, key)
  {
    for i := 0 to |alerts|
      invariant forall j :: 0 <= j < i ==> alerts[j].routeKey != key
    {
      if alerts[i].routeKey == key {
        FirstMatchUnique(alerts, key, i);
        return Some(i);
      }
    }
    return None;
  }

  /** The body of `check_and_unlock_achievements` up to the save: the loaded
      achievements with the new ones appended, and the names of those unlocked. */
  method EvaluateAchievementRules(record: FlightRecord, history: seq<FlightRecord>,
                                  existing: seq<Achievement>, now: Timestamp)
    returns (stored: seq<Achievement>, unlocked: seq<string>)
    ensures stored == existing + NewAchievements(record, history, existing, now)
    ensures |unlocked| == |NewAchievements(record, history, existing, now)|
  {
    if !Classifiable(record) {
      return existing, [];
    }
    var first, aborted := FirstInternationalStep(record, history, now);
    if aborted {
      return existing, [];
    }
    var frequent := FrequentFlyerStep(history, existing + first, now);
    var long := LongDistanceStep(history, existing + first + frequent, now);
    NewAchievementsSteps(record, history, existing, now, first, frequent, long);
    stored := existing + first + frequent + long;
    unlocked := Names(first + frequent + long);
  }

  /** The names of the achievements, in order, as the `unlocked` list gathers them. */
  function Names(added: seq<Achievement>): (names: seq<string>)
    ensures |names| == |added|
    ensures forall i :: 0 <= i < |added| ==> names[i] == added[i].name
  {
    if added == [] then [] else Names(added[..|added| - 1]) + [added[|added| - 1].name]
  }

  /** The `first_international` rule: an international flight that is the only
      international one on record unlocks it; an unclassifiable stored record
      makes the whole check abort. */
  method FirstInternationalStep(record: FlightRecord, history: seq<FlightRecord>, now: Timestamp)
    returns (first: seq<Achievement>, aborted: bool)
    requires Classifiable(record)
    ensures aborted == CheckAborts(record, history)
    ensures !aborted ==> first == FirstInternationalUnlock(record, history, now)
  {
    first, aborted := [], false;
    if IsInternational(record) {
      var international := CountInternationalFlights(history);
      if international.None? {
        return [], true;
      }
      if international.value == 1 {
        first := [FirstInternational(record, now)];
      }
    }
  }

  /** The `frequent_flyer` rule over this year's statistics. */
  method FrequentFlyerStep(history: seq<FlightRecord>, stored: seq<Achievement>, now: Timestamp)
    returns (frequent: seq<Achievement>)
    ensures frequent == FrequentFlyerUnlock(history, stored, now)
  {
    frequent := [];
    var yearStats := FlightStatistics(history, now.year, 0);
    if yearStats.Some? && yearStats.value.totalFlights >= FrequentFlyerFlights && !HasId(stored, FrequentFlyerId) {
      frequent := [FrequentFlyer(yearStats.value, now)];
    }
  }

  /** The `long_distance_traveler` rule over the all-time statistics. */
  method LongDistanceStep(history: seq<FlightRecord>, stored: seq<Achievement>, now: Timestamp)
    returns (long: seq<Achievement>)
    ensures long == LongDistanceUnlock(history, stored, now)
  {
    long := [];
    var allStats := FlightStatistics(history, 0, 0);
    if allStats.Some? && allStats.value.totalMiles >= LongDistanceMiles && !HasId(stored, LongDistanceTravelerId) {
      long := [LongDistanceTraveler(allStats.value.totalMiles, now)];
    }
  }

  lemma NewAchievementsSteps(record: FlightRecord, history: seq<FlightRecord>, existing: seq<Achievement>,
                             now: Timestamp, first: seq<Achievement>, frequent: seq<Achievement>, long: seq<Achievement>)
    requires !CheckAborts(record, history)
    requires first == FirstInternationalUnlock(record, history, now)
    requires frequent == FrequentFlyerUnlock(history, existing + first, now)
    requires long == LongDistanceUnlock(history, existing + first + frequent, now)
    ensures existing + first + frequent + long == existing + NewAchievements(record, history, existing, now)
    ensures |first| + |frequent| + |long| == |NewAchievements(record, history, existing, now)|
  {
  }
}
