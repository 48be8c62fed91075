/**
 * The achievement rules of `check_and_unlock_achievements`, as the list of
 * achievements one check appends to the stored list.
 */
module Achievements {
  import opened FlightRecords
  import opened Statistics

  const FirstInternationalId: string := "first_international"
  const FrequentFlyerId: string := "frequent_flyer"
  const LongDistanceTravelerId: string := "long_distance_traveler"

  /** Flights in the current calendar year needed for the frequent-flyer badge. */
  const FrequentFlyerFlights: nat := 10
  /** Total miles needed for the long-distance badge. */
  const LongDistanceMiles: int := 10000

  /** The rule-specific entry of an achievement: the triggering flight, the
      year's statistics, or the total miles. */
  datatype Payload = TriggeringFlight(flightNumber: string) | YearStatistics(stats: Stats) | MilesFlown(totalMiles: int)

  datatype Achievement = Achievement(id: string, name: string, description: string,
                                     unlockedDate: Timestamp, payload: Payload)

  /** `any(a['id'] == id for a in achievements)`. */
  predicate HasId(achievements: seq<Achievement>, id: string): (b: bool)
    ensures b <==> exists a :: a in achievements && a.id == id
  {
    exists i | 0 <= i < |achievements| :: achievements[i].id == id
  }

  /** The `first_international` achievement, naming the triggering flight. */
  function FirstInternational(record: FlightRecord, now: Timestamp): (a: Achievement)
    ensures a.id == FirstInternationalId && a.unlockedDate == now
    ensures a.payload == TriggeringFlight(record.flightNumber)
  {
    Achievement(FirstInternationalId, "🌍 国际旅行家", "完成首次国际航班", now, TriggeringFlight(record.flightNumber))
  }

  /** The `frequent_flyer` achievement, carrying the year's report. */
  function FrequentFlyer(yearStats: Stats, now: Timestamp): (a: Achievement)
    ensures a.id == FrequentFlyerId && a.unlockedDate == now
    ensures a.payload == YearStatistics(yearStats)
  {
    Achievement(FrequentFlyerId, "✈️ 飞行达人", "年度飞行次数≥10次", now, YearStatistics(yearStats))
  }

  /** The `long_distance_traveler` achievement, carrying the total miles. */
  function LongDistanceTraveler(totalMiles: int, now: Timestamp): (a: Achievement)
    ensures a.id == LongDistanceTravelerId && a.unlockedDate == now
    ensures a.payload == MilesFlown(totalMiles)
  {
    Achievement(LongDistanceTravelerId, "🚀 长途旅人", "累计飞行里程≥10000公里", now, MilesFlown(totalMiles))
  }

  /** Classifying the new record, or (for an international one) any stored
      record, raises: the check stops and appends nothing. */
  predicate CheckAborts(record: FlightRecord, history: seq<FlightRecord>)
    ensures record in history && AllClassifiable(history) ==> !CheckAborts(record, history)
  {
    !Classifiable(record) || (IsInternational(record) && !AllClassifiable(history))
  }

  /** Rule 1: the new record is international and the stored history holds exactly one international record. */
  function FirstInternationalUnlock(record: FlightRecord, history: seq<FlightRecord>, now: Timestamp): (r: seq<Achievement>)
    requires !CheckAborts(record, history)
    ensures |r| <= 1 && forall a | a in r :: a.id == FirstInternationalId
  {
    if IsInternational(record) && CountInternational(history) == 1 then [FirstInternational(record, now)] else []
  }

  /** Rule 2: at least ten flights this year (a failed report reads as zero) and not stored yet. */
  function FrequentFlyerUnlock(history: seq<FlightRecord>, stored: seq<Achievement>, now: Timestamp): (r: seq<Achievement>)
    ensures |r| <= 1 && forall a | a in r :: a.id == FrequentFlyerId
  {
    var yearStats := StatisticsOf(history, now.year, 0);
    if yearStats.Some? && yearStats.value.totalFlights >= FrequentFlyerFlights && !HasId(stored, FrequentFlyerId)
    then [FrequentFlyer(yearStats.value, now)] else []
  }

  /** Rule 3: at least 10000 miles in all (a failed report reads as zero) and not stored yet. */
  function LongDistanceUnlock(history: seq<FlightRecord>, stored: seq<Achievement>, now: Timestamp): (r: seq<Achievement>)
    ensures |r| <= 1 && forall a | a in r :: a.id == LongDistanceTravelerId
  {
    var allStats := StatisticsOf(history, 0, 0);
    if allStats.Some? && allStats.value.totalMiles >= LongDistanceMiles && !HasId(stored, LongDistanceTravelerId)
    then [LongDistanceTraveler(allStats.value.totalMiles, now)] else []
  }

  /** The achievements one check appends, in rule order, for the record just
      stored, the stored history (which includes it) and the achievements
      already stored; each rule sees what the earlier rules appended. */
  function NewAchievements(record: FlightRecord, history: seq<FlightRecord>,
                           existing: seq<Achievement>, now: Timestamp): (added: seq<Achievement>)
    ensures |added| <= 3
    ensures forall a | a in added :: a.id == FirstInternationalId || a.id == FrequentFlyerId || a.id == LongDistanceTravelerId
  {
    if CheckAborts(record, history) then []
    else
      var first := FirstInternationalUnlock(record, history, now);
      var frequent := FrequentFlyerUnlock(history, existing + first, now);
      first + frequent + LongDistanceUnlock(history, existing + first + frequent, now)
  }

  /** The position of each rule in the fixed evaluation order. */
  function RuleRank(id: string): int {
    if id == FirstInternationalId then 0
    else if id == FrequentFlyerId then 1
    else if id == LongDistanceTravelerId then 2
    else 3
  }

  lemma HasIdAppend(a: seq<Achievement>, b: seq<Achievement>, id: string)
    ensures HasId(a + b, id) <==> HasId(a, id) || HasId(b, id)
  {
    if HasId(a, id) {
      var i :| 0 <= i < |a| && a[i].id == id;
      assert (a + b)[i].id == id;
    }
    if HasId(b, id) {
      var i :| 0 <= i < |b| && b[i].id == id;
      assert (a + b)[|a| + i].id == id;
    }
    if HasId(a + b, id) {
      var i :| 0 <= i < |a + b| && (a + b)[i].id == id;
      if i >= |a| { assert b[i - |a|].id == id; }
    }
  }

  /** A list of achievements all carrying one id has that id iff it is non-empty. */
  lemma HasIdUniform(r: seq<Achievement>, uniform: string, id: string)
    requires forall a | a in r :: a.id == uniform
    ensures HasId(r, id) <==> r != [] && id == uniform
  {
    if r != [] { assert r[0] in r; }
    if HasId(r, id) {
      var i :| 0 <= i < |r| && r[i].id == id;
      assert r[i] in r;
    }
  }

  /** New achievements come from the three rules, at most one each, in the order
      first international, frequent flyer, long-distance traveler. */
  lemma NewAchievementsInRuleOrder(record: FlightRecord, history: seq<FlightRecord>,
                                   existing: seq<Achievement>, now: Timestamp)
    ensures var added := NewAchievements(record, history, existing, now);
      && |added| <= 3
      && (forall i :: 0 <= i < |added| ==> RuleRank(added[i].id) < 3)
      && (forall i, j :: 0 <= i < j < |added| ==> RuleRank(added[i].id) < RuleRank(added[j].id))
  {
    var added := NewAchievements(record, history, existing, now);
    if !CheckAborts(record, history) {
      var first := FirstInternationalUnlock(record, history, now);
      var frequent := FrequentFlyerUnlock(history, existing + first, now);
      var long := LongDistanceUnlock(history, existing + first + frequent, now);
      assert forall i :: 0 <= i < |added| ==>
        (i < |first| && added[i] in first) ||
        (|first| <= i < |first| + |frequent| && added[i] in frequent) ||
        (|first| + |frequent| <= i && added[i] in long);
    }
  }

  /** The three rule outcomes as seen through the whole list of new achievements. */
  lemma NewAchievementsIds(record: FlightRecord, history: seq<FlightRecord>,
                           existing: seq<Achievement>, now: Timestamp)
    requires !CheckAborts(record, history)
    ensures var first := FirstInternationalUnlock(record, history, now);
      var frequent := FrequentFlyerUnlock(history, existing + first, now);
      var added := NewAchievements(record, history, existing, now);
      && (HasId(added, FirstInternationalId) <==> first != [])
      && (HasId(added, FrequentFlyerId) <==> frequent != [])
      && (HasId(added, LongDistanceTravelerId) <==> LongDistanceUnlock(history, existing + first + frequent, now) != [])
      && (HasId(existing + first, FrequentFlyerId) <==> HasId(existing, FrequentFlyerId))
      && (HasId(existing + first + frequent, LongDistanceTravelerId) <==> HasId(existing, LongDistanceTravelerId))
  {
    var first := FirstInternationalUnlock(record, history, now);
    var frequent := FrequentFlyerUnlock(history, existing + first, now);
    var long := LongDistanceUnlock(history, existing + first + frequent, now);
    forall id | id in {FirstInternationalId, FrequentFlyerId, LongDistanceTravelerId}
      ensures HasId(first + frequent + long, id) <==>
        (first != [] && id == FirstInternationalId) || (frequent != [] && id == FrequentFlyerId)
        || (long != [] && id == LongDistanceTravelerId)
    {
      HasIdAppend(first + frequent, long, id);
      HasIdAppend(first, frequent, id);
      HasIdUniform(first, FirstInternationalId, id);
      HasIdUniform(frequent, FrequentFlyerId, id);
      HasIdUniform(long, LongDistanceTravelerId, id);
    }
    HasIdAppend(existing, first, FrequentFlyerId);
    HasIdUniform(first, FirstInternationalId, FrequentFlyerId);
    HasIdAppend(existing + first, frequent, LongDistanceTravelerId);
    HasIdAppend(existing, first, LongDistanceTravelerId);
    HasIdUniform(first, FirstInternationalId, LongDistanceTravelerId);
    HasIdUniform(frequent, FrequentFlyerId, LongDistanceTravelerId);
  }

  /** Rule 1: first international is appended exactly when the new record is
      international and the stored history holds exactly one international
      record. It does not look at the stored achievements. */
  lemma FirstInternationalRule(record: FlightRecord, history: seq<FlightRecord>,
                               existing: seq<Achievement>, now: Timestamp)
    ensures HasId(NewAchievements(record, history, existing, now), FirstInternationalId) <==>
      && Classifiable(record) && IsInternational(record)
      && AllClassifiable(history) && CountInternational(history) == 1
  {
    if !CheckAborts(record, history) {
      NewAchievementsIds(record, history, existing, now);
    }
  }

  /** Rule 2 for every log: frequent flyer is appended exactly when the check
      does not raise, this year's report exists (a report that raises reads as
      zero flights) and counts at least ten flights, and it is not stored yet.
      An unclassifiable stored record does not matter when the new record is
      domestic, since the international count is then never taken. */
  lemma FrequentFlyerRuleAnyLog(record: FlightRecord, history: seq<FlightRecord>,
                                existing: seq<Achievement>, now: Timestamp)
    ensures HasId(NewAchievements(record, history, existing, now), FrequentFlyerId) <==>
      && !CheckAborts(record, history)
      && StatisticsOf(history, now.year, 0).Some?
      && StatisticsOf(history, now.year, 0).value.totalFlights >= FrequentFlyerFlights
      && !HasId(existing, FrequentFlyerId)
  {
    if !CheckAborts(record, history) {
      NewAchievementsIds(record, history, existing, now);
    }
  }

  /** Rule 3 for every log: long-distance traveler is appended exactly when the
      check does not raise, the all-time report exists and reaches 10000 miles,
      and it is not stored yet. */
  lemma LongDistanceRuleAnyLog(record: FlightRecord, history: seq<FlightRecord>,
                               existing: seq<Achievement>, now: Timestamp)
    ensures HasId(NewAchievements(record, history, existing, now), LongDistanceTravelerId) <==>
      && !CheckAborts(record, history)
      && StatisticsOf(history, 0, 0).Some?
      && StatisticsOf(history, 0, 0).value.totalMiles >= LongDistanceMiles
      && !HasId(existing, LongDistanceTravelerId)
  {
    if !CheckAborts(record, history) {
      NewAchievementsIds(record, history, existing, now);
    }
  }

  /** Rule 2 on a fully classifiable log: frequent flyer is appended exactly when
      at least ten stored flights were recorded in the current year and it is
      not stored yet. */
  lemma FrequentFlyerRule(record: FlightRecord, history: seq<FlightRecord>,
                          existing: seq<Achievement>, now: Timestamp)
    requires Classifiable(record) && AllClassifiable(history)
    ensures HasId(NewAchievements(record, history, existing, now), FrequentFlyerId) <==>
      |InPeriod(history, now.year, 0)| >= FrequentFlyerFlights && !HasId(existing, FrequentFlyerId)
  {
    StatisticsDefined(history, now.year, 0);
    NewAchievementsIds(record, history, existing, now);
  }

  /** Rule 3 on a fully classifiable log: long-distance traveler is appended
      exactly when all stored flights together reach 10000 miles and it is not
      stored yet. */
  lemma LongDistanceRule(record: FlightRecord, history: seq<FlightRecord>,
                         existing: seq<Achievement>, now: Timestamp)
    requires Classifiable(record) && AllClassifiable(history)
    ensures HasId(NewAchievements(record, history, existing, now), LongDistanceTravelerId) <==>
      SumMiles(history) >= LongDistanceMiles && !HasId(existing, LongDistanceTravelerId)
  {
    StatisticsOfEverything(history);
    NewAchievementsIds(record, history, existing, now);
  }

  /** Frequent flyer and long-distance traveler are never appended when already
      stored. */
  lemma NoDuplicateBadges(record: FlightRecord, history: seq<FlightRecord>,
                          existing: seq<Achievement>, now: Timestamp, id: string)
    requires id == FrequentFlyerId || id == LongDistanceTravelerId
    requires HasId(existing, id)
    ensures !HasId(NewAchievements(record, history, existing, now), id)
  {
    if !CheckAborts(record, history) {
      NewAchievementsIds(record, history, existing, now);
    }
  }

  /** Over a history that only grows by appending, first international fires
      for at most one record: when record i and a later record j are checked
      against the history up to themselves, not both unlock it. */
  lemma FirstInternationalAtMostOnce(h: seq<FlightRecord>, i: nat, j: nat,
      existingI: seq<Achievement>, nowI: Timestamp, existingJ: seq<Achievement>, nowJ: Timestamp)
    requires i < j < |h|
    ensures !(HasId(NewAchievements(h[i], h[..i + 1], existingI, nowI), FirstInternationalId)
              && HasId(NewAchievements(h[j], h[..j + 1], existingJ, nowJ), FirstInternationalId))
  {
    FirstInternationalRule(h[i], h[..i + 1], existingI, nowI);
    FirstInternationalRule(h[j], h[..j + 1], existingJ, nowJ);
    if AllClassifiable(h[..j + 1]) && Classifiable(h[j]) && IsInternational(h[j]) {
      LaterInternationalCounts(h, i, j);
    }
  }

  /** A stored record whose airport codes make classification raise turns every
      later all-time report into `{}`, which reads as zero miles: from then on
      `long_distance_traveler` can never be appended. */
  lemma UnclassifiableLogBlocksLongDistance(record: FlightRecord, history: seq<FlightRecord>,
                                            existing: seq<Achievement>, now: Timestamp)
    requires !AllClassifiable(history)
    ensures !HasId(NewAchievements(record, history, existing, now), LongDistanceTravelerId)
  {
    if !CheckAborts(record, history) {
      NewAchievementsIds(record, history, existing, now);
      InPeriodUnfiltered(history);
    }
  }

  /** How many achievements in the list carry the id. */
  function IdCount(achievements: seq<Achievement>, id: string): (n: nat)
    ensures n <= |achievements|
  {
    if achievements == [] then 0
    else
      var last := achievements[|achievements| - 1];
      IdCount(achievements[..|achievements| - 1], id) + (if last.id == id then 1 else 0)
  }

  lemma {:induction false} IdCountAppend(a: seq<Achievement>, b: seq<Achievement>, id: string)
    ensures IdCount(a + b, id) == IdCount(a, id) + IdCount(b, id)
  {
    if b == [] {
      assert a + b == a;
    } else {
      var init := b[..|b| - 1];
      assert (a + b)[..|a + b| - 1] == a + init;
      IdCountAppend(a, init, id);
    }
  }

  lemma {:induction false} IdCountZero(s: seq<Achievement>, id: string)
    ensures IdCount(s, id) == 0 <==> !HasId(s, id)
  {
    if s != [] {
      var init := s[..|s| - 1];
      IdCountZero(init, id);
      if HasId(init, id) {
        var i :| 0 <= i < |init| && init[i].id == id;
        assert s[i].id == id;
      }
      if HasId(s, id) && s[|s| - 1].id != id {
        var i :| 0 <= i < |s| && s[i].id == id;
        assert init[i].id == id;
      }
    }
  }

  /** A list whose rule ranks strictly increase holds each id at most once. */
  lemma {:induction false} IdCountRanked(s: seq<Achievement>, id: string)
    requires forall i, j :: 0 <= i < j < |s| ==> RuleRank(s[i].id) < RuleRank(s[j].id)
    ensures IdCount(s, id) <= 1
  {
    if s != [] {
      var init := s[..|s| - 1];
      IdCountRanked(init, id);
      if s[|s| - 1].id == id {
        forall i | 0 <= i < |init| ensures init[i].id != id {
          assert RuleRank(s[i].id) < RuleRank(s[|s| - 1].id);
        }
        IdCountZero(init, id);
      }
    }
  }

  /** Neither frequent flyer nor long-distance traveler ever appears twice in
      the stored list: if it appears at most once before a check, it appears at
      most once after the check's achievements are appended. */
  lemma BadgesStayUnique(record: FlightRecord, history: seq<FlightRecord>,
                         existing: seq<Achievement>, now: Timestamp, id: string)
    requires id == FrequentFlyerId || id == LongDistanceTravelerId
    requires IdCount(existing, id) <= 1
    ensures IdCount(existing + NewAchievements(record, history, existing, now), id) <= 1
  {
    var added := NewAchievements(record, history, existing, now);
    IdCountAppend(existing, added, id);
    IdCountZero(existing, id);
    if HasId(existing, id) {
      NoDuplicateBadges(record, history, existing, now, id);
      IdCountZero(added, id);
    } else {
      NewAchievementsInRuleOrder(record, history, existing, now);
      IdCountRanked(added, id);
    }
  }
}
