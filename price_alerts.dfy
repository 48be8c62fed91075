/**
 * The price-alert table of `monitor_price`: one alert per route key, replaced
 * in place when the route is monitored again, appended otherwise.
 */
module PriceAlerts {
  import opened Optional
  import opened FlightRecords

  /** The price lookup's answer; `min_price` may be missing (read as 0). */
  datatype PriceInfo = PriceInfo(minPrice: Option<int>)

  datatype PriceAlert = PriceAlert(
    routeKey: string,
    departure: string,
    arrival: string,
    travelDate: string,
    currentPrice: int,
    previousPrice: Option<int>,
    priceDrop: bool,
    timestamp: Timestamp,
    rawData: PriceInfo)

  /** `f"{departure}_{arrival}_{travel_date}"`. */
  function RouteKey(departure: string, arrival: string, travelDate: string): (key: string)
    ensures |key| == |departure| + |arrival| + |travelDate| + 2
    ensures key[..|departure|] == departure && key[|departure|] == '_'
    ensures key[|key| - |travelDate|..] == travelDate
  {
    departure + "_" + arrival + "_" + travelDate
  }

  /** Airport codes without `_` make the route key name one route and date;
      `RouteKey("A_B", "C", d) == RouteKey("A", "B_C", d)` shows the condition is needed. */
  lemma RouteKeyIdentifiesRoute(d1: string, a1: string, t1: string, d2: string, a2: string, t2: string)
    requires '_' !in d1 && '_' !in a1 && '_' !in d2 && '_' !in a2
    requires RouteKey(d1, a1, t1) == RouteKey(d2, a2, t2)
    ensures d1 == d2 && a1 == a2 && t1 == t2
  {
    ThreePartJoinSplits(d1, a1, t1, d2, a2, t2);
  }

  /** Position of the first alert with the key, as the `for ... break` search finds it. */
  function FirstRouteIndex(alerts: seq<PriceAlert>, key: string): (r: Option<nat>)
    ensures r.Some? ==> r.value < |alerts| && alerts[r.value].routeKey == key
    ensures r.Some? ==> forall j :: 0 <= j < r.value ==> alerts[j].routeKey != key
    ensures r.None? ==> forall j :: 0 <= j < |alerts| ==> alerts[j].routeKey != key
  {
    if alerts == [] then None
    else if alerts[0].routeKey == key then Some(0)
    else match FirstRouteIndex(alerts[1..], key)
      case None => None
      case Some(i) => Some(i + 1)
  }

  /** The alert a lookup by route key finds (`previous_record`). */
  function Lookup(alerts: seq<PriceAlert>, key: string): (r: Option<PriceAlert>)
    ensures r.Some? <==> exists i :: 0 <= i < |alerts| && alerts[i].routeKey == key
    ensures r.Some? ==> exists i :: 0 <= i < |alerts| && alerts[i] == r.value && r.value.routeKey == key
                                    && forall j :: 0 <= j < i ==> alerts[j].routeKey != key
  {
    match FirstRouteIndex(alerts, key)
    case None => None
    case Some(i) => Some(alerts[i])
  }

  /** Two positions with the first-match property are the same position. */
  lemma FirstMatchUnique(alerts: seq<PriceAlert>, key: string, i: nat)
    requires i < |alerts| && alerts[i].routeKey == key
    requires forall j :: 0 <= j < i ==> alerts[j].routeKey != key
    ensures FirstRouteIndex(alerts, key) == Some(i)
  {
    var r := FirstRouteIndex(alerts, key);
    assert r.Some?;
    assert !(r.value < i) && !(i < r.value);
  }

  /** The price-drop rule: there was an alert, its price is non-zero (truthy),
      the price fell, and by at least the threshold when one is given. */
  function DropDetected(previousPrice: Option<int>, currentPrice: int, threshold: Option<int>): (b: bool)
    ensures b ==> previousPrice.Some? && currentPrice < previousPrice.value
    ensures threshold.Some? && threshold.value <= 1 ==>
              (b <==> previousPrice.Some? && previousPrice.value != 0 && currentPrice < previousPrice.value)
  {
    && previousPrice.Some? && previousPrice.value != 0
    && previousPrice.value - currentPrice > 0
    && (threshold.None? || previousPrice.value - currentPrice >= threshold.value)
  }

  /** The `new_alert` dictionary built from the table before the update. */
  function NewAlert(alerts: seq<PriceAlert>, departure: string, arrival: string, travelDate: string,
                    info: PriceInfo, threshold: Option<int>, now: Timestamp): (a: PriceAlert)
    ensures a.routeKey == RouteKey(departure, arrival, travelDate)
    ensures a.previousPrice.Some? <==> Lookup(alerts, a.routeKey).Some?
    ensures a.priceDrop ==> a.previousPrice.Some? && a.currentPrice < a.previousPrice.value
  {
    var key := RouteKey(departure, arrival, travelDate);
    var current := info.minPrice.GetOr(0);
    var previousPrice := match Lookup(alerts, key)
      case None => None
      case Some(p) => Some(p.currentPrice);
    PriceAlert(key, departure, arrival, travelDate, current, previousPrice,
               DropDetected(previousPrice, current, threshold), now, info)
  }

  /** Replace the first alert with the same route key, or append. */
  function Upsert(alerts: seq<PriceAlert>, alert: PriceAlert): (r: seq<PriceAlert>)
    ensures |r| == if Lookup(alerts, alert.routeKey).Some? then |alerts| else |alerts| + 1
    ensures alert in r
  {
    match FirstRouteIndex(alerts, alert.routeKey)
    case Some(i) =>
      var updated := alerts[i := alert];
      assert updated[i] == alert;
      updated
    case None => alerts + [alert]
  }

  /** The shape of the update: a new route adds exactly one alert at the end; a
      known route replaces its first alert in place, keeping the length and
      every other alert. */
  lemma UpsertShape(alerts: seq<PriceAlert>, alert: PriceAlert)
    ensures Lookup(alerts, alert.routeKey).None? ==> Upsert(alerts, alert) == alerts + [alert]
    ensures Lookup(alerts, alert.routeKey).Some? ==>
      && |Upsert(alerts, alert)| == |alerts|
      && (exists i :: 0 <= i < |alerts| && alerts[i].routeKey == alert.routeKey && Upsert(alerts, alert)[i] == alert
            && (forall j :: 0 <= j < i ==> alerts[j].routeKey != alert.routeKey)
            && forall j :: 0 <= j < |alerts| && j != i ==> Upsert(alerts, alert)[j] == alerts[j])
  {
    var r := FirstRouteIndex(alerts, alert.routeKey);
    if r.Some? {
      var i := r.value;
      assert alerts[i].routeKey == alert.routeKey && Upsert(alerts, alert)[i] == alert;
    }
  }

  /** The update behaves as a keyed store: afterwards the route finds the new
      alert, and every other route finds what it found before. */
  lemma UpsertThenLookup(alerts: seq<PriceAlert>, alert: PriceAlert)
    ensures Lookup(Upsert(alerts, alert), alert.routeKey) == Some(alert)
    ensures forall k :: k != alert.routeKey ==> Lookup(Upsert(alerts, alert), k) == Lookup(alerts, k)
  {
    var u := Upsert(alerts, alert);
    var key := alert.routeKey;
    match FirstRouteIndex(alerts, key) {
      case Some(i) => FirstMatchUnique(u, key, i);
      case None => FirstMatchUnique(u, key, |alerts|);
    }
    forall k | k != key ensures Lookup(u, k) == Lookup(alerts, k) {
      match FirstRouteIndex(alerts, k)
      case Some(m) =>
        FirstMatchUnique(u, k, m);
      case None =>
        assert FirstRouteIndex(u, k).None? by {
          forall j | 0 <= j < |u| ensures u[j].routeKey != k {
            if j < |alerts| && u[j] != alerts[j] { assert u[j] == alert; }
          }
        }
    }
  }

  /** No two alerts share a route key. */
  ghost predicate DistinctRoutes(alerts: seq<PriceAlert>) {
    forall i, j :: 0 <= i < j < |alerts| ==> alerts[i].routeKey != alerts[j].routeKey
  }

  /** Monitoring never creates a second alert for a route. */
  lemma UpsertKeepsRoutesDistinct(alerts: seq<PriceAlert>, alert: PriceAlert)
    requires DistinctRoutes(alerts)
    ensures DistinctRoutes(Upsert(alerts, alert))
  {
    var u := Upsert(alerts, alert);
    match FirstRouteIndex(alerts, alert.routeKey)
    case Some(i) =>
      forall p, q | 0 <= p < q < |u| ensures u[p].routeKey != u[q].routeKey {
        if p == i { assert alerts[q].routeKey != alerts[i].routeKey; }
        else if q == i { assert alerts[p].routeKey != alerts[i].routeKey; }
      }
    case None =>
      forall p, q | 0 <= p < q < |u| ensures u[p].routeKey != u[q].routeKey {
        if q == |alerts| { assert u[p] == alerts[p]; }
      }
  }

  /** After monitoring a route, its alert holds the looked-up price, the price of
      the alert it replaced as previous price, and the drop flag exactly when
      that previous price was non-zero and fell by more than zero and at least
      the threshold. */
  lemma MonitorRecordsPrice(alerts: seq<PriceAlert>, departure: string, arrival: string, travelDate: string,
                            info: PriceInfo, threshold: Option<int>, now: Timestamp)
    ensures var key := RouteKey(departure, arrival, travelDate);
      var before := Lookup(alerts, key);
      var after := Lookup(Upsert(alerts, NewAlert(alerts, departure, arrival, travelDate, info, threshold, now)), key);
      && after.Some?
      && after.value.currentPrice == info.minPrice.GetOr(0)
      && (after.value.previousPrice.Some? <==> before.Some?)
      && (before.Some? ==> after.value.previousPrice == Some(before.value.currentPrice))
      && (after.value.priceDrop <==>
            before.Some? && before.value.currentPrice != 0
            && before.value.currentPrice - info.minPrice.GetOr(0) > 0
            && (threshold.None? || before.value.currentPrice - info.minPrice.GetOr(0) >= threshold.value))
  {
    UpsertThenLookup(alerts, NewAlert(alerts, departure, arrival, travelDate, info, threshold, now));
  }
}
