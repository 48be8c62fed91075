# Flight assistant: verified model of its record, statistics, price and achievement core

This project models the core of a personal flight assistant in Dafny.

- **Flight log:** the assistant keeps a log of flights taken. Each record holds the flight number, the airports, the times, the airline, the cabin class, the miles and the time it was recorded.
- **Queries:** the log can be filtered by airline and cabin, newest first and optionally cut to a limit.
- **Statistics:** the log is summarised per year and month. The summary holds the total flights and miles, international and domestic counts, per-airline and per-cabin tallies, and the most flown airline.
- **Price watch:** the assistant keeps one price-watch entry per route key (departure, arrival and date joined by `_`), which names one route and date when the airport codes hold no `_`. A new price replaces the route's entry, and a price drop is flagged by a threshold rule.
- **Achievements:** after each new flight, three one-time achievements are checked: first international flight, ten flights in a year, and 10000 miles in all.

Beside the assistant, the model covers the figures the demonstration script derives from a report:
- the membership tier;
- the three most flown airlines;
- the longest and shortest flight;
- the number of distinct airlines and cabins.

It also covers the keyword responder of the local chat test script.

The modules follow the program's structure.

| module | file | what it holds |
|---|---|---|
| `FlightRecords` | `flight_records.dfy` | The record, its international/domestic test and its key, and filter and count helpers. |
| `Ordering` | `ordering.dfy` | Sorting newest or largest first, in place on an array and as a function. The first maximum, as Python's `max` picks it. |
| `Tallies` | `tallies.dfy` | Insertion-ordered dictionaries of counts (`d[k] = d.get(k, 0) + 1`). |
| `Statistics` | `statistics.dfy` | The statistics report, as a loop-based method proved against a function. |
| `RecordQuery` | `record_query.dfy` | Record lookup with filters, newest-first order and limit. |
| `PriceAlerts` | `price_alerts.dfy` | The price-watch table and the replace-or-append rule. |
| `Achievements` | `achievements.dfy` | The three unlock rules and the achievements one check appends. |
| `Assistant` | `assistant.dfy` | The `FlightAssistant` object. Its three data files are list fields that its methods reassign. |
| `Insights` | `insights.dfy` | Figures from `examples.py`. |
| `Responder` | `responder.dfy` | The `answer` responder from `test_agent.py`. |

A few inputs work as follows.

- **Missing filters:** Python's falsy filter values (`None`, `""`, `0`) are written as `""` or `0`, meaning "no filter".
- **Recording time:** a record's recording time is a `Timestamp` holding an instant, which orders records, and the calendar year and month, which the period filter reads.
- **Clock, saves and price lookup:** the clock is a parameter. Whether a file save succeeds is a boolean input. The HTTP price lookup is an `Option<PriceInfo>` input.
- **Airport codes that raise:** the airport test `departure[0] == 'Z'` raises on an empty code. Which records can be classified is the predicate `Classifiable`.
  - A report whose period holds an unclassifiable record comes out as `None`, the source's `{}`.
  - An achievement check that would raise appends nothing.

Two behaviours of the code are kept as they are.

- **First international flight:** the rule checks only that exactly one international flight is on record (flight_assistant.py:522-528), not whether the achievement is already stored. `Achievements.FirstInternationalAtMostOnce` proves it still fires at most once over a log that only grows.
- **Report that raises:** a report that raises comes back as `{}`. The rules read it as zero flights and zero miles through `.get(..., 0)` (flight_assistant.py:542, 557). `Achievements.UnclassifiableLogBlocksLongDistance` proves that one stored record with an empty departure code therefore blocks `long_distance_traveler` for good.

## Model

| member | source | states |
|---|---|---|
| FlightRecords.IsInternational | flight_assistant.py:59-61 | A flight is international exactly when it is not domestic, i.e. not both airports starting with `Z`; agrees with the inline count test `dep[0] != 'Z' or arr[0] != 'Z'`; defined exactly on records whose codes do not make the indexing raise |
| FlightRecords.RecordKey | flight_assistant.py:63-65 | The key starts with the flight number followed by `_` and ends with the departure airport, and its length is the three parts plus two separators |
| FlightRecords.SeparatorSplitsUniquely | flight_assistant.py:63-65 | Joining two `_`-free strings with `_` can be undone: equal joins mean equal parts |
| FlightRecords.ThreePartJoinSplits | flight_assistant.py:63-65 | Two `x_y_z` joins whose first two parts hold no `_` are equal only when all three parts are |
| FlightRecords.RecordKeyIdentifiesFlight | flight_assistant.py:63-65 | The key `number_departureTime_departureAirport` determines the flight number, departure time and airport when the first two hold no `_` |
| FlightRecords.Keep | flight_assistant.py:187-190 | The records whose airline (cabin) equals a value: each such record as often as in the input, no other record, never longer than the input |
| FlightRecords.CountInternational | flight_assistant.py:462-465 | The number of international records never exceeds the number of records |
| FlightRecords.InternationalPlusDomestic | flight_assistant.py:462-473 | International and domestic counts of classifiable records add up to the number of records |
| FlightRecords.CountInternationalAppend | flight_assistant.py:524-527 | The international count of a concatenation is the sum of the parts' counts |
| FlightRecords.LaterInternationalCounts | flight_assistant.py:522-527 | An international record later in the log makes the international count up to it exceed the count up to any earlier record |
| FlightRecords.SumMiles | flight_assistant.py:447 | The miles of records with non-negative mileage sum to a non-negative total |
| Ordering.FirstMaxIndex | flight_assistant.py:476 | The index `max(..., key=...)` picks: its key is the largest and every earlier element's key is strictly smaller |
| Ordering.SortDescendingInPlace | flight_assistant.py:193 | `list.sort(key, reverse=True)` in place: the array ends sorted by key, largest first, and is a permutation of what it held |
| Ordering.SiftLeft | flight_assistant.py:193 | One insertion step: the sorted prefix grows by one element, the contents are only permuted, and the cells after it are untouched |
| Ordering.Swap | flight_assistant.py:193 | Exchanging two cells changes exactly those cells and keeps the multiset |
| Ordering.InsertDesc | examples.py:95-99 | Inserting into a list adds exactly that element to its contents |
| Ordering.InsertDescSorted | examples.py:95-99 | Inserting into a largest-first list keeps it largest-first |
| Ordering.SortDesc | examples.py:95-99 | `sorted(..., reverse=True)` is a permutation of its input, of the same length |
| Ordering.SortDescSorted | examples.py:95-99 | `sorted(..., reverse=True)` is ordered largest key first |
| Ordering.SortedPrefixHoldsLargest | flight_assistant.py:193-196 | Cutting a largest-first list to its first k elements keeps a sub-multiset and drops nothing larger than what it keeps |
| Tallies.CountOfAt | flight_assistant.py:450-453 | `d.get(k, 0)` of a key in the dictionary is its stored count |
| Tallies.CountOf | flight_assistant.py:453 | `d.get(k, 0)` is positive only for a stored key and never exceeds the sum of all counts |
| Tallies.CountOfMissing | flight_assistant.py:450-453 | `d.get(k, 0)` of an absent key is 0 |
| Tallies.Bump | flight_assistant.py:453 | `d[k] = d.get(k, 0) + 1` keeps the dictionary's size when `k` is already a key and adds one entry otherwise |
| Tallies.BumpInPlace | flight_assistant.py:453 | A new key is appended as the last entry with count 1; a stored key has its count raised at its own position, and every other entry stays where it was |
| Tallies.BumpNewKey | flight_assistant.py:453 | Counting a key not yet stored appends it last with count 1 |
| Tallies.BumpStoredKey | flight_assistant.py:453 | Counting a stored key raises the count of its first entry at that position and changes nothing else |
| Tallies.KeysCons | flight_assistant.py:450-459 | The keys of a dictionary with one more leading entry are that entry's key and the rest's keys |
| Tallies.HeadNotInTail | flight_assistant.py:450-459 | A dictionary's first key does not occur again, and the rest also has distinct keys |
| Tallies.BumpKeys | flight_assistant.py:450-459 | `d[k] = d.get(k, 0) + 1` keeps keys distinct and adds `k` to the key set |
| Tallies.BumpCounts | flight_assistant.py:450-459 | `d[k] = d.get(k, 0) + 1` raises the count of `k` by one and leaves every other count alone |
| Tallies.BumpTotal | flight_assistant.py:450-459 | Counting one more occurrence raises the sum of the counts by one |
| Statistics.FlightStatistics | flight_assistant.py:423-484 | The report loop computes exactly `StatisticsOf`: `None` (the `{}` of the except branch) when a record of the period cannot be classified, else the report |
| Statistics.StatisticsOf | flight_assistant.py:423-484 | A report never counts more flights than the log holds or more international flights than flights, and its airline dictionary is empty exactly when the period is |
| Statistics.SelectPeriod | flight_assistant.py:434-443 | The filter loop keeps exactly the records of the requested year and month, in order (zero means no filter) |
| Statistics.InPeriod | flight_assistant.py:436-443 | The period filter never adds records |
| Statistics.PeriodMatch | flight_assistant.py:439-442 | A record passes with no year and no month; a passing record has the given year and the given month whenever these are non-zero |
| Statistics.CountByField | flight_assistant.py:449-459 | The tally loops compute the insertion-ordered airline or cabin tally |
| Statistics.TallyBy | flight_assistant.py:449-459 | A tally never has more keys than records and has at least one when there is a record |
| Statistics.TallyByKeys | flight_assistant.py:449-459 | A tally's keys are distinct and are exactly the values the records carry |
| Statistics.TallyByValueCounts | flight_assistant.py:449-459 | A value's count is the number of records carrying it |
| Statistics.TallyByTotal | flight_assistant.py:449-459 | A tally's counts sum to the number of records |
| Statistics.CountInternationalFlights | flight_assistant.py:461-465 | The international count is defined exactly when every record is classifiable, and then equals the number of international records |
| Statistics.InPeriodMembers | flight_assistant.py:436-443 | The period's records are the matching records, each as often as in the log, and no other |
| Statistics.InPeriodCount | flight_assistant.py:436-446 | `total_flights` is the number of log positions whose record falls in the period |
| Statistics.MatchingPositionsSnoc | flight_assistant.py:436-443 | One more record adds one matching position exactly when it falls in the period |
| Statistics.InPeriodUnfiltered | flight_assistant.py:438-442 | With neither year nor month the filter keeps the whole log |
| Statistics.InPeriodClassifiable | flight_assistant.py:436-443 | Filtering never makes an unclassifiable record appear |
| Statistics.TallyByCounts | flight_assistant.py:449-459 | The tally's keys are distinct and are exactly the values seen; each count is the number of records with that value; the counts sum to the number of records |
| Statistics.StatisticsDefined | flight_assistant.py:423-484 | A report is produced iff every record of the period is classifiable; a fully classifiable log always yields a report |
| Statistics.StatisticsConsistent | flight_assistant.py:445-473 | Total flights equals the period's record count; both tallies sum to it; international plus domestic equals it; domestic is the count of domestic records |
| Statistics.StatisticsOfEverything | flight_assistant.py:436-447 | The unfiltered report counts every record and sums all miles |
| Statistics.TopAirlineMostFlown | flight_assistant.py:476 | `top_airline` is `N/A` iff the period is empty; otherwise an airline flown in the period that no airline beats, the first such in tally order, and every other airline flown as often first appears in the period's records after it |
| Statistics.TopNameOfAirlineTally | flight_assistant.py:456-476 | For a non-empty period the top name is an airline flown there, flown at least as often as any airline, and first in tally order among equals |
| Statistics.TopNameFirstAmongTies | flight_assistant.py:476 | An entry as frequent as `max`'s pick but with another key comes after the pick |
| Statistics.TopNameFirstSeen | flight_assistant.py:450-476 | An airline flown as often as `max`'s pick but named differently first appears in the records after the pick |
| Statistics.SeenBeforeSnoc | flight_assistant.py:451-453 | Appending a record keeps which of two values was seen first |
| Statistics.SeenBeforeNewValue | flight_assistant.py:451-453 | A value already seen comes before a value that first shows up in an appended record |
| Statistics.TallyByFirstSeenOrder | flight_assistant.py:450-453 | The dictionary's keys come in the order their values first occur in the records |
| Statistics.FirstSeenKeptKeys | flight_assistant.py:453 | Raising a stored key's count keeps the keys in first-seen order |
| Statistics.FirstSeenNewKey | flight_assistant.py:453 | A key added for a value not seen before comes after every stored key, in first-seen order |
| Statistics.TopName | flight_assistant.py:476 | `N/A` for an empty dictionary; otherwise a key whose count no other key exceeds |
| RecordQuery.MatchesFilters | flight_assistant.py:187-190 | Every record passes blank filters; a passing record has the given airline and the given cabin whenever these are non-blank |
| RecordQuery.SelectedMembers | flight_assistant.py:187-190 | The filtered records are those matching both given filters, each as often as in the log |
| RecordQuery.Selected | flight_assistant.py:187-190 | Filtering never adds records, and with neither filter set the log is returned unchanged |
| RecordQuery.SliceLength | flight_assistant.py:195-196 | Python's `[:limit]` length: no cut for 0 (the falsy limit), at most `limit` for positive, `limit` fewer (not below 0) for negative |
| RecordQuery.GetFlightRecords | flight_assistant.py:172-203 | The result holds only logged records matching the filters, newest first, of the sliced length, a sub-multiset of the matches (all of them without a limit), and drops nothing newer than it keeps |
| RecordQuery.NewestFirst | flight_assistant.py:193-196 | Sorting newest first then slicing: sorted, right length, sub-multiset, the dropped records no newer than the kept ones |
| RecordQuery.SortedNewestFirst | flight_assistant.py:193 | Sorting the list newest first yields a newest-first permutation of it |
| PriceAlerts.RouteKey | flight_assistant.py:357 | The key starts with the departure and a `_`, ends with the travel date, and is two characters longer than the three parts |
| PriceAlerts.RouteKeyIdentifiesRoute | flight_assistant.py:357 | With no `_` in the airport codes, equal route keys have equal departure, arrival and date |
| PriceAlerts.FirstRouteIndex | flight_assistant.py:360-365 | The `for ... break` search: the first alert with the route key, or none when no alert has it |
| PriceAlerts.Lookup | flight_assistant.py:360-365 | `previous_record` is found iff some alert has the route key, and it is then the first such alert |
| PriceAlerts.FirstMatchUnique | flight_assistant.py:360-365 | An alert with the key and none before it is the one the search returns |
| PriceAlerts.DropDetected | flight_assistant.py:380-383 | A drop is flagged only when there was a previous price and the new price is lower; a threshold of at most 1 (prices are integers) flags exactly a fall from a non-zero price |
| PriceAlerts.NewAlert | flight_assistant.py:356-383 | The new alert carries the route key, has a previous price exactly when the route was already watched, and flags a drop only below that previous price |
| PriceAlerts.Upsert | flight_assistant.py:386-393 | The table keeps its length when the route is known and grows by one otherwise, and always holds the new alert |
| PriceAlerts.UpsertShape | flight_assistant.py:386-393 | A new route is appended; a known route's first alert (no earlier alert has the key) is replaced in place and every other alert is kept |
| PriceAlerts.UpsertThenLookup | flight_assistant.py:386-393 | After the update the route finds the new alert, and every other route finds what it found before |
| PriceAlerts.UpsertKeepsRoutesDistinct | flight_assistant.py:386-393 | A table with one alert per route keeps one alert per route |
| PriceAlerts.MonitorRecordsPrice | flight_assistant.py:356-393 | The stored alert holds the looked-up minimum price (0 when absent), the previous price iff the route was watched, and the drop flag exactly when the previous price is non-zero and fell by more than 0 and by at least the threshold |
| Achievements.FirstInternationalUnlock | flight_assistant.py:522-537 | Rule 1 yields at most one achievement, always `first_international` |
| Achievements.FrequentFlyerUnlock | flight_assistant.py:539-553 | Rule 2 yields at most one achievement, always `frequent_flyer` |
| Achievements.LongDistanceUnlock | flight_assistant.py:555-567 | Rule 3 yields at most one achievement, always `long_distance_traveler` |
| Achievements.HasId | flight_assistant.py:544 | `any(a['id'] == id ...)` holds iff some stored achievement has that id |
| Achievements.FirstInternational | flight_assistant.py:529-535 | The achievement has id `first_international`, the check's time and the triggering flight number |
| Achievements.FrequentFlyer | flight_assistant.py:545-551 | The achievement has id `frequent_flyer`, the check's time and the year's statistics |
| Achievements.LongDistanceTraveler | flight_assistant.py:559-565 | The achievement has id `long_distance_traveler`, the check's time and the total miles |
| Achievements.CheckAborts | flight_assistant.py:522-527 | A check for a record that is in a fully classifiable log never aborts |
| Achievements.NewAchievements | flight_assistant.py:518-567 | One check appends at most three achievements, each with one of the three rule ids |
| Achievements.HasIdAppend | flight_assistant.py:544 | `any(a['id'] == id ...)` over two lists joined is the disjunction over each |
| Achievements.HasIdUniform | flight_assistant.py:558 | A list of achievements all of one id has an id iff it is non-empty and the id is that one |
| Achievements.NewAchievementsInRuleOrder | flight_assistant.py:518-567 | A check appends at most three achievements, in rule order |
| Achievements.NewAchievementsIds | flight_assistant.py:518-567 | The ids a check appends are exactly the ids its three rules yield |
| Achievements.FirstInternationalRule | flight_assistant.py:522-537 | `first_international` is appended iff the new flight is international, every stored record is classifiable and exactly one stored flight is international |
| Achievements.FrequentFlyerRuleAnyLog | flight_assistant.py:539-553 | For every log: `frequent_flyer` is appended iff the check does not raise, this year's report exists and counts at least 10 flights, and it is not stored yet (a domestic new record is not blocked by an unclassifiable stored one) |
| Achievements.FrequentFlyerRule | flight_assistant.py:539-553 | On a log whose records can all be classified: `frequent_flyer` is appended iff at least 10 stored flights fall in the current year and it is not stored yet |
| Achievements.LongDistanceRuleAnyLog | flight_assistant.py:555-567 | For every log: `long_distance_traveler` is appended iff the check does not raise, the all-time report exists and reaches 10000 miles, and it is not stored yet |
| Achievements.LongDistanceRule | flight_assistant.py:555-567 | On a log whose records can all be classified: `long_distance_traveler` is appended iff the stored miles sum to at least 10000 and it is not stored yet |
| Achievements.NoDuplicateBadges | flight_assistant.py:539-567 | A stored `frequent_flyer` or `long_distance_traveler` is never appended again |
| Achievements.IdCount | flight_assistant.py:544 | The number of achievements with an id never exceeds the list's length |
| Achievements.IdCountAppend | flight_assistant.py:570-571 | The count of an id in a list with achievements appended is the sum of the two counts |
| Achievements.IdCountZero | flight_assistant.py:544 | An id occurs zero times exactly when `any(a['id'] == id ...)` is false |
| Achievements.IdCountRanked | flight_assistant.py:518-567 | A list in strictly increasing rule order holds each id at most once |
| Achievements.BadgesStayUnique | flight_assistant.py:539-571 | If the stored list holds `frequent_flyer` (or `long_distance_traveler`) at most once, it still does after a check's achievements are appended |
| Achievements.FirstInternationalAtMostOnce | flight_assistant.py:522-537 | Over a growing log, `first_international` is appended for at most one of its flights |
| Achievements.UnclassifiableLogBlocksLongDistance | flight_assistant.py:556-558 | Once the log holds a record whose classification raises, `long_distance_traveler` is never appended |
| Assistant.FlightAssistant.constructor | flight_assistant.py:71-98 | The assistant starts from the lists its three data files hold |
| Assistant.FlightAssistant.AddFlightRecord | flight_assistant.py:124-170 | The result is the save result; the record is appended iff saved, and only then the achievement check runs over the log including it |
| Assistant.FlightAssistant.CheckAndUnlockAchievements | flight_assistant.py:512-575 | The stored achievements become the old ones plus the check's new ones when the save succeeds, and are otherwise unchanged |
| Assistant.FlightAssistant.MonitorPrice | flight_assistant.py:336-400 | True iff a price was found; the table becomes the replace-or-append update with the new alert when saved, else unchanged |
| Assistant.FindRoute | flight_assistant.py:360-365 | The search loop finds exactly the first alert with the route key |
| Assistant.EvaluateAchievementRules | flight_assistant.py:518-567 | The working list ends as the loaded achievements plus exactly the check's new ones, and one name is gathered per new achievement |
| Assistant.Names | flight_assistant.py:537 | The names gathered are the achievements' names, one each, in order |
| Assistant.FirstInternationalStep | flight_assistant.py:522-537 | The first rule's step aborts iff the classification raises, and otherwise yields rule 1's achievements |
| Assistant.FrequentFlyerStep | flight_assistant.py:539-553 | The second rule's step yields rule 2's achievements |
| Assistant.LongDistanceStep | flight_assistant.py:555-567 | The third rule's step yields rule 3's achievements |
| Assistant.NewAchievementsSteps | flight_assistant.py:518-567 | Appending the three rules' results in turn appends exactly the check's new achievements |
| Insights.MembershipTier | examples.py:81-89 | Platinum iff at least 100000 miles, Gold iff 50000 to 99999, Silver iff 10000 to 49999, Ordinary below 10000 |
| Insights.TierMonotone | examples.py:81-89 | More miles never give a lower tier |
| Insights.TopAirlines | examples.py:95-99 | The top list holds three entries, or all of them when the tally has fewer |
| Insights.TopAirlinesAreMostFlown | examples.py:95-99 | The top list has min(3, n) entries of the tally, most flown first, and no omitted airline was flown more often than a listed one |
| Insights.LongestFlight | examples.py:265 | A logged flight with no longer flight in the log |
| Insights.ShortestFlight | examples.py:269 | A logged flight with no shorter flight in the log |
| Insights.ExtremesPreferEarliest | examples.py:265-270 | `max`/`min` return the earliest record among those with the extreme mileage |
| Insights.DistinctValues | examples.py:277-282 | The set of airlines (cabins) of a non-empty log contains the first record's value |
| Insights.DistinctValuesMembers | examples.py:277-282 | The airline (cabin) set holds exactly the values some record has |
| Insights.DistinctValuesSnoc | examples.py:277-282 | One more record adds exactly its value to the set |
| Insights.DistinctValuesBounds | examples.py:277-282 | There are never more distinct airlines (cabins) than records, and at least one when there is a record |
| Responder.Contains | test_agent.py:12 | `key in question`: the empty keyword occurs in every question, and a keyword longer than the question never occurs |
| Responder.FirstResponse | test_agent.py:11-13 | No reply iff no keyword occurs in the question; otherwise the reply of a keyword that occurs with no earlier keyword occurring |
| Responder.Answer | test_agent.py:3-14 | The answer is a table reply or the default prompt, and the default prompt whenever no keyword occurs |
| Responder.FirstKeywordWins | test_agent.py:11-13 | The first keyword (in table order) found in the question decides the answer |
| Responder.DefaultWhenNoKeyword | test_agent.py:11-14 | The default prompt is returned iff no keyword occurs |
| Responder.KeywordGetsOwnReply | test_agent.py:5-13 | Asking exactly a keyword returns that keyword's reply, since no keyword contains an earlier one |

## Left out

- **Data files:** JSON reading and writing, and `_init_data_files`, are not modelled. The store contents are fields and whether a save succeeds is an input. A load that fails (which the source turns into `[]`) is not modelled separately.
- **Recording time:** the clock (`datetime.now()`) and ISO-8601 parsing and formatting are not modelled. The time is a `Timestamp` parameter that already carries its year and month.
- **Price lookup:** `check_flight_price`, an HTTP call, is an input. `start_price_monitoring` and its scheduling loop are not modelled.
- **Threshold:** the price threshold is an integer, not a float.
- PriceAlerts.PriceInfo: `min_price` is an integer, while the price service may return a float. The drop test at flight_assistant.py:380-383 is then float arithmetic, which the model does not capture.
- Assistant.FlightAssistant.MonitorPrice: `None` stands for every falsy lookup result, the empty dict `{}` included, since `if not price_info` rejects both (flight_assistant.py:351). `Some(PriceInfo(None))` is a non-empty answer without `min_price`, which reads as price 0.
- RecordQuery.GetFlightRecords: the source sorts by the `record_date` ISO string (flight_assistant.py:193). The model sorts by `Timestamp.instant`, which stands for the order of that text.
- **Other output:** itinerary cards, `print_*` reports and logging are not modelled; they only produce output.
- **Average miles:** the report's `average_miles_per_flight` is a floating-point division and is not modelled. The `period` label string is not modelled.
- **Broad except:** exceptions other than the airport-code indexing are not modelled. Only the airport-code indexing raises on the inputs the model admits.
- **Domestic countries:** the unused `DOMESTIC_COUNTRIES` constant has no counterpart.
- Ordering.SortDescendingInPlace: does not state the stability of Python's sort (equal keys keeping their order), only order and permutation.
- Ordering.SortDesc: does not state stability either, so ties among equally often flown airlines in the top three are not pinned down.
- Statistics.TopAirlineMostFlown: an airline literally named `N/A` cannot be told apart from the empty-report marker, as in the source.
- **Entry scripts:** `main.py`, `deploy.py` and the `input()` chat loop of `test_agent.py` are not part of this model. The remaining demonstration code in `examples.py` only prints and is not modelled either.
