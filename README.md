# Chasing Your Tail: a verified model of the detection core

Chasing Your Tail (CYT) watches the Wi-Fi devices seen by a Kismet capture. It flags devices
that keep turning up over time or across places, so that a person can tell whether they are
being followed. This project models the sequential core of CYT in Dafny and proves
properties of that model. The file `<name>.dfy` holds module `<Name>`, which models the
Python file `<name>.py`:

- `surveillance_detector.dfy` (`SurveillanceDetector`) covers the appearance ledger, the
  persistence scorer, the flagging and ranking of suspicious devices, the count-based
  statistics, and the quick-follower and multi-location counts of the geographic analysis.
- `gps_tracker.dfy` (`GpsTracker`) covers the GPS session manager. It holds first-match
  clustering, the unique-name counter loop, session extension or creation on the 600-second
  timeout, device attribution, the history sort, and the devices seen at several locations.
- `secure_main_logic.dfy` (`SecureMainLogic`) covers the rolling-window monitor. It has four
  MAC buckets and four SSID buckets, the ignore-list filters, initialisation, rotation, and
  reappearance alerts.
- `secure_database.dfy` (`SecureDatabase`) covers time-range row selection over abstract rows,
  device decoding, MAC and probe extraction, the time-window boundaries, and the two
  ignore-list filters.
- `input_validation.dfy` (`InputValidation`) covers the MAC, SSID, path and file-name
  validators, the deletion-only sanitiser, the configuration-structure check, and the
  ignore-list validator.
- `secure_ignore_loader.dfy` (`SecureIgnoreLoader`) covers the JSON-or-assignment format
  dispatch, the text pipeline of `_parse_python_list`, the validating load loops, and the
  list computations of the two save functions.
- `probe_analyzer.dfy` (`ProbeAnalyzer`) covers the scan of a log text for probe lines, the
  nearest preceding `Current Time:` stamp, the fallback stamp built from the file name, the
  per-SSID index, the per-SSID summaries, and the sort by count.
- `surveillance_analyzer.dfy` (`SurveillanceAnalyzer`) covers the three-condition stalking
  filter and the GPS thinning and naming loop.

Four shared modules support them:

- `Wrappers`: `Option`, and a `Result` whose `Raised` case stands for an exception.
- `Json`: decoded JSON values.
- `PyStr`: the Python string operations the code uses, such as `upper`, `strip`, `split`,
  `join`, `replace`, slicing and `str(int)`.
- `Sorting`: Python's stable `sort` by a key, with `reverse=True` modelled as ascending order
  of the negated key.

The model follows the form of the code:

- Objects whose fields change become classes: `Detector`, `Tracker`, `Monitor` and
  `Analyzer`.
- Loops become methods with invariants. Each is proved equal to a specification function, and
  the properties are proved about that function.
- Comprehensions and expression pipelines become functions.

Outside effects become parameters:

- The clock is an integer `now` in seconds.
- The distance between two readings is a function parameter.
- `json.loads` is a function `parse` giving a `Decoding`: a value, a `JSONDecodeError`
  (`DecodeError`), or any other exception (`OtherError`), such as a `UnicodeDecodeError` on a
  byte blob or a `RecursionError` on deeply nested text.
- A database, as one query sees it, is a sequence of rows plus a `reachable` flag. When the
  flag is false, that query raises. A monitor method's several queries share the rows and
  each has its own flag (`SecureMainLogic.Connection`).

Three behaviours of the code that a reader might not expect, each modelled as written:

- `_get_location_cluster_id` puts a GPS reading in the *first* session within the 100 m
  threshold, in list order, even when a later one is nearer (`GpsTracker.FirstNear`).
- `_update_current_session` reuses the id of a session that has timed out, so a second session
  is created under the same id (`GpsTracker.TimedOutIdReused`). Only freshly generated names
  are kept distinct, by the counter loop at gps_tracker.py:88-95.
- Refreshing the time buckets is not atomic. Each `db.get_*` call is its own query and can
  raise on its own, for instance with `database is locked` while Kismet writes; the model
  gives every query of a method its own outcome (`SecureMainLogic.Connection`).
  - In `rotate_tracking_lists`, the buckets stay shifted whatever fails. A failing MAC
    query leaves both past-5 buckets equal to the 5-10 ones. A failing probe query after a
    successful MAC query leaves only the past-5 MACs refreshed
    (`SecureMainLogic.Monitor.RotateTrackingLists`).
  - In `initialize_tracking_lists`, the buckets filled before a failing query are updated
    and the rest keep their contents. An SSID query can fail after all four MAC buckets
    were filled, which leaves some SSID buckets new and the later ones old
    (`SecureMainLogic.Monitor.InitializeTrackingLists`).

## Model

| member | source | states |
|---|---|---|
| SurveillanceDetector.Detector.constructor | surveillance_detector.py:41-51 | A new detector has no appearances, an empty per-MAC history and no MAC keys. |
| SurveillanceDetector.Detector.AddDeviceAppearance | surveillance_detector.py:53-67 | Appends exactly one record to the ledger and to the history of that MAC. A missing SSID list becomes `[]`. Every other MAC's history is unchanged, and a first-seen MAC joins the key order at the end. The ledger invariant is kept. |
| SurveillanceDetector.LedgerAppend | surveillance_detector.py:53-67 | Appending one appearance to a consistent ledger keeps it consistent. Consistent means each history is the in-order sublist of the ledger for that MAC, and the key order lists each seen MAC once, in first-seen order. |
| SurveillanceDetector.LedgerSize | surveillance_detector.py:44-67 | In a consistent ledger there are as many histories as keys, and a non-empty ledger has at least one device. |
| SurveillanceDetector.ForMac | surveillance_detector.py:67 | A MAC's history holds exactly the ledger records of that MAC, and is no longer than the ledger. |
| SurveillanceDetector.ForMacAppend | surveillance_detector.py:66-67 | Appending a record extends that record's MAC history by it and leaves every other MAC history unchanged. |
| SurveillanceDetector.ForMacAbsent | surveillance_detector.py:67 | A MAC that never occurs in the ledger has an empty history. |
| SurveillanceDetector.MacsInOrder | surveillance_detector.py:44 | The `defaultdict` keys are duplicate-free and are exactly the MACs that occur in the ledger. |
| SurveillanceDetector.MinTimestamp | surveillance_detector.py:107-108 | The result is attained by some appearance and is at most every timestamp. |
| SurveillanceDetector.MaxTimestamp | surveillance_detector.py:107-108 | The result is attained by some appearance and is at least every timestamp. |
| SurveillanceDetector.SpanHours | surveillance_detector.py:108 | The time span in hours is never negative. |
| SurveillanceDetector.RateFacts | surveillance_detector.py:115-119 | For a positive span, a rate of at least 0.5 per hour means at least half an appearance per hour, and a rate above 1 means more appearances than hours. |
| SurveillanceDetector.PersistenceScore | surveillance_detector.py:98-130 | The result is `(0.0, [])` below 3 appearances, below a one-hour span (the literal 1.0, not the configured threshold), and below 0.5 appearances per hour. Otherwise the score lies in [0.25, 1]. The score is 0 iff there are no reasons. The first reason records the count and hours. A second reason, `Followed(k)`, is present iff there are at least 2 distinct locations. |
| SurveillanceDetector.ScoreFrom | surveillance_detector.py:115-128 | The same rule as a function of count, hours and number of locations alone: the bounds, the zero cases and the one-or-two reasons. |
| SurveillanceDetector.LocationBonus | surveillance_detector.py:115-128 | With one location a scored device gets `min(rate / 2, 1)`. A second distinct location adds exactly 0.3 to that, capped at 1.0. Whether a device is scored does not depend on its locations. |
| SurveillanceDetector.PersistenceScoreValue | surveillance_detector.py:98-130 | A scored device's score is `min(len / hours / 2, 1)`, plus 0.3 capped at 1.0 when it has at least two locations. |
| SurveillanceDetector.MinPermutation | surveillance_detector.py:107-108 | Two non-empty lists with the same members have the same minimum timestamp. |
| SurveillanceDetector.MaxPermutation | surveillance_detector.py:107-108 | Two non-empty lists with the same members have the same maximum timestamp. |
| SurveillanceDetector.MinMaxPermutation | surveillance_detector.py:107-123 | A permutation keeps the length, the minimum, the maximum and the location set. |
| SurveillanceDetector.PersistenceScorePermutation | surveillance_detector.py:98-130 | Any permutation of the appearances gives the same score and reasons. |
| SurveillanceDetector.FlaggingRule | surveillance_detector.py:81-128 | With at least 3 appearances over at least one hour, a multi-location device scores above 0.5 iff it appears at least every two hours, and a single-location device iff it appears more than once an hour. |
| SurveillanceDetector.Flagged | surveillance_detector.py:75-92 | The flagged list has no more entries than there are keys. |
| SurveillanceDetector.FlaggedFacts | surveillance_detector.py:75-92 | A MAC is in the flagged list iff it is a key with at least 3 appearances and a score above 0.5. Each entry carries its own history, score, reasons, first and last timestamps, count and location set. Distinct keys give distinct flagged MACs. |
| SurveillanceDetector.FlaggedStep | surveillance_detector.py:75-92 | One more key extends the flagged list by that key's device exactly when it is flagged. |
| SurveillanceDetector.FlaggedMultiLocation | surveillance_detector.py:89-90 | A flagged device has a second reason iff its location set has more than one element, and its appearance count (at least 3) is its history length. |
| SurveillanceDetector.CollectFlagged | surveillance_detector.py:73-92 | The loop over the history in key order builds exactly the flagged list. |
| SurveillanceDetector.Detector.AnalyzeSurveillancePatterns | surveillance_detector.py:71-96 | Returns the flagged devices stably sorted by score, descending. |
| SurveillanceDetector.RankedFacts | surveillance_detector.py:75-96 | The ranked list is non-increasing in score. It holds each flagged MAC exactly once, with its own device record. Devices of equal score keep their key order, which is the stability of `sort(reverse=True)`. |
| SurveillanceDetector.SortedDeviceFacts | surveillance_detector.py:95 | A sorted permutation of the flagged list keeps its members, its duplicate-free MACs and the device records, and is non-increasing in score. |
| SurveillanceDetector.DistinctMacsPermutation | surveillance_detector.py:95 | Sorting keeps the MACs duplicate-free. |
| SurveillanceDetector.MacsOfSameMembers | surveillance_detector.py:95 | Lists with the same devices have the same MACs. |
| SurveillanceDetector.CountWhere | surveillance_detector.py:163-209 | The number of keys whose history passes a test is at most the number of keys. |
| SurveillanceDetector.CountWhereStep | surveillance_detector.py:168-172 | One more key adds one to the count exactly when its history passes the test. |
| SurveillanceDetector.Ratio | surveillance_detector.py:165 | A rate is never negative, is at most 1 when the count does not exceed the total, and is 0 when the total is 0. |
| SurveillanceDetector.CountDeviceKinds | surveillance_detector.py:162-209 | The loops count the persistent devices (at least 3 appearances), the multi-location devices (at least 2 locations) and the probe-anomalous devices (more than 20 distinct SSIDs, or one containing a suspicious word). |
| SurveillanceDetector.ComputeStatistics | surveillance_detector.py:136-224 | The method computes exactly the statistics record of the ledger. |
| SurveillanceDetector.Detector.GenerateAnalysisStatistics | surveillance_detector.py:136-224 | Returns the statistics record of the current ledger. |
| SurveillanceDetector.StatisticsFacts | surveillance_detector.py:138-211 | An empty ledger gives all zeros with detection accuracy 0.95. Otherwise the totals are the ledger length, the number of devices (at least 1) and a positive location count. Every rate lies in [0, 1] and the duration is never negative. |
| SurveillanceDetector.HasQuickTransition | surveillance_detector.py:408-418 | True iff, in timestamp order, some consecutive pair of appearances changes location within less than 1800 seconds. |
| SurveillanceDetector.CountQuickFollowers | surveillance_detector.py:406-418 | The quick-follower count is at most the number of devices, and is 0 iff no device is a quick follower. |
| SurveillanceDetector.CountQuickStep | surveillance_detector.py:407-418 | One more device adds one exactly when it is a quick follower. |
| SurveillanceDetector.QuickFollowerCount | surveillance_detector.py:405-418 | The loop computes the quick-follower count. |
| SurveillanceDetector.MultiLocationCount | surveillance_detector.py:391 | The multi-location count is at most the number of devices, and equals it iff every device was seen at more than one location. |
| Sorting.SortBy | surveillance_detector.py:95 | The result is sorted by the key, is a permutation of the input, and keeps the input order among elements of equal key (stable). |
| Sorting.SortByHeadIsMin | surveillance_analyzer.py:134 | The first element after sorting has the least key. |
| PyStr.Upper | secure_ignore_loader.py:57 | `str.upper` keeps the length and upper-cases each character in place. |
| PyStr.UpperIsUpperCase | secure_ignore_loader.py:57 | The result is upper case, and upper-casing twice equals upper-casing once. |
| PyStr.SliceBetweenSpaces | secure_ignore_loader.py:38 | A prefix of a suffix, with only whitespace cut off on both sides, is a subsequence and a contiguous slice of the text with only whitespace around it. |
| PyStr.Strip | secure_ignore_loader.py:38 | `str.strip` gives a contiguous slice of the input, with only whitespace cut off before and after it and no whitespace at either end. |
| PyStr.Split | secure_ignore_loader.py:117 | `str.split(c)` gives at least one piece, and no piece contains `c`. |
| PyStr.JoinSplit | secure_ignore_loader.py:117 | Joining the pieces of a split with its separator gives back the text. |
| PyStr.BeforeFirst | secure_ignore_loader.py:117 | `line.split('#')[0]` is the longest prefix without `#`, and is followed by `#` when shorter than the line. |
| PyStr.BeforeFirstIsFirstPiece | secure_ignore_loader.py:117 | That prefix is the first piece of the split. |
| PyStr.RemoveChar | input_validation.py:100-101 | `replace(c, '')` removes every `c` and keeps every other character that occurred. |
| PyStr.RemoveAll | input_validation.py:108-109 | `replace(t, '')` yields a subsequence of the text. |
| PyStr.RemoveAllSinglePass | input_validation.py:108-109 | `replace` makes one pass: deleting `SELECT` from `SELSELECTECT` leaves `SELECT`, which a single deletion round does not remove. |
| PyStr.ReplaceChar | secure_ignore_loader.py:132 | A one-character `replace` keeps the length and changes exactly the matching characters. |
| PyStr.Take | input_validation.py:92-93 | The slice `s[:n]` is a prefix of length `min(n, len(s))`; a negative `n` drops `-n` characters from the end. |
| PyStr.NatToString | surveillance_analyzer.py:148 | `str(n)` is a non-empty string of decimal digits. |
| PyStr.ParseNatToString | surveillance_analyzer.py:148 | Reading the digits back gives `n`. |
| PyStr.NatToStringInjective | surveillance_analyzer.py:148 | Different numbers give different strings. |
| PyStr.LexMin | probe_analyzer.py:113 | `min` over strings returns a member that is lexicographically least. |
| PyStr.LexMax | probe_analyzer.py:114 | `max` over strings returns a member that is lexicographically greatest. |
| GpsTracker.Tracker.constructor | gps_tracker.py:37-45 | A new tracker has no readings, no sessions and no current session. |
| GpsTracker.FirstNear | gps_tracker.py:76-79 | Returns the index of the first session within 100 m, with none before it within 100 m. It returns `None` iff no session is within 100 m. It takes the first match, not the nearest. |
| GpsTracker.BaseName | gps_tracker.py:82-86 | A non-empty location name gives a base name of the same length with no spaces. |
| GpsTracker.CandidateInjective | gps_tracker.py:91-94 | Different counter values give different candidate ids (`base`, `base_1`, `base_2`, ...). |
| GpsTracker.CandidatesBound | gps_tracker.py:92-94 | If the first `n` candidates are all taken, then `n` is at most the number of existing ids. This is why the loop terminates. |
| GpsTracker.FreshSuffix | gps_tracker.py:88-95 | The counter search stops at a free candidate, and every earlier candidate is taken. |
| GpsTracker.FreshSuffixIsLeast | gps_tracker.py:88-95 | The search returns the least free candidate. |
| GpsTracker.SessionIds | gps_tracker.py:89 | The existing ids list the session ids in session order. |
| GpsTracker.ClusterIdFacts | gps_tracker.py:73-96 | If some session is within range, the id is that of the first such session. Otherwise the id differs from every existing session id and is the least free candidate over the base name. |
| GpsTracker.Tracker.GetLocationClusterId | gps_tracker.py:73-96 | The search loop and the counter loop compute the cluster id. |
| GpsTracker.FirstContinuable | gps_tracker.py:104-110 | Returns the first session with the given id whose end lies at most 600 seconds before `now`, or `None` iff there is none. |
| GpsTracker.UpdateSessionsFacts | gps_tracker.py:98-123 | The current session has the given id and ends at `now`. No session's location, start or id changes. Nothing is appended iff a continuable session exists, and then only that session changes. Otherwise exactly one new session is appended, with start = end = `now`, no devices and the reading as its location. |
| GpsTracker.TimedOutIdReused | gps_tracker.py:103-121 | A second visit 601 seconds later creates a second session under the same id, so session ids need not be unique. |
| GpsTracker.Tracker.UpdateCurrentSession | gps_tracker.py:98-123 | The sessions and the current session become those of the update rule. The readings are unchanged. |
| GpsTracker.Tracker.AddGpsReading | gps_tracker.py:47-71 | Appends the reading and returns its cluster id, computed from the sessions before the call. It then updates the sessions with that id. |
| GpsTracker.AddDeviceTo | gps_tracker.py:151-152 | Only the chosen session changes, and only in its devices. The MAC is then among them, nothing else is added, and a duplicate-free device list stays duplicate-free. |
| GpsTracker.AddDeviceIdempotent | gps_tracker.py:151-152 | Recording the same device twice equals recording it once. |
| GpsTracker.Tracker.AddDeviceAtCurrentLocation | gps_tracker.py:145-155 | With no current session it returns `None` and changes nothing. Otherwise it records the MAC in the current session and returns that session's id. |
| GpsTracker.Tracker.CurrentLocationId | gps_tracker.py:157-161 | Returns `None` iff there is no current session, and otherwise the current session's id. |
| GpsTracker.Tracker.LocationHistory | gps_tracker.py:163-165 | The sessions sorted ascending by start time, as a stable permutation. |
| GpsTracker.IdsOf | gps_tracker.py:171-176 | A duplicate-free list of exactly the ids of sessions that saw the MAC. |
| GpsTracker.FirstSeenAt | gps_tracker.py:171-176 | For an id under which the MAC was seen, the index of the first session that saw the MAC under that id: that session did, and no earlier one did. |
| GpsTracker.FirstSeenInPrefix | gps_tracker.py:171-176 | A first sighting within a prefix of the session list is also the first sighting in the whole list. |
| GpsTracker.IdsOfOrdered | gps_tracker.py:171-176 | The ids in the list come in the order of their first sighting in session order, because each id is appended when it is first met. |
| GpsTracker.RecordDevicesFacts | gps_tracker.py:172-176 | Folding one session into the map adds its id once to each of its MACs, and leaves the other entries as they were. |
| GpsTracker.GatheredIsIdsOf | gps_tracker.py:169-176 | The map built over all sessions has exactly the seen MACs as keys, and maps each one to the duplicate-free list of ids of the sessions that saw it. |
| GpsTracker.IdsOfSeen | gps_tracker.py:171-176 | A MAC with some session id was seen in some session. |
| GpsTracker.MultiLocationDevicesFacts | gps_tracker.py:167-184 | A MAC is kept iff two sessions with different ids saw it. Its value is the duplicate-free list of ids of the sessions that saw it. |
| GpsTracker.ReportedIds | gps_tracker.py:167-184 | The list reported for a kept MAC is its id list, in the order of each id's first sighting. |
| GpsTracker.RecordSession | gps_tracker.py:172-176 | The inner loop folds one session into the map. |
| GpsTracker.DevicesAcrossSessions | gps_tracker.py:169-184 | The nested loops and the final filter compute the multi-location map. |
| GpsTracker.Tracker.GetDevicesAcrossLocations | gps_tracker.py:167-184 | Returns the multi-location map of the current sessions. |
| SecureMainLogic.Monitor.constructor | secure_main_logic.py:13-29 | The MAC ignore set is stored uppercased and the SSID ignore set as given. All eight buckets start empty, and the time windows are kept. |
| SecureMainLogic.Monitor.FilterMacs | secure_main_logic.py:84-86 | The filtered set holds only uppercase MACs that are not ignored. |
| SecureMainLogic.Monitor.FilterMacsFacts | secure_main_logic.py:84-86 | For each listed MAC, its uppercase image is in the result iff that image is not ignored. Every member is the uppercase image of a listed MAC. |
| SecureMainLogic.Monitor.FilterSsids | secure_main_logic.py:88-90 | The filtered set holds no empty and no ignored SSID. |
| SecureMainLogic.Monitor.FilterSsidsFacts | secure_main_logic.py:88-90 | An SSID is kept iff it is listed, non-empty and not exactly in the ignore set. Case is preserved. |
| SecureMainLogic.Reached | secure_main_logic.py:48-82 | Counts how many of the four window queries can run before a missing boundary key raises. |
| SecureMainLogic.ReachedWindows | secure_main_logic.py:51-63 | Every boundary key before that point is present, and the key at that point is missing. |
| SecureMainLogic.Completed | secure_main_logic.py:48-82 | Counts the windows, from the newest, whose boundary keys are present and whose own query succeeds, stopping at the first failure. At most the windows the keys reach. |
| SecureMainLogic.CompletedWindows | secure_main_logic.py:48-82 | Every window before that point has its key and a succeeding query. The window at that point lacks its key or its query fails. |
| SecureMainLogic.SsidsOf | secure_main_logic.py:70 | One SSID per probe. |
| SecureMainLogic.QueryWindowMacs | secure_main_logic.py:51-63 | A window's MAC query succeeds iff that query reaches the database and the window's keys are present, and then returns that window's MACs. |
| SecureMainLogic.QueryWindowSsids | secure_main_logic.py:69-81 | The same for a window's probed SSIDs. |
| SecureMainLogic.Monitor.RefillMacs | secure_main_logic.py:51-64 | A bucket is refilled iff its query can run, and then holds the filtered window MACs. |
| SecureMainLogic.Monitor.RefillSsids | secure_main_logic.py:69-82 | A bucket is refilled iff its query can run, and then holds the filtered window SSIDs. |
| SecureMainLogic.Monitor.InitializeMacLists | secure_main_logic.py:48-64 | Raises iff some window's key is missing or its query fails. Each MAC bucket before the first failure is replaced by its filtered window, and that bucket and the later ones keep their old contents. The SSID buckets and ignore sets are unchanged. |
| SecureMainLogic.Monitor.InitializeSsidLists | secure_main_logic.py:66-82 | The same for the SSID buckets. The MAC buckets are unchanged. |
| SecureMainLogic.Monitor.InitializeTrackingLists | secure_main_logic.py:31-46 | If the boundaries cannot be computed, it raises and nothing changes. Otherwise the MAC buckets are filled up to the first failing query. The SSID queries run only when all four MAC queries succeeded, and the SSID buckets are then filled up to their own first failure. Every bucket not filled keeps its contents. It raises iff some query fails. |
| SecureMainLogic.Monitor.ShiftBuckets | secure_main_logic.py:218-226 | For MACs and SSIDs alike: new 15-20 := old 10-15, new 10-15 := old 5-10, new 5-10 := old past-5. The old 15-20 contents are dropped. |
| SecureMainLogic.Monitor.RefreshPastFive | secure_main_logic.py:228-237 | The past-5 MACs are refreshed iff the boundaries are computed and the MAC query succeeds. The past-5 SSIDs are refreshed iff the SSID query also succeeds. A bucket that is not refreshed keeps its value. |
| SecureMainLogic.Monitor.RotateTrackingLists | secure_main_logic.py:215-242 | Shifts the buckets, then refreshes past-5, MACs first. The rotation is not atomic. A past-5 bucket whose query fails, or does not run, equals its new 5-10 bucket. If only the probe query fails, the past-5 MACs are fresh and the past-5 SSIDs are not. |
| SecureMainLogic.Monitor.ProbedSsid | secure_main_logic.py:144-158 | A probed SSID is reported only when it is non-empty and not ignored. |
| SecureMainLogic.Monitor.ProcessProbeRequests | secure_main_logic.py:142-169 | The alerts are those of the older SSID buckets holding the device's probed SSID, or none when there is no usable SSID. |
| SecureMainLogic.Monitor.SsidAlertsFacts | secure_main_logic.py:171-189 | The alerts are exactly SSID alerts for this SSID, one for each older bucket (5-10, 10-15, 15-20) that holds it. |
| SecureMainLogic.Monitor.MacAlertsFacts | secure_main_logic.py:191-213 | An ignored MAC, compared in upper case, gives no alert. Otherwise the alerts are exactly MAC alerts for the older buckets holding the MAC in its original case. The past-5 bucket is never checked. |
| SecureMainLogic.Monitor.LowerCaseMacNeverReappears | secure_main_logic.py:84-213 | The buckets hold uppercase MACs but the lookup uses the MAC as reported, so a MAC reported in lower case never raises a reappearance alert. |
| SecureMainLogic.Monitor.ActivityAlertsAppend | secure_main_logic.py:126-137 | The alerts of two device lists concatenated are the alerts of each list in turn. |
| SecureMainLogic.Monitor.ActivityAlertsStep | secure_main_logic.py:126-137 | One more device adds exactly its own alerts. |
| SecureMainLogic.Monitor.ActivityAlertsFacts | secure_main_logic.py:118-137 | Every MAC alert names a non-ignored MAC of some current device and a bucket holding it. Every SSID alert names the usable probed SSID of some current device and a bucket holding it. |
| SecureMainLogic.Monitor.CheckDevices | secure_main_logic.py:126-137 | The loop over the current devices yields exactly their alerts, in order. |
| SecureMainLogic.Monitor.ProcessCurrentActivity | secure_main_logic.py:118-140 | A failure to compute boundaries or to query gives no alerts. Otherwise the alerts are those of the devices seen since `current_time`. The method changes no bucket. |
| SecureMainLogic.DefaultWindowsReachEveryBucket | secure_main_logic.py:48-82 | With the default windows all four window queries have their boundary keys, so with no failing query both initialisations fill all four buckets. |
| SecureDatabase.SelectRows | secure_database.py:67-74 | The selection has at most as many rows as the table. |
| SecureDatabase.SelectRowsFacts | secure_database.py:67-74 | The selection is an in-order sublist of the table, holding a row iff `start <= last_time`, and `last_time <= end` when an end is given. |
| SecureDatabase.DecodeDevice | secure_database.py:80-85 | An absent or empty blob, or a blob that raises `JSONDecodeError`, gives `None`. Otherwise the result is the decoded value. |
| SecureDatabase.KeptRows | secure_database.py:93-95 | The rows the outer `except Exception: continue` does not skip, as a subsequence of the rows: exactly those whose non-empty blob does not raise an exception other than a decode error. |
| SecureDatabase.Records | secure_database.py:76-97 | At most one record per selected row. |
| SecureDatabase.RecordsAt | secure_database.py:76-97 | There is exactly one record per row that is not skipped, and the k-th record is the decoding of the k-th such row. A row whose JSON raises `JSONDecodeError` is kept, with null device data. |
| SecureDatabase.NoSkipRecordPerRow | secure_database.py:76-97 | When no row's blob raises an uncaught exception, there is one record per row, in row order. |
| SecureDatabase.RecordsStep | secure_database.py:77-95 | From row `i` on, the records are row `i`'s record, unless the row is skipped, followed by the records of the remaining rows. |
| SecureDatabase.DecodeRow | secure_database.py:78-95 | Skips the row (`None`) iff `json.loads` raises an exception the inner handler does not catch. Otherwise builds the record of the row. |
| SecureDatabase.DecodeRows | secure_database.py:76-97 | The loop builds the record list, skipping rows as the outer handler does. |
| SecureDatabase.GetDevicesByTimeRange | secure_database.py:56-97 | Raises iff the database is unreachable. Otherwise returns the records of the selected rows that are not skipped. |
| SecureDatabase.DevicesInRange | secure_database.py:67-97 | Every returned record is the record of an in-range row that is not skipped, and every such row's record is returned. |
| SecureDatabase.Macs | secure_database.py:102 | The MAC list is no longer than the record list. |
| SecureDatabase.MacsMembers | secure_database.py:102 | A MAC is listed iff it is non-empty and belongs to some record. Absent and empty MACs are dropped. The listed MACs keep the order of the records. |
| SecureDatabase.GetMacAddressesByTimeRange | secure_database.py:99-102 | Raises iff the database is unreachable. |
| SecureDatabase.MacAddressesInRange | secure_database.py:99-102 | Every returned MAC is non-empty and belongs to an in-range row. |
| SecureDatabase.ProbeOf | secure_database.py:115-137 | A device yields a probe only if its data is a dictionary. The probe carries the device's MAC, a non-empty SSID and the device's `last_time`. |
| SecureDatabase.Probes | secure_database.py:113-142 | At most one probe per device. |
| SecureDatabase.ProbesMembers | secure_database.py:113-142 | A probe is emitted iff some device yields it. The probes keep the order of the devices. |
| SecureDatabase.DeviceProbe | secure_database.py:115-140 | Extracts one device's probe, skipping missing or non-dictionary levels. |
| SecureDatabase.ExtractProbes | secure_database.py:113-142 | The loop emits exactly the probes, in device order, each with a non-empty SSID. |
| SecureDatabase.GetProbeRequestsByTimeRange | secure_database.py:104-142 | Raises iff the database is unreachable. Otherwise returns the probes of the selected devices. |
| SecureDatabase.ProbesInRange | secure_database.py:104-142 | Every returned probe has a non-empty SSID and a timestamp in the range. |
| SecureDatabase.ConfiguredWindows | secure_database.py:160-167 | A configured `time_windows` replaces the 5/10/15/20 defaults entirely. The defaults apply only when it is absent, and a non-dictionary `timing` raises. |
| SecureDatabase.WindowBoundary | secure_database.py:175-176 | A whole number of minutes gives exactly `now - 60 * minutes`. |
| SecureDatabase.TimeKeyInjective | secure_database.py:176 | Different window names give different `<name>_time` keys. |
| SecureDatabase.NamedAdd | secure_database.py:174-176 | One more window adds its boundary under its own key. |
| SecureDatabase.TimeBoundaries | secure_database.py:169-182 | Raises iff the windows are not a dictionary of numbers. |
| SecureDatabase.BoundaryKeys | secure_database.py:173-180 | The keys are one `<name>_time` per window, plus `current_time`. |
| SecureDatabase.BoundaryAt | secure_database.py:174-180 | `current_time` is always `now - 120` and overrides a window named `current`. Every other window's key maps to its boundary. |
| SecureDatabase.GetTimeBoundaries | secure_database.py:169-182 | The loop computes the boundary map. |
| SecureDatabase.DefaultBoundaryKeys | secure_database.py:162-182 | The default windows give exactly the five keys `recent_time` to `oldest_time` and `current_time`. |
| SecureDatabase.DefaultBoundariesOrdered | secure_database.py:162-182 | With the defaults, `now > current_time > recent_time > medium_time > old_time > oldest_time`. |
| SecureDatabase.KeptDevices | secure_database.py:192-195 | The kept list is no longer than the input. |
| SecureDatabase.KeptDevicesFacts | secure_database.py:192-195 | The kept list is an in-order sublist holding exactly the string entries whose uppercase is not ignored. |
| SecureDatabase.FilterDevicesByIgnoreList | secure_database.py:184-197 | An empty ignore list returns the input unchanged. Otherwise the kept entries are returned in their original case. |
| SecureDatabase.FilterDevicesFacts | secure_database.py:184-197 | An entry is kept iff it is a string that differs, case-insensitively, from every ignored MAC. |
| SecureDatabase.KeptSsids | secure_database.py:206-210 | The kept list is no longer than the input. |
| SecureDatabase.KeptSsidsFacts | secure_database.py:206-210 | An in-order sublist of exactly the string entries not in the ignore set. |
| SecureDatabase.FilterSsidsByIgnoreList | secure_database.py:199-211 | An empty ignore list returns the input unchanged. Otherwise the entries are matched exactly, with case. |
| SecureDatabase.SsidFilterIsCaseSensitive | secure_database.py:190-208 | `home` survives an ignore list holding `HOME`, while `aa:bb` is dropped by one holding `AA:BB`. |
| InputValidation.ValidMacExactly | input_validation.py:27-33 | A MAC is valid iff it is six hex pairs with five separators. The length cap removes the trailing-newline case that `$` would admit, so every valid MAC has length 17. |
| InputValidation.MixedSeparatorsAccepted | input_validation.py:17 | Each separator is checked on its own, so `AA:BB-CC:DD-EE:FF` is valid. |
| InputValidation.UpperKeepsMacValid | input_validation.py:17 | The uppercase image of a valid MAC is valid. |
| InputValidation.Utf8Length | input_validation.py:40 | One character takes 1 to 4 UTF-8 octets. |
| InputValidation.Utf8LengthOf | input_validation.py:40 | A string takes at least one octet per character. |
| InputValidation.Utf8LengthOfRepeat | input_validation.py:40 | `n` copies of a character take `n` times its octet count. |
| InputValidation.SsidLimitCountsCharacters | input_validation.py:40 | The cap counts characters, not octets: an SSID of 32 `é` (64 octets) is valid, though section 9.4.2.2 of IEEE 802.11-2016 allows 32 octets. |
| InputValidation.TraversalPathsRejected | input_validation.py:60-62 | Any path containing `..` or `~` is invalid. |
| InputValidation.PathCheckIsDenyList | input_validation.py:52-69 | The path check is a deny-list and never uses `PATH_PATTERN`: a path with a space and `*` is valid. |
| InputValidation.ValidFilenameAdmitsNewline | input_validation.py:72-83 | As written, `report.txt` followed by a newline passes the file-name check. |
| InputValidation.StrictFilenameHasOnlyClassChars | input_validation.py:72-83 | The corrected check admits no newline and no `/`, and implies the check as written. |
| InputValidation.DropControls | input_validation.py:97 | A subsequence of its input with no control character other than tab, newline and carriage return. |
| InputValidation.RemoveChars | input_validation.py:100-101 | A subsequence of its input containing none of the removed characters. |
| InputValidation.StripKeywords | input_validation.py:104-109 | Deleting keywords yields a subsequence of the input. |
| InputValidation.SanitizeTextProperties | input_validation.py:86-111 | The sanitised text is a subsequence of the input, at most `max_length` long (when that is non-negative), with no dangerous character and no bad control character. |
| InputValidation.MixedCaseKeywordSurvives | input_validation.py:108-109 | Only the all-upper and all-lower spellings are deleted, so `SeLeCt` survives. |
| InputValidation.RemoveDangerousChars | input_validation.py:100-101 | The loop over the dangerous characters deletes each of them. |
| InputValidation.RemoveSqlKeywords | input_validation.py:104-109 | The keyword loop, which tests against the uppercase text computed before any deletion, computes the keyword-stripping function. |
| InputValidation.SanitizeString | input_validation.py:86-111 | A non-string gives `''`. Otherwise the result is the sanitised text: a subsequence of the input, at most `max_length` long, with no dangerous character. |
| InputValidation.ValidConfigStructureIff | input_validation.py:114-159 | Valid iff `paths` and `timing` are dictionaries, `log_dir`, `kismet_logs` and `ignore_lists` are present with each string value a valid path, and any present `check_interval` or `list_update_interval` is a number above 0. |
| InputValidation.BooleanIntervalAccepted | input_validation.py:155 | A Python `bool` is an `int`, so `True` passes as an interval and `False` does not. |
| InputValidation.PassingStrings | input_validation.py:171-176 | The validated list is no longer than the input. |
| InputValidation.PassingStringsMembers | input_validation.py:169-176 | An entry is kept iff it is a string passing the MAC validator (list type `mac`) or the SSID validator (any other type). The kept entries keep their order in the list. |
| InputValidation.PassingStringsInOrder | input_validation.py:169-176 | The kept entries, as JSON strings, form a subsequence of the list. |
| InputValidation.PassingStringsStep | input_validation.py:171-176 | One more entry extends the validated list by itself exactly when it passes. |
| InputValidation.ScanIgnoreList | input_validation.py:171-176 | The loop keeps the passing entries in order. |
| InputValidation.ValidateIgnoreList | input_validation.py:162-177 | A non-list gives `[]`. Otherwise the result is the passing entries, each valid for its list type, forming a subsequence of the list. |
| SecureIgnoreLoader.CleanLine | secure_ignore_loader.py:117 | A cleaned line has no `#` and is a subsequence of the line. |
| SecureIgnoreLoader.CleanContent | secure_ignore_loader.py:117-118 | The joined text has no newline and no `#`. |
| SecureIgnoreLoader.CleanContentOneLine | secure_ignore_loader.py:117-118 | A one-line text is cut at its first `#` and stripped. |
| SecureIgnoreLoader.CleanLinesSingle | secure_ignore_loader.py:117 | A single line cleans to its own cleaned form. |
| SecureIgnoreLoader.SkipSpace | secure_ignore_loader.py:121 | The `\s*` scan stops at the end or at a non-space. |
| SecureIgnoreLoader.SkipSpaceSkipsSpace | secure_ignore_loader.py:121 | Everything skipped is whitespace. |
| SecureIgnoreLoader.MatchAt | secure_ignore_loader.py:121 | A match at a position lies after the name and within the text. |
| SecureIgnoreLoader.MatchAtShape | secure_ignore_loader.py:121 | A match starts with the variable name, and its group starts with `[` and ends at the first `]` after it (the lazy `.*?`). |
| SecureIgnoreLoader.FindAssignment | secure_ignore_loader.py:122 | `re.search` finds a position where the pattern matches. |
| SecureIgnoreLoader.FindAssignmentLeftmost | secure_ignore_loader.py:122 | No earlier position matches, and `None` means no position matches at all. |
| SecureIgnoreLoader.SearchGroupShape | secure_ignore_loader.py:121-127 | The group is a bracketed list with no inner `]`, made of characters of the text. |
| SecureIgnoreLoader.AssignedListAbsent | secure_ignore_loader.py:117-125 | There is no list text iff the pattern matches nowhere in the cleaned content. |
| SecureIgnoreLoader.AssignedListShape | secure_ignore_loader.py:117-127 | The list text is bracketed, with no inner `]`, and contains no newline and no `#`. |
| SecureIgnoreLoader.NoNameNoAssignment | secure_ignore_loader.py:121-125 | If the variable name never occurs, no assignment is found. |
| SecureIgnoreLoader.JsonText | secure_ignore_loader.py:132 | Every single quote becomes a double quote, and nothing else changes. |
| SecureIgnoreLoader.JsonTextKeepsBrackets | secure_ignore_loader.py:132 | Quote replacement keeps a bracketed text bracketed. |
| SecureIgnoreLoader.ParsePythonListFacts | secure_ignore_loader.py:111-135 | A missing assignment raises. Otherwise the result is the decoding of the quote-replaced list text, and any exception from `json.loads` raises. |
| SecureIgnoreLoader.Entries | secure_ignore_loader.py:44-45 | Entries are available iff loading succeeded with a list. |
| SecureIgnoreLoader.DispatchJson | secure_ignore_loader.py:41-45 | Bracketed text that decodes takes the JSON path. A list gives its items whatever the variable name, and a non-list raises. |
| SecureIgnoreLoader.DispatchAssignment | secure_ignore_loader.py:41-51 | Unbracketed text, or bracketed text that raises `JSONDecodeError`, is parsed as an assignment. For unbracketed text the decoding of the whole text plays no part. |
| SecureIgnoreLoader.DispatchOtherError | secure_ignore_loader.py:41-66 | Bracketed text on which `json.loads` raises any other exception is not parsed as an assignment, and the load fails. |
| SecureIgnoreLoader.ParsePythonListReadsList | secure_ignore_loader.py:129-135 | The assignment parser's result depends on the decoder only through its value on the captured list text. |
| SecureIgnoreLoader.AssignmentIgnoresWholeText | secure_ignore_loader.py:49-51 | For unbracketed text, the assignment parse never decodes the whole text, so changing `parse` only there leaves the result unchanged. |
| SecureIgnoreLoader.ListTextIsNotWhole | secure_ignore_loader.py:121-132 | For unbracketed text, the quote-replaced list text differs from the whole text. |
| SecureIgnoreLoader.Uppers | secure_ignore_loader.py:57 | Uppercasing keeps the length. |
| SecureIgnoreLoader.UppersAt | secure_ignore_loader.py:57 | Entry k of the result is the uppercase of entry k of the input. |
| SecureIgnoreLoader.UppersAppend | secure_ignore_loader.py:54-57 | Uppercasing distributes over concatenation, so the loop can append one MAC at a time. |
| SecureIgnoreLoader.UppersOfValidMacs | secure_ignore_loader.py:56-57 | The uppercase images of valid MACs are valid and uppercase. |
| SecureIgnoreLoader.LoadFailuresGiveNothing | secure_ignore_loader.py:32-66 | A missing or unreadable file, or content that fails to parse, loads as `[]`. |
| SecureIgnoreLoader.PassingStringsValid | secure_ignore_loader.py:56 | Every kept entry is valid for its list type. |
| SecureIgnoreLoader.LoadedListsNormalised | secure_ignore_loader.py:53-101 | Every loaded MAC is valid and uppercase, and every loaded SSID is valid. |
| SecureIgnoreLoader.ValidatedMacs | secure_ignore_loader.py:54-59 | The loop keeps the valid string entries in order, uppercased. |
| SecureIgnoreLoader.ValidatedSsids | secure_ignore_loader.py:96-101 | The loop keeps the valid string SSIDs in order, without case folding. |
| SecureIgnoreLoader.LoadMacList | secure_ignore_loader.py:27-66 | Returns the loaded MAC list, every member valid and uppercase. It is the uppercase images of the valid string entries of the file's list, in the file's order, and holds exactly those images. |
| SecureIgnoreLoader.LoadSsidList | secure_ignore_loader.py:69-108 | Returns the loaded SSID list, every member valid. It holds exactly the valid string entries of the file's list, in the file's order. |
| SecureIgnoreLoader.ListRead | secure_ignore_loader.py:32-48 | The entries a load validates: none for a missing file, the parsed list when reading succeeds. |
| SecureIgnoreLoader.UppersMembers | secure_ignore_loader.py:57 | The upper-cased list holds exactly the upper-case images of the input's members. |
| SecureIgnoreLoader.LoadedMacsFacts | secure_ignore_loader.py:27-66 | The loaded MAC list is the upper-cased valid entries in file order, with a membership iff against the file's entries. |
| SecureIgnoreLoader.LoadedSsidsFacts | secure_ignore_loader.py:69-108 | The loaded SSID list is a subsequence of the file's entries, holding exactly the valid string entries. |
| SecureIgnoreLoader.ValidMacs | secure_ignore_loader.py:141 | The valid MACs of the input, as a subsequence of it, holding exactly the valid members. |
| SecureIgnoreLoader.SaveMacList | secure_ignore_loader.py:141 | The saved list is the uppercase images of the valid input MACs, in input order. It holds exactly those images, each valid and uppercase. |
| SecureIgnoreLoader.SaveSsidList | secure_ignore_loader.py:152 | An in-order sublist of exactly the valid SSIDs. |
| SecureIgnoreLoader.SaveMacListKeepsNormalised | secure_ignore_loader.py:141 | A list of valid uppercase MACs is saved unchanged. |
| SecureIgnoreLoader.SaveMacListIdempotent | secure_ignore_loader.py:141 | Saving the saved MAC list changes nothing. |
| SecureIgnoreLoader.SaveSsidListKeepsValid | secure_ignore_loader.py:152 | A list of valid SSIDs is saved unchanged. |
| SecureIgnoreLoader.SaveSsidListIdempotent | secure_ignore_loader.py:152 | Saving the saved SSID list changes nothing. |
| SecureIgnoreLoader.LoadedListsAreSaveFixpoints | secure_ignore_loader.py:53-101 | Saving a loaded list gives back the same list. |
| ProbeAnalyzer.ProbeAt | probe_analyzer.py:25 | A probe match at a position ends at a newline inside the text. |
| ProbeAnalyzer.ProbeAtShape | probe_analyzer.py:25 | A match starts with `Found a probe!: `. Its group is the text up to the first newline after the marker, and holds no newline (the lazy `.*?` with `\n`). |
| ProbeAnalyzer.NextProbe | probe_analyzer.py:38 | The next match starts at or after the scan position. |
| ProbeAnalyzer.NextProbeIsMatch | probe_analyzer.py:38 | The next match is a match at its own start. |
| ProbeAnalyzer.NextProbeLeftmost | probe_analyzer.py:38 | The next match starts at or before any later match position. |
| ProbeAnalyzer.ProbeMatchesSound | probe_analyzer.py:38 | Every match `finditer` yields is a real match. |
| ProbeAnalyzer.ProbeMatchesOrdered | probe_analyzer.py:38 | The matches do not overlap and come in text order. |
| ProbeAnalyzer.ProbeMatchesComplete | probe_analyzer.py:38 | Every position where a match could start is covered by some yielded match. |
| ProbeAnalyzer.StampsDoNotOverlap | probe_analyzer.py:27 | Two `Current Time:` matches never overlap. |
| ProbeAnalyzer.StampStartsWithC | probe_analyzer.py:27 | A `Current Time:` match begins with `C`. |
| ProbeAnalyzer.NoCInsideStamp | probe_analyzer.py:27 | No `C` occurs inside a match after its first character, which is why matches cannot overlap. |
| ProbeAnalyzer.LastStampBelow | probe_analyzer.py:41-44 | The last stamp start below a bound lies below it. |
| ProbeAnalyzer.LastStampBelowFacts | probe_analyzer.py:41-44 | That start is a stamp, and no later start below the bound is one. `None` means there is no stamp. |
| ProbeAnalyzer.PrecedingStampAt | probe_analyzer.py:41-44 | The chosen stamp ends before the probe starts. |
| ProbeAnalyzer.PrecedingStampIsLast | probe_analyzer.py:41-44 | It is the last stamp lying wholly before the probe's start, and `None` means there is none. |
| ProbeAnalyzer.PrecedingStampShape | probe_analyzer.py:27 | The attached stamp has the `YYYY-MM-DD HH:MM:SS` digit layout. |
| ProbeAnalyzer.FormatStamp | probe_analyzer.py:54 | Six date digits and six time digits give `d[:2]-d[2:4]-d[4:] t[:2]:t[2:4]:t[4:]`. |
| ProbeAnalyzer.FilenameStampExists | probe_analyzer.py:52-53 | A fallback stamp exists iff the file name has at least three `_`, that is, at least four pieces. |
| ProbeAnalyzer.FilenameStampLayout | probe_analyzer.py:50-54 | For a name `p_q_d_t`, pieces 3 and 4 give the stamp. |
| ProbeAnalyzer.ObservationAt | probe_analyzer.py:39-57 | An observation records the stripped group. A usable file name guarantees one. |
| ProbeAnalyzer.Observations | probe_analyzer.py:38-57 | At most one observation per match. |
| ProbeAnalyzer.ObservationsStep | probe_analyzer.py:38-57 | One more match adds its observation when it has one. |
| ProbeAnalyzer.ObserveMatch | probe_analyzer.py:39-57 | Computes one match's observation. |
| ProbeAnalyzer.EveryMatchObserved | probe_analyzer.py:38-57 | With a usable file name, every match gives exactly one observation, with the stripped group as SSID. |
| ProbeAnalyzer.RecordStep | probe_analyzer.py:45-47 | Recording one more observation appends its stamp to its SSID, which joins the key order if new. |
| ProbeAnalyzer.StampsFor | probe_analyzer.py:45-57 | The stamps for one SSID are no more than the observations. |
| ProbeAnalyzer.RecordAllLookup | probe_analyzer.py:38-57 | Each SSID's timestamps grow by exactly its observed stamps, in scan order. A key exists iff it existed before or was observed. |
| ProbeAnalyzer.RecordAllValid | probe_analyzer.py:45-57 | The index stays consistent (keys match the order, no duplicates, no empty lists), and the key order only grows. |
| ProbeAnalyzer.Analyzer.constructor | probe_analyzer.py:20 | Starts with an empty index. |
| ProbeAnalyzer.Analyzer.Record | probe_analyzer.py:45-47 | Appends one stamp to an SSID's list. A new SSID joins the key order at the end. |
| ProbeAnalyzer.Analyzer.RecordMatches | probe_analyzer.py:38-57 | The loop records every observation of the matches, in order. |
| ProbeAnalyzer.Analyzer.ParseLogFile | probe_analyzer.py:23-57 | Records the observations of the whole file, keeping the index consistent. |
| ProbeAnalyzer.SummaryOf | probe_analyzer.py:110-116 | The count is the number of stamps. First and last seen are stamps, and are the lexicographic minimum and maximum. |
| ProbeAnalyzer.Analyzer.AnalyzeProbes | probe_analyzer.py:103-118 | One summary per SSID in key order, with its count and its lexicographic first and last stamps. |
| ProbeAnalyzer.SortByCount | probe_analyzer.py:171 | A stable permutation of the results, non-increasing in count. |
| SurveillanceAnalyzer.StalkingScore | surveillance_analyzer.py:283-298 | The score lies in [0, 1], is 0 iff no condition holds, and reaches 0.6 iff at least two of the three conditions hold. |
| SurveillanceAnalyzer.StalkingReasons | surveillance_analyzer.py:284-296 | One reason per satisfied condition, in the order locations, frequency, duration. |
| SurveillanceAnalyzer.StalkingIndicators | surveillance_analyzer.py:280-296 | Computes the score and reasons of one device. |
| SurveillanceAnalyzer.StalkingCandidates | surveillance_analyzer.py:269-303 | At most one candidate per device. |
| SurveillanceAnalyzer.StalkingCandidatesFacts | surveillance_analyzer.py:269-303 | The candidates form an in-order subsequence of the input. Each meets the persistence threshold and the 0.6 score, and carries its score and reasons. Every qualifying device is a candidate. |
| SurveillanceAnalyzer.StalkingCandidatesStep | surveillance_analyzer.py:270-301 | One more device adds its candidate when it qualifies. |
| SurveillanceAnalyzer.SubseqKeepsScoreOrder | surveillance_analyzer.py:266-303 | A subsequence of a score-sorted list is score-sorted. |
| SurveillanceAnalyzer.CandidateOf | surveillance_analyzer.py:271-301 | Computes one device's candidate, or `None`. |
| SurveillanceAnalyzer.FilterStalkingCandidates | surveillance_analyzer.py:269-301 | The loop computes the candidate list. |
| SurveillanceAnalyzer.AnalyzeForStalking | surveillance_analyzer.py:264-303 | The candidates of the detector's ranked output. |
| SurveillanceAnalyzer.RankedDevices | surveillance_analyzer.py:266 | The detector output is score-sorted and holds exactly the flagged devices' records. |
| SurveillanceAnalyzer.StalkingCandidatesOfLedger | surveillance_analyzer.py:264-303 | Candidates come out in non-increasing persistence score. Each is a flagged device of the ledger, and every flagged, qualifying device is among them. |
| SurveillanceAnalyzer.LocationName | surveillance_analyzer.py:148 | `Location_` followed by the decimal counter. |
| SurveillanceAnalyzer.LocationNameInjective | surveillance_analyzer.py:148 | Different counters give different names. |
| SurveillanceAnalyzer.Thinned | surveillance_analyzer.py:136-154 | No more kept points than readings. |
| SurveillanceAnalyzer.ThinnedNames | surveillance_analyzer.py:138-154 | The first reading is always kept as `Location_1`, and the kept points are named `Location_1`, `Location_2`, ... consecutively. |
| SurveillanceAnalyzer.ThinnedSeparated | surveillance_analyzer.py:142-146 | When the previous kept point has non-zero latitude and longitude, the next kept point is at least 50 from it. |
| SurveillanceAnalyzer.ThinnedFromRows | surveillance_analyzer.py:140-151 | Every kept point is the position of some reading. |
| SurveillanceAnalyzer.ThinnedStep | surveillance_analyzer.py:140-154 | One more reading is skipped only when it is too close to the last kept point, and is otherwise kept with the next name. |
| SurveillanceAnalyzer.AllFarApartAllKept | surveillance_analyzer.py:140-154 | If every pair of points is at least 50 apart, every reading is kept, in order. |
| SurveillanceAnalyzer.ThinSorted | surveillance_analyzer.py:136-154 | The loop computes the thinned list. |
| SurveillanceAnalyzer.ThinGpsFixes | surveillance_analyzer.py:132-155 | Sorts the readings by time, then thins them. |
| SurveillanceAnalyzer.ThinGpsFixesFacts | surveillance_analyzer.py:132-154 | For non-empty input, at least one point is kept. The first is the earliest reading, named `Location_1`, and all names differ. |
| SurveillanceAnalyzer.ThinnedNamesDistinct | surveillance_analyzer.py:148-154 | No two kept points share a name. |

## Left out

- Distances: the haversine `_calculate_distance` (gps_tracker.py:126-143) and the planar `sqrt * 111000` distance (surveillance_analyzer.py:144). Both are floating-point trigonometry, so they are function parameters.
- The clock: `time.time()` and `datetime.now()` become the integer parameters `now` and `stamp`.
- Time zones: `time.mktime`, `datetime.fromtimestamp` and sub-second timestamps are left out. Timestamps are whole seconds.
- Temporal analysis: `_analyze_temporal_patterns`, the temporal-clustering and off-hours statistics, and `_add_temporal_analysis_tracks` depend on local time and float variance. The statistics record leaves out `temporal_clustering` and `off_hours_rate`.
- Floating point: scores and rates are exact reals, so `min(rate / 2.0, 1.0)` and the `0.4 + 0.3 + 0.3` sums carry no rounding.
- Report rendering: report, markdown, HTML, KML and pandoc output, the `:.1f` and `:.4f` formatting, and every log, print and logger call. Reasons and alerts are datatypes, not formatted text.
- GpsTracker.BaseName: the coordinate name `loc_{lat:.4f}_{lon:.4f}` is a given string parameter, because it is float formatting.
- SQLite and Kismet: the connection, `execute_safe_query`, `validate_connection`, `load_appearances_from_kismet` and `_load_appearances_with_gps` are I/O. Rows are abstract values, and the fixed SQL `WHERE` is modelled as `SelectRows`.
- Thinning setup: the database globbing, the GPS query and its de-duplication in `analyze_kismet_data`, and the `unknown_location` fallback are I/O. The call to `add_gps_reading` inside the thinning loop is left out too; the loop is modelled for its output list.
- `json.loads` is the abstract parameter `parse`. The model treats a non-list result for bracketed assignment text as a failure; `json.loads` never returns one. Exceptions other than `JSONDecodeError` are one outcome, `OtherError`, because every handler in the core that catches them catches all of them alike.
- `validate_json_input`, `validate_database_path` and `safe_load_ignore_list` (input_validation.py:180-300) parse JSON text and touch the file system.
- `load_ignore_lists` (secure_ignore_loader.py:160-175) reads the configuration and the file system. The file itself is the `FileState` parameter.
- The file writes and JSON encoding of `save_mac_list` and `save_ssid_list` are left out; only the saved list is modelled.
- `ProbeAnalyzer.query_wigle` (HTTP), `parse_all_logs` (directory glob) and `main` are left out, except for its sort by count. `wigle_data` is always `None`.
- Credentials, the GUI, the demo and the scripts (`secure_credentials.py`, `migrate_credentials.py`, `cyt_gui.py`, `blackhat_demo.py`, `chasing_your_tail.py`, `create_ignore_list.py`) are not part of this model.
- `_log_initialization_stats` and `_log_rotation_stats` only print.
- Python `str.upper` and `str.lower` are modelled on ASCII letters only. They are exact for MAC addresses and approximate for other text. For example, Python lower-cases KELVIN SIGN (U+212A) to `k`, so an SSID such as `trac\u212A` (ending in KELVIN SIGN) contains the pattern `track` in Python but not in the model (`SurveillanceDetector.SuspiciousName` uses `Lower` for that test).
- Regular expressions are modelled as hand-written scans. `\d` matches ASCII digits only, while Python's `\d` also matches other Unicode digits.
- GpsTracker.MultiLocationDevices: the result is a Dafny map, so the insertion order of the returned dictionary's keys is not modelled. Each value list's order is (`GpsTracker.ReportedIds`).
- The `locations_seen` field: `locations_seen` is `list(set(...))`, whose order Python leaves unspecified, so it is a set.
- SurveillanceDetector.Detector.AnalyzeSurveillancePatterns: equal scores keep their key order. Python's `dict` insertion order is modelled by the explicit key sequence `historyOrder`.
- SurveillanceAnalyzer.AnalyzeForStalking: Python sets `stalking_score` and `stalking_reasons` on the device objects themselves. The model returns a wrapper value per candidate, so the aliasing of the detector's device objects is not modelled.
- SecureMainLogic.Connection: all queries of one method call read the same rows. Rows that Kismet writes between two queries of one call are not modelled.
- SecureMainLogic.Monitor.InitializeTrackingLists: a failure while computing the boundaries raises before any bucket changes. A failing query raises part-way through. Both are one `raised` flag rather than an exception.
- GpsTracker.Tracker.AddDeviceAtCurrentLocation: the current session is held by index rather than by object reference. Because Python's `current_location` aliases an element of `location_sessions`, updating through that index is the same change.
- SecureDatabase.WindowBoundary: a fractional number of minutes is truncated to whole seconds by `mktime`. The model states the exact boundary only for whole minutes.
- SecureMainLogic.Monitor.ProcessCurrentActivity: an exception raised inside the per-device loop is assumed impossible over the modelled values. The code catches the exceptions of `_process_probe_requests` locally, and the model rules out the others by construction.

## Findings

| source | as written | input that shows it | evidently intended | confidence | as-written member | corrected member |
|---|---|---|---|---|---|---|
| input_validation.py:20 | `FILENAME_PATTERN` ends in `$` and is used with `re.match`, so a name followed by one newline passes `validate_filename`. | `"report.txt\n"` | A name is made only of `[A-Za-z0-9._-]` (for example, `re.fullmatch`, or `\Z` instead of `$`). | not executed | InputValidation.ValidFilenameAdmitsNewline | InputValidation.StrictFilenameHasOnlyClassChars |
