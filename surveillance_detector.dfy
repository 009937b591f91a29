/**
  `SurveillanceDetector` (surveillance_detector.py): an append-only ledger of device
  appearances with a per-MAC history, the persistence scorer, the flag-and-rank pass,
  the count-based analysis statistics and the quick-follower count.

  Timestamps are whole seconds; hours, rates and scores are reals. Reasons are a
  datatype instead of formatted text.
*/
module SurveillanceDetector {
  import opened Wrappers
  import opened PyStr
  import opened Sorting

  const MinAppearances: nat := 3
  /** Configured like the other thresholds, but the scorer compares against a literal 1.0. */
  const MinTimeSpanHours: real := 1.0
  const MinPersistenceScore: real := 0.5
  const DetectionAccuracy: real := 0.95
  const QuickFollowSeconds: int := 1800
  const SuspiciousPatterns: seq<string> := ["surveillance", "monitor", "track", "spy", "watch", "police", "fbi"]

  datatype DeviceAppearance = DeviceAppearance(
    mac: string,
    timestamp: int,
    locationId: string,
    ssidsProbed: seq<string>,
    signalStrength: Option<real>,
    deviceType: Option<string>)

  /** "Appeared N times over H hours" and "Followed across K different locations". */
  datatype Reason = Appeared(count: nat, hours: real) | Followed(locations: nat)

  datatype Scored = Scored(score: real, reasons: seq<Reason>)

  /** `locations_seen` is `list(set(...))`, whose order Python leaves unspecified: a set here. */
  datatype SuspiciousDevice = SuspiciousDevice(
    mac: string,
    persistenceScore: real,
    appearances: seq<DeviceAppearance>,
    reasons: seq<Reason>,
    firstSeen: int,
    lastSeen: int,
    totalAppearances: nat,
    locationsSeen: set<string>)

  function RMin(a: real, b: real): real
  {
    if a <= b then a else b
  }

  // ---------------------------------------------------------------------------
  // Aggregates over a list of appearances

  function MinTimestamp(apps: seq<DeviceAppearance>): (t: int)
    requires |apps| > 0
    ensures exists i :: 0 <= i < |apps| && apps[i].timestamp == t
    ensures forall i :: 0 <= i < |apps| ==> t <= apps[i].timestamp
  {
    if |apps| == 1 then apps[0].timestamp
    else
      var m := MinTimestamp(apps[1..]);
      if apps[0].timestamp <= m then apps[0].timestamp else m
  }

  function MaxTimestamp(apps: seq<DeviceAppearance>): (t: int)
    requires |apps| > 0
    ensures exists i :: 0 <= i < |apps| && apps[i].timestamp == t
    ensures forall i :: 0 <= i < |apps| ==> apps[i].timestamp <= t
  {
    if |apps| == 1 then apps[0].timestamp
    else
      var m := MaxTimestamp(apps[1..]);
      if apps[0].timestamp >= m then apps[0].timestamp else m
  }

  /** `set(a.location_id for a in appearances)`. */
  function Locations(apps: seq<DeviceAppearance>): set<string>
  {
    set a | a in apps :: a.locationId
  }

  /** `(max(timestamps) - min(timestamps)) / 3600`. */
  function SpanHours(apps: seq<DeviceAppearance>): (h: real)
    requires |apps| > 0
    ensures h >= 0.0
  {
    (MaxTimestamp(apps) - MinTimestamp(apps)) as real / 3600.0
  }

  /** Division by a positive span, restated without division. */
  lemma RateFacts(n: real, h: real)
    requires h > 0.0
    ensures n / h >= 0.5 <==> n >= 0.5 * h
    ensures n / h > 1.0 <==> n > h
  {
    assert (n / h) * h == n;
    if n / h >= 0.5 {
      assert (n / h) * h >= 0.5 * h;
    }
    if n >= 0.5 * h {
      assert (n / h) * h >= 0.5 * h;
    }
    if n / h > 1.0 {
      assert (n / h) * h > 1.0 * h;
    }
    if n > h {
      assert (n / h) * h > 1.0 * h;
    }
  }

  lemma MinPermutation(a: seq<DeviceAppearance>, b: seq<DeviceAppearance>)
    requires |a| > 0 && |b| > 0
    requires forall x :: x in a <==> x in b
    ensures MinTimestamp(a) == MinTimestamp(b)
  {
    var i :| 0 <= i < |a| && a[i].timestamp == MinTimestamp(a);
    var j :| 0 <= j < |b| && b[j].timestamp == MinTimestamp(b);
    assert a[i] in b && b[j] in a;
  }

  lemma MaxPermutation(a: seq<DeviceAppearance>, b: seq<DeviceAppearance>)
    requires |a| > 0 && |b| > 0
    requires forall x :: x in a <==> x in b
    ensures MaxTimestamp(a) == MaxTimestamp(b)
  {
    var i :| 0 <= i < |a| && a[i].timestamp == MaxTimestamp(a);
    var j :| 0 <= j < |b| && b[j].timestamp == MaxTimestamp(b);
    assert a[i] in b && b[j] in a;
  }

  lemma MinMaxPermutation(a: seq<DeviceAppearance>, b: seq<DeviceAppearance>)
    requires |a| > 0 && multiset(a) == multiset(b)
    ensures |b| == |a|
    ensures MinTimestamp(a) == MinTimestamp(b) && MaxTimestamp(a) == MaxTimestamp(b)
    ensures Locations(a) == Locations(b)
  {
    assert |a| == |multiset(a)| == |multiset(b)| == |b|;
    forall x ensures x in a <==> x in b {
      assert x in a <==> x in multiset(a);
      assert x in b <==> x in multiset(b);
    }
    MinPermutation(a, b);
    MaxPermutation(a, b);
  }

  // ---------------------------------------------------------------------------
  // The persistence scorer

  /** `_calculate_persistence_score(appearances)`. The rate test `len/hours >= 0.5` is stated as `len >= 0.5 * hours`. */
  function PersistenceScore(apps: seq<DeviceAppearance>): (r: Scored)
    ensures |apps| < 3 ==> r == Scored(0.0, [])
    ensures |apps| >= 3 && SpanHours(apps) < 1.0 ==> r == Scored(0.0, [])
    ensures |apps| >= 3 && SpanHours(apps) >= 1.0 && (|apps| as real) < 0.5 * SpanHours(apps) ==> r == Scored(0.0, [])
    ensures r.score == 0.0 <==> r.reasons == []
    ensures r.reasons != [] ==>
      && 0.25 <= r.score <= 1.0
      && |apps| >= 3 && SpanHours(apps) >= 1.0 && (|apps| as real) >= 0.5 * SpanHours(apps)
      && r.reasons[0] == Appeared(|apps|, SpanHours(apps))
    ensures |r.reasons| <= 2
    ensures |r.reasons| == 2 <==> r.reasons != [] && |Locations(apps)| >= 2
    ensures |r.reasons| == 2 ==> r.reasons[1] == Followed(|Locations(apps)|)
  {
    if |apps| < 3 then Scored(0.0, [])
    else ScoreFrom(|apps|, SpanHours(apps), |Locations(apps)|)
  }

  /** The scoring steps after the length check, given the count, the span in hours and the number of locations. */
  function ScoreFrom(n: nat, hours: real, k: nat): (r: Scored)
    ensures hours < 1.0 ==> r == Scored(0.0, [])
    ensures hours >= 1.0 && (n as real) < 0.5 * hours ==> r == Scored(0.0, [])
    ensures r.score == 0.0 <==> r.reasons == []
    ensures r.reasons != [] ==>
      && 0.25 <= r.score <= 1.0
      && hours >= 1.0 && (n as real) >= 0.5 * hours
      && r.reasons[0] == Appeared(n, hours)
    ensures |r.reasons| <= 2
    ensures |r.reasons| == 2 <==> r.reasons != [] && k >= 2
    ensures |r.reasons| == 2 ==> r.reasons[1] == Followed(k)
  {
    if hours < 1.0 then Scored(0.0, [])
    else
      var rate := n as real / hours;
      RateFacts(n as real, hours);
      if rate >= 0.5 then
        var score := RMin(rate / 2.0, 1.0);
        if k > 1 then Scored(RMin(score + 0.3, 1.0), [Appeared(n, hours), Followed(k)])
        else Scored(score, [Appeared(n, hours)])
      else Scored(0.0, [])
  }

  /**
    The score's value: half the appearance rate, capped at 1.0, for one location; a second
    distinct location adds exactly 0.3 to that, again capped at 1.0. Whether a device is
    scored at all does not depend on its locations.
  */
  lemma LocationBonus(n: nat, hours: real, k: nat)
    ensures ScoreFrom(n, hours, k).reasons != [] <==> ScoreFrom(n, hours, 1).reasons != []
    ensures ScoreFrom(n, hours, 1).reasons != [] ==>
      hours >= 1.0 && ScoreFrom(n, hours, 1).score == RMin(n as real / hours / 2.0, 1.0)
    ensures k >= 2 && ScoreFrom(n, hours, k).reasons != [] ==>
      ScoreFrom(n, hours, k).score == RMin(ScoreFrom(n, hours, 1).score + 0.3, 1.0)
    ensures k <= 1 ==> ScoreFrom(n, hours, k) == ScoreFrom(n, hours, 1)
  {
  }

  /** The persistence score of a scored device, in terms of its count, span and locations. */
  lemma PersistenceScoreValue(apps: seq<DeviceAppearance>)
    ensures PersistenceScore(apps).reasons != [] ==>
      var base := RMin(|apps| as real / SpanHours(apps) / 2.0, 1.0);
      && SpanHours(apps) >= 1.0
      && PersistenceScore(apps).score == if |Locations(apps)| >= 2 then RMin(base + 0.3, 1.0) else base
  {
    if |apps| >= 3 {
      LocationBonus(|apps|, SpanHours(apps), |Locations(apps)|);
    }
  }

  /** The score depends only on the multiset of appearances, not on their order. */
  lemma PersistenceScorePermutation(a: seq<DeviceAppearance>, b: seq<DeviceAppearance>)
    requires multiset(a) == multiset(b)
    ensures PersistenceScore(a) == PersistenceScore(b)
  {
    assert |a| == |multiset(a)| == |multiset(b)| == |b|;
    if |a| > 0 {
      MinMaxPermutation(a, b);
      assert SpanHours(a) == SpanHours(b);
    }
  }

  /**
    When a device is flagged. With one location the score is `min(rate/2, 1)`, which must
    exceed 0.5, so more than one appearance per hour is needed; with several locations the
    0.3 bonus lifts every scored device above 0.5.
  */
  lemma FlaggingRule(apps: seq<DeviceAppearance>)
    requires |apps| >= 3 && SpanHours(apps) >= 1.0
    ensures |Locations(apps)| > 1 ==>
      (PersistenceScore(apps).score > MinPersistenceScore <==> (|apps| as real) >= 0.5 * SpanHours(apps))
    ensures |Locations(apps)| <= 1 ==>
      (PersistenceScore(apps).score > MinPersistenceScore <==> (|apps| as real) > SpanHours(apps))
  {
    RateFacts(|apps| as real, SpanHours(apps));
  }

  // ---------------------------------------------------------------------------
  // The ledger as a function of the appearance list

  /** The appearances of `mac`, in ledger order. */
  function ForMac(apps: seq<DeviceAppearance>, mac: string): (r: seq<DeviceAppearance>)
    ensures |r| <= |apps|
    ensures forall a :: a in r <==> a in apps && a.mac == mac
  {
    if apps == [] then []
    else
      var prev := ForMac(apps[..|apps| - 1], mac);
      var last := apps[|apps| - 1];
      assert apps == apps[..|apps| - 1] + [last];
      if last.mac == mac then prev + [last] else prev
  }

  /** The MACs in order of first appearance: the key order of `device_history`. */
  function MacsInOrder(apps: seq<DeviceAppearance>): (r: seq<string>)
    ensures Distinct(r)
    ensures forall m :: m in r <==> exists a :: a in apps && a.mac == m
  {
    if apps == [] then []
    else
      var prev := MacsInOrder(apps[..|apps| - 1]);
      var last := apps[|apps| - 1];
      assert apps == apps[..|apps| - 1] + [last];
      if last.mac in prev then prev else prev + [last.mac]
  }

  /** The record `analyze_surveillance_patterns` builds for a device. */
  function Suspicious(mac: string, apps: seq<DeviceAppearance>): SuspiciousDevice
    requires |apps| > 0
  {
    var s := PersistenceScore(apps);
    SuspiciousDevice(mac, s.score, apps, s.reasons, MinTimestamp(apps), MaxTimestamp(apps), |apps|, Locations(apps))
  }

  /** The two filters of `analyze_surveillance_patterns`. */
  predicate IsFlagged(apps: seq<DeviceAppearance>)
  {
    |apps| >= MinAppearances && PersistenceScore(apps).score > MinPersistenceScore
  }

  function MacsOf(ds: seq<SuspiciousDevice>): seq<string>
  {
    seq(|ds|, i requires 0 <= i < |ds| => ds[i].mac)
  }

  /** The flagged devices, in history order, before sorting. */
  function Flagged(order: seq<string>, hist: map<string, seq<DeviceAppearance>>): (r: seq<SuspiciousDevice>)
    requires forall m :: m in order ==> m in hist
    ensures |r| <= |order|
  {
    if order == [] then []
    else
      var init := order[..|order| - 1];
      var m := order[|order| - 1];
      var prev := Flagged(init, hist);
      if IsFlagged(hist[m]) then prev + [Suspicious(m, hist[m])] else prev
  }

  /**
    The flagged list names each MAC of `order` whose history passes both filters, with the
    record built from that history, and no MAC twice when `order` has none twice.
  */
  lemma {:induction false} FlaggedFacts(order: seq<string>, hist: map<string, seq<DeviceAppearance>>)
    requires forall m :: m in order ==> m in hist
    ensures forall m :: m in MacsOf(Flagged(order, hist)) <==> m in order && IsFlagged(hist[m])
    ensures forall i :: 0 <= i < |Flagged(order, hist)| ==>
      Flagged(order, hist)[i].mac in hist && IsFlagged(hist[Flagged(order, hist)[i].mac])
      && Flagged(order, hist)[i] == Suspicious(Flagged(order, hist)[i].mac, hist[Flagged(order, hist)[i].mac])
    ensures Distinct(order) ==> Distinct(MacsOf(Flagged(order, hist)))
  {
    if order != [] {
      var init := order[..|order| - 1];
      var m := order[|order| - 1];
      assert order == init + [m];
      FlaggedFacts(init, hist);
      var prev := Flagged(init, hist);
      var r := Flagged(order, hist);
      if IsFlagged(hist[m]) {
        assert r == prev + [Suspicious(m, hist[m])];
        assert MacsOf(r) == MacsOf(prev) + [m];
        assert forall i :: 0 <= i < |prev| ==> r[i] == prev[i];
        assert Distinct(order) ==> m !in init;
        assert Distinct(order) ==> Distinct(init) by {
          if Distinct(order) {
            forall i, j | 0 <= i < j < |init| ensures init[i] != init[j] {
              assert init[i] == order[i] && init[j] == order[j];
            }
          }
        }
      } else {
        assert r == prev;
        assert Distinct(order) ==> Distinct(init) by {
          if Distinct(order) {
            forall i, j | 0 <= i < j < |init| ensures init[i] != init[j] {
              assert init[i] == order[i] && init[j] == order[j];
            }
          }
        }
      }
    }
  }

  lemma FlaggedStep(order: seq<string>, hist: map<string, seq<DeviceAppearance>>, i: nat)
    requires i < |order| && forall m :: m in order ==> m in hist
    ensures Flagged(order[..i + 1], hist) ==
      Flagged(order[..i], hist) + (if IsFlagged(hist[order[i]]) then [Suspicious(order[i], hist[order[i]])] else [])
  {
    assert order[..i + 1][..i] == order[..i];
    assert order[..i + 1][i] == order[i];
  }

  function NegScore(d: SuspiciousDevice): real
  {
    -d.persistenceScore
  }

  /** Each flagged device names the extra locations reason exactly when it was seen at two or more. */
  lemma FlaggedMultiLocation(mac: string, apps: seq<DeviceAppearance>)
    requires IsFlagged(apps)
    ensures |Suspicious(mac, apps).locationsSeen| > 1 <==> |Suspicious(mac, apps).reasons| == 2
    ensures Suspicious(mac, apps).totalAppearances == |apps| >= 3
  {
  }

  // ---------------------------------------------------------------------------
  // Statistics

  datatype Statistics = Statistics(
    totalAppearances: nat,
    uniqueDevices: nat,
    uniqueLocations: nat,
    analysisDurationHours: real,
    persistenceRate: real,
    multiLocationRate: real,
    probeAnomalyRate: real,
    detectionAccuracy: real)

  predicate IsPersistent(apps: seq<DeviceAppearance>)
  {
    |apps| >= MinAppearances
  }

  predicate IsMultiLocation(apps: seq<DeviceAppearance>)
  {
    |Locations(apps)| >= 2
  }

  function ProbedSsids(apps: seq<DeviceAppearance>): set<string>
  {
    set a, s | a in apps && s in a.ssidsProbed :: s
  }

  /** An SSID whose lower-case form contains one of the suspicious patterns. */
  predicate SuspiciousName(ssid: string)
  {
    exists p | p in SuspiciousPatterns :: Contains(Lower(ssid), p)
  }

  predicate IsProbeAnomalous(apps: seq<DeviceAppearance>)
  {
    |ProbedSsids(apps)| > 20 || exists s | s in ProbedSsids(apps) :: SuspiciousName(s)
  }

  /** How many of the MACs in `order` have a history satisfying `p`. */
  function CountWhere(order: seq<string>, hist: map<string, seq<DeviceAppearance>>, p: seq<DeviceAppearance> -> bool): (n: nat)
    requires forall m :: m in order ==> m in hist
    ensures n <= |order|
  {
    if order == [] then 0
    else
      var init := order[..|order| - 1];
      assert forall m :: m in init ==> m in order;
      CountWhere(init, hist, p) + (if p(hist[order[|order| - 1]]) then 1 else 0)
  }

  lemma CountWhereStep(order: seq<string>, hist: map<string, seq<DeviceAppearance>>, p: seq<DeviceAppearance> -> bool, i: nat)
    requires i < |order| && forall m :: m in order ==> m in hist
    ensures CountWhere(order[..i + 1], hist, p) == CountWhere(order[..i], hist, p) + (if p(hist[order[i]]) then 1 else 0)
  {
    assert order[..i + 1][..i] == order[..i];
  }

  /** `count / total if total > 0 else 0`. */
  function Ratio(count: nat, total: nat): (r: real)
    ensures 0.0 <= r
    ensures count <= total ==> r <= 1.0
    ensures total == 0 ==> r == 0.0
  {
    if total > 0 then
      var r := count as real / total as real;
      assert r * total as real == count as real;
      assert count <= total ==> r <= 1.0 by {
        if r > 1.0 {
          assert r * total as real > 1.0 * total as real;
        }
      }
      r
    else 0.0
  }

  // ---------------------------------------------------------------------------
  // Quick followers

  /** Appearance `i` is at another location than appearance `i - 1`, less than 30 minutes later. */
  predicate QuickStep(s: seq<DeviceAppearance>, i: int)
    requires 1 <= i < |s|
  {
    s[i - 1].locationId != s[i].locationId && s[i].timestamp - s[i - 1].timestamp < QuickFollowSeconds
  }

  /** Some consecutive pair changes location less than 30 minutes apart. */
  predicate QuickTransition(s: seq<DeviceAppearance>)
  {
    exists i | 1 <= i < |s| :: QuickStep(s, i)
  }

  function ByTimestamp(a: DeviceAppearance): real
  {
    a.timestamp as real
  }

  /** The inner `for i in range(1, len(sorted_appearances))` loop, which stops at the first quick step. */
  method HasQuickTransition(s: seq<DeviceAppearance>) returns (found: bool)
    ensures found == QuickTransition(s)
  {
    found := false;
    var i := 1;
    while i < |s| && !found
      invariant 1 <= i && (i <= |s| || i == 1)
      invariant found ==> QuickTransition(s)
      invariant !found ==> forall j :: 1 <= j < i && j < |s| ==> !QuickStep(s, j)
      decreases |s| - i
    {
      if s[i - 1].locationId != s[i].locationId && s[i].timestamp - s[i - 1].timestamp < QuickFollowSeconds {
        assert QuickStep(s, i);
        found := true;
      }
      i := i + 1;
    }
  }

  predicate IsQuickFollower(d: SuspiciousDevice)
  {
    |d.appearances| > 1 && QuickTransition(SortBy(d.appearances, ByTimestamp))
  }

  function CountQuickFollowers(ds: seq<SuspiciousDevice>): (n: nat)
    ensures n <= |ds|
    ensures n == 0 <==> forall d :: d in ds ==> !IsQuickFollower(d)
  {
    if ds == [] then 0
    else
      assert ds == ds[..|ds| - 1] + [ds[|ds| - 1]];
      CountQuickFollowers(ds[..|ds| - 1]) + (if IsQuickFollower(ds[|ds| - 1]) then 1 else 0)
  }

  /** `len([d for d in suspicious_devices if len(d.locations_seen) > 1])`. */
  function MultiLocationCount(ds: seq<SuspiciousDevice>): (n: nat)
    ensures n <= |ds|
    ensures n == |ds| <==> forall d :: d in ds ==> |d.locationsSeen| > 1
  {
    if ds == [] then 0
    else
      assert ds == [ds[0]] + ds[1..];
      (if |ds[0].locationsSeen| > 1 then 1 else 0) + MultiLocationCount(ds[1..])
  }

  lemma CountQuickStep(ds: seq<SuspiciousDevice>, k: nat)
    requires k < |ds|
    ensures CountQuickFollowers(ds[..k + 1]) == CountQuickFollowers(ds[..k]) + (if IsQuickFollower(ds[k]) then 1 else 0)
  {
    assert ds[..k + 1][..k] == ds[..k];
  }

  /** The quick-transition loop of `_analyze_geographic_patterns`: each device counts at most once. */
  method QuickFollowerCount(devices: seq<SuspiciousDevice>) returns (n: nat)
    ensures n == CountQuickFollowers(devices)
    ensures n <= |devices|
  {
    n := 0;
    var k := 0;
    while k < |devices|
      invariant 0 <= k <= |devices|
      invariant n == CountQuickFollowers(devices[..k])
    {
      CountQuickStep(devices, k);
      var device := devices[k];
      if |device.appearances| > 1 {
        var sorted := SortBy(device.appearances, ByTimestamp);
        var quick := HasQuickTransition(sorted);
        if quick {
          n := n + 1;
        }
      }
      k := k + 1;
    }
    assert devices[..k] == devices;
  }

  lemma MacsOfSameMembers(s: seq<SuspiciousDevice>, r: seq<SuspiciousDevice>)
    requires forall d :: d in r <==> d in s
    ensures forall m :: m in MacsOf(r) <==> m in MacsOf(s)
  {
    forall m | m in MacsOf(r) ensures m in MacsOf(s) {
      var k :| 0 <= k < |r| && MacsOf(r)[k] == m;
      assert r[k] in s;
      var k' :| 0 <= k' < |s| && s[k'] == r[k];
      assert MacsOf(s)[k'] == m;
    }
    forall m | m in MacsOf(s) ensures m in MacsOf(r) {
      var k :| 0 <= k < |s| && MacsOf(s)[k] == m;
      assert s[k] in r;
      var k' :| 0 <= k' < |r| && r[k'] == s[k];
      assert MacsOf(r)[k'] == m;
    }
  }

  /** Devices determined by their MAC keep distinct MACs under permutation. */
  lemma DistinctMacsPermutation(s: seq<SuspiciousDevice>, r: seq<SuspiciousDevice>, hist: map<string, seq<DeviceAppearance>>)
    requires multiset(r) == multiset(s) && Distinct(MacsOf(s))
    requires forall d :: d in r ==> d.mac in hist && IsFlagged(hist[d.mac]) && d == Suspicious(d.mac, hist[d.mac])
    ensures Distinct(MacsOf(r))
  {
    assert Distinct(s) by {
      forall i, j | 0 <= i < j < |s| ensures s[i] != s[j] {
        assert MacsOf(s)[i] != MacsOf(s)[j];
      }
    }
    DistinctPermutation(s, r);
    forall i, j | 0 <= i < j < |r| ensures MacsOf(r)[i] != MacsOf(r)[j] {
      assert r[i] in r && r[j] in r;
    }
  }

  /** What sorting keeps of the flagged list: its members, its MACs and their distinctness. */
  lemma SortedDeviceFacts(s: seq<SuspiciousDevice>, r: seq<SuspiciousDevice>, hist: map<string, seq<DeviceAppearance>>)
    requires multiset(r) == multiset(s) && SortedBy(r, NegScore)
    requires Distinct(MacsOf(s))
    requires forall i :: 0 <= i < |s| ==> s[i].mac in hist && IsFlagged(hist[s[i].mac]) && s[i] == Suspicious(s[i].mac, hist[s[i].mac])
    ensures forall d :: d in r ==> d.mac in hist && IsFlagged(hist[d.mac]) && d == Suspicious(d.mac, hist[d.mac])
    ensures forall m :: m in MacsOf(r) <==> m in MacsOf(s)
    ensures Distinct(MacsOf(r))
    ensures forall i, j :: 0 <= i < j < |r| ==> r[i].persistenceScore >= r[j].persistenceScore
  {
    forall i, j | 0 <= i < j < |r| ensures r[i].persistenceScore >= r[j].persistenceScore {
      assert NegScore(r[i]) <= NegScore(r[j]);
    }
    PermutationMembers(s, r);
    MacsOfSameMembers(s, r);
    DistinctMacsPermutation(s, r, hist);
  }

  /** The result of `analyze_surveillance_patterns`: the flagged devices sorted by score, highest first. */
  function Ranked(order: seq<string>, hist: map<string, seq<DeviceAppearance>>): seq<SuspiciousDevice>
    requires forall m :: m in order ==> m in hist
  {
    SortBy(Flagged(order, hist), NegScore)
  }

  /**
    The ranked list holds every device with at least three appearances and a score above
    0.5 exactly once, with its whole history, sorted by score from highest to lowest; among
    equal scores the history order is kept.
  */
  lemma RankedFacts(order: seq<string>, hist: map<string, seq<DeviceAppearance>>)
    requires forall m :: m in hist <==> m in order
    requires Distinct(order)
    ensures var r := Ranked(order, hist);
      && (forall i, j :: 0 <= i < j < |r| ==> r[i].persistenceScore >= r[j].persistenceScore)
      && (forall m :: m in MacsOf(r) <==> m in hist && IsFlagged(hist[m]))
      && Distinct(MacsOf(r))
      && (forall d :: d in r ==> d.mac in hist && IsFlagged(hist[d.mac]) && d == Suspicious(d.mac, hist[d.mac]))
      && (forall k :: WithKey(r, NegScore, k) == WithKey(Flagged(order, hist), NegScore, k))
  {
    var s := Flagged(order, hist);
    FlaggedFacts(order, hist);
    SortedDeviceFacts(s, Ranked(order, hist), hist);
  }

  /** The ledger invariant of `SurveillanceDetector`: `device_history` projects `appearances`. */
  ghost predicate Ledger(apps: seq<DeviceAppearance>, hist: map<string, seq<DeviceAppearance>>, order: seq<string>)
  {
    && order == MacsInOrder(apps)
    && (forall m :: m in hist <==> m in order)
    && (forall m :: m in hist ==> hist[m] == ForMac(apps, m))
  }

  lemma ForMacAppend(apps: seq<DeviceAppearance>, a: DeviceAppearance, m: string)
    ensures ForMac(apps + [a], m) == ForMac(apps, m) + (if a.mac == m then [a] else [])
  {
    assert (apps + [a])[..|apps|] == apps;
  }

  lemma ForMacAbsent(apps: seq<DeviceAppearance>, m: string)
    requires m !in MacsInOrder(apps)
    ensures ForMac(apps, m) == []
  {
  }

  /** Appending one appearance keeps the invariant with the history updated at one MAC. */
  lemma LedgerAppend(apps: seq<DeviceAppearance>, hist: map<string, seq<DeviceAppearance>>, order: seq<string>, a: DeviceAppearance)
    requires Ledger(apps, hist, order)
    ensures Ledger(apps + [a],
                   hist[a.mac := (if a.mac in hist then hist[a.mac] else []) + [a]],
                   if a.mac in order then order else order + [a.mac])
  {
    assert (apps + [a])[..|apps|] == apps;
    var hist' := hist[a.mac := (if a.mac in hist then hist[a.mac] else []) + [a]];
    forall m | m in hist' ensures hist'[m] == ForMac(apps + [a], m) {
      ForMacAppend(apps, a, m);
      if m == a.mac && a.mac !in hist {
        ForMacAbsent(apps, m);
      }
    }
  }

  /** The statistics `_generate_analysis_statistics` reports for a ledger, count-based entries only. */
  function StatisticsOf(apps: seq<DeviceAppearance>, hist: map<string, seq<DeviceAppearance>>, order: seq<string>): Statistics
    requires forall m :: m in order ==> m in hist
  {
    if apps == [] then Statistics(0, 0, 0, 0.0, 0.0, 0.0, 0.0, DetectionAccuracy)
    else
      var duration := MaxTimestamp(apps) - MinTimestamp(apps);
      Statistics(
        |apps|, |hist|, |Locations(apps)|,
        if duration > 0 then duration as real / 3600.0 else 0.0,
        Ratio(CountWhere(order, hist, IsPersistent), |hist|),
        Ratio(CountWhere(order, hist, IsMultiLocation), |hist|),
        Ratio(CountWhere(order, hist, IsProbeAnomalous), |hist|),
        DetectionAccuracy)
  }

  lemma LedgerSize(apps: seq<DeviceAppearance>, hist: map<string, seq<DeviceAppearance>>, order: seq<string>)
    requires Ledger(apps, hist, order)
    ensures |hist| == |order|
    ensures apps != [] ==> |order| > 0
  {
    DistinctSetCard(order);
    assert hist.Keys == set m | m in order;
    if apps != [] {
      assert apps[0] in apps;
      assert apps[0].mac in order;
    }
  }

  /**
    The statistics of a ledger: an empty ledger gives the all-zero record (accuracy 0.95);
    otherwise there is at least one device and every rate lies in [0, 1], since each count
    is over the devices of the history.
  */
  lemma StatisticsFacts(apps: seq<DeviceAppearance>, hist: map<string, seq<DeviceAppearance>>, order: seq<string>)
    requires Ledger(apps, hist, order)
    ensures var s := StatisticsOf(apps, hist, order);
      && (apps == [] ==> s == Statistics(0, 0, 0, 0.0, 0.0, 0.0, 0.0, 0.95))
      && (apps != [] ==> s.totalAppearances == |apps| && s.uniqueDevices == |hist| > 0 && s.uniqueLocations > 0)
      && 0.0 <= s.persistenceRate <= 1.0
      && 0.0 <= s.multiLocationRate <= 1.0
      && 0.0 <= s.probeAnomalyRate <= 1.0
      && s.analysisDurationHours >= 0.0
  {
    LedgerSize(apps, hist, order);
    if apps != [] {
      assert apps[0].locationId in Locations(apps);
    }
  }

  // ---------------------------------------------------------------------------
  // The detector

  /** The loop of `analyze_surveillance_patterns` that collects the flagged devices in history order. */
  method CollectFlagged(order: seq<string>, hist: map<string, seq<DeviceAppearance>>) returns (suspicious: seq<SuspiciousDevice>)
    requires forall m :: m in order ==> m in hist
    ensures suspicious == Flagged(order, hist)
  {
    suspicious := [];
    var i := 0;
    while i < |order|
      invariant 0 <= i <= |order|
      invariant suspicious == Flagged(order[..i], hist)
    {
      FlaggedStep(order, hist, i);
      var mac := order[i];
      var apps := hist[mac];
      if |apps| >= MinAppearances {
        var scored := PersistenceScore(apps);
        if scored.score > MinPersistenceScore {
          suspicious := suspicious + [Suspicious(mac, apps)];
        }
      }
      i := i + 1;
    }
    assert order[..i] == order;
  }

  /** The body of `_generate_analysis_statistics` over the ledger's three collections. */
  method ComputeStatistics(apps: seq<DeviceAppearance>, hist: map<string, seq<DeviceAppearance>>, order: seq<string>) returns (s: Statistics)
    requires forall m :: m in order ==> m in hist
    ensures s == StatisticsOf(apps, hist, order)
  {
    if apps == [] {
      return Statistics(0, 0, 0, 0.0, 0.0, 0.0, 0.0, DetectionAccuracy);
    }
    var totalAppearances := |apps|;
    var uniqueDevices := |hist|;
    var uniqueLocations := |Locations(apps)|;
    var duration := MaxTimestamp(apps) - MinTimestamp(apps);
    var hours := if duration > 0 then duration as real / 3600.0 else 0.0;
    var persistent, multiLocation, anomalous := CountDeviceKinds(order, hist);
    s := Statistics(totalAppearances, uniqueDevices, uniqueLocations, hours,
                    Ratio(persistent, uniqueDevices), Ratio(multiLocation, uniqueDevices),
                    Ratio(anomalous, uniqueDevices), DetectionAccuracy);
  }

  /** The counting loop of `_generate_analysis_statistics` over the devices in history order. */
  method CountDeviceKinds(order: seq<string>, hist: map<string, seq<DeviceAppearance>>) returns (persistent: nat, multiLocation: nat, anomalous: nat)
    requires forall m :: m in order ==> m in hist
    ensures persistent == CountWhere(order, hist, IsPersistent)
    ensures multiLocation == CountWhere(order, hist, IsMultiLocation)
    ensures anomalous == CountWhere(order, hist, IsProbeAnomalous)
  {
    persistent, multiLocation, anomalous := 0, 0, 0;
    var i := 0;
    while i < |order|
      invariant 0 <= i <= |order|
      invariant persistent == CountWhere(order[..i], hist, IsPersistent)
      invariant multiLocation == CountWhere(order[..i], hist, IsMultiLocation)
      invariant anomalous == CountWhere(order[..i], hist, IsProbeAnomalous)
    {
      CountWhereStep(order, hist, IsPersistent, i);
      CountWhereStep(order, hist, IsMultiLocation, i);
      CountWhereStep(order, hist, IsProbeAnomalous, i);
      var apps := hist[order[i]];
      if |apps| >= MinAppearances {
        persistent := persistent + 1;
      }
      if |Locations(apps)| >= 2 {
        multiLocation := multiLocation + 1;
      }
      if IsProbeAnomalous(apps) {
        anomalous := anomalous + 1;
      }
      i := i + 1;
    }
    assert order[..i] == order;
  }

  class Detector {
    var appearances: seq<DeviceAppearance>
    var deviceHistory: map<string, seq<DeviceAppearance>>
    /** The insertion order of `deviceHistory`'s keys. */
    var historyOrder: seq<string>

    /** The history is the per-MAC projection of the ledger, keyed in first-seen order. */
    ghost predicate Valid()
      reads this
    {
      Ledger(appearances, deviceHistory, historyOrder)
    }

    constructor ()
      ensures Valid()
      ensures appearances == [] && deviceHistory == map[] && historyOrder == []
    {
      appearances := [];
      deviceHistory := map[];
      historyOrder := [];
    }

    /** `add_device_appearance`: one record appended to the ledger and to the MAC's history. */
    method AddDeviceAppearance(mac: string, timestamp: int, locationId: string, ssidsProbed: Option<seq<string>>,
                               signalStrength: Option<real>, deviceType: Option<string>)
      requires Valid()
      modifies this
      ensures Valid()
      ensures appearances == old(appearances) + [DeviceAppearance(mac, timestamp, locationId, ssidsProbed.GetOr([]), signalStrength, deviceType)]
      ensures deviceHistory == old(deviceHistory)[mac := (if mac in old(deviceHistory) then old(deviceHistory)[mac] else []) +
        [DeviceAppearance(mac, timestamp, locationId, ssidsProbed.GetOr([]), signalStrength, deviceType)]]
      ensures historyOrder == if mac in old(historyOrder) then old(historyOrder) else old(historyOrder) + [mac]
    {
      var a := DeviceAppearance(mac, timestamp, locationId, ssidsProbed.GetOr([]), signalStrength, deviceType);
      var prior := if mac in deviceHistory then deviceHistory[mac] else [];
      var order := if mac in historyOrder then historyOrder else historyOrder + [mac];
      LedgerAppend(appearances, deviceHistory, historyOrder, a);
      appearances := appearances + [a];
      deviceHistory := deviceHistory[mac := prior + [a]];
      historyOrder := order;
    }

    /**
      `analyze_surveillance_patterns`: every device with at least three appearances and a
      score above 0.5 appears exactly once, with its whole history, sorted by score from
      highest to lowest, ties kept in history order.
    */
    method AnalyzeSurveillancePatterns() returns (r: seq<SuspiciousDevice>)
      requires Valid()
      ensures r == Ranked(historyOrder, deviceHistory)
    {
      assert forall m :: m in historyOrder ==> m in deviceHistory;
      var suspicious := CollectFlagged(historyOrder, deviceHistory);
      r := SortBy(suspicious, NegScore);
    }

    /**
      `_generate_analysis_statistics`, for its count-based entries: the result is
      `StatisticsOf` the ledger.
    */
    method GenerateAnalysisStatistics() returns (s: Statistics)
      requires Valid()
      ensures s == StatisticsOf(appearances, deviceHistory, historyOrder)
    {
      assert forall m :: m in historyOrder ==> m in deviceHistory;
      s := ComputeStatistics(appearances, deviceHistory, historyOrder);
    }
  }
}
