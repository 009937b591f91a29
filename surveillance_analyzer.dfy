/**
  `SurveillanceAnalyzer`: the stalking filter applied to the detector's ranked output, and
  the loop of `analyze_kismet_data` that sorts the GPS fixes read from the capture files by
  time, drops each fix that lies too close to the last kept one and names the kept fixes
  `Location_1`, `Location_2`, ...
*/
module SurveillanceAnalyzer {
  import opened Wrappers
  import opened PyStr
  import opened Sorting
  import opened SurveillanceDetector

  // ---------------------------------------------------------------------------
  // analyze_for_stalking

  const DefaultMinPersistence: real := 0.7
  const MinStalkingLocations: nat := 3
  const MinStalkingAppearances: nat := 10
  const MinStalkingHours: real := 24.0
  const LocationsWeight: real := 0.4
  const FrequencyWeight: real := 0.3
  const DurationWeight: real := 0.3
  const CandidateThreshold: real := 0.6

  /** The reasons `analyze_for_stalking` attaches, with the number each message shows. */
  datatype StalkingReason =
    | FollowsAcross(locations: nat)
    | HighFrequency(appearances: nat)
    | PersistentOver(days: real)

  /** A device together with the two attributes `analyze_for_stalking` sets on it. */
  datatype StalkingCandidate = StalkingCandidate(device: SuspiciousDevice, stalkingScore: real, stalkingReasons: seq<StalkingReason>)

  /** `(last_seen - first_seen).total_seconds() / 3600`. */
  function DeviceSpanHours(d: SuspiciousDevice): real
  {
    (d.lastSeen - d.firstSeen) as real / 3600.0
  }

  predicate ManyLocations(d: SuspiciousDevice)
  {
    |d.locationsSeen| >= MinStalkingLocations
  }

  predicate Frequent(d: SuspiciousDevice)
  {
    d.totalAppearances >= MinStalkingAppearances
  }

  predicate LongLived(d: SuspiciousDevice)
  {
    DeviceSpanHours(d) >= MinStalkingHours
  }

  /** How many of the three stalking indicators hold. */
  function ConditionsMet(d: SuspiciousDevice): nat
  {
    (if ManyLocations(d) then 1 else 0) + (if Frequent(d) then 1 else 0) + (if LongLived(d) then 1 else 0)
  }

  /**
    The additive stalking score. It stays in [0, 1], and it reaches the 0.6 threshold
    exactly when at least two of the three indicators hold.
  */
  function StalkingScore(d: SuspiciousDevice): (r: real)
    ensures 0.0 <= r <= 1.0
    ensures r >= CandidateThreshold <==> ConditionsMet(d) >= 2
    ensures ConditionsMet(d) == 0 <==> r == 0.0
  {
    (if ManyLocations(d) then LocationsWeight else 0.0)
    + (if Frequent(d) then FrequencyWeight else 0.0)
    + (if LongLived(d) then DurationWeight else 0.0)
  }

  /** One reason per indicator that holds, locations first, then frequency, then duration. */
  function StalkingReasons(d: SuspiciousDevice): (r: seq<StalkingReason>)
    ensures |r| == ConditionsMet(d)
    ensures ManyLocations(d) <==> FollowsAcross(|d.locationsSeen|) in r
    ensures Frequent(d) <==> HighFrequency(d.totalAppearances) in r
    ensures LongLived(d) <==> PersistentOver(DeviceSpanHours(d) / 24.0) in r
    ensures ManyLocations(d) ==> r[0] == FollowsAcross(|d.locationsSeen|)
    ensures LongLived(d) ==> r[|r| - 1] == PersistentOver(DeviceSpanHours(d) / 24.0)
  {
    (if ManyLocations(d) then [FollowsAcross(|d.locationsSeen|)] else [])
    + (if Frequent(d) then [HighFrequency(d.totalAppearances)] else [])
    + (if LongLived(d) then [PersistentOver(DeviceSpanHours(d) / 24.0)] else [])
  }

  /** The filter of `analyze_for_stalking`. */
  predicate IsCandidate(d: SuspiciousDevice, minPersistence: real)
  {
    d.persistenceScore >= minPersistence && StalkingScore(d) >= CandidateThreshold
  }

  function ToCandidate(d: SuspiciousDevice): StalkingCandidate
  {
    StalkingCandidate(d, StalkingScore(d), StalkingReasons(d))
  }

  function Devices(cs: seq<StalkingCandidate>): seq<SuspiciousDevice>
  {
    if cs == [] then [] else [cs[0].device] + Devices(cs[1..])
  }

  /**
    The candidates among `ds`, in the order of `ds`: each is a device of `ds` passing the
    filter, carrying its score and reasons, and every device passing the filter is among them.
  */
  function StalkingCandidates(ds: seq<SuspiciousDevice>, minPersistence: real): (r: seq<StalkingCandidate>)
    ensures |r| <= |ds|
  {
    if ds == [] then []
    else (if IsCandidate(ds[0], minPersistence) then [ToCandidate(ds[0])] else []) + StalkingCandidates(ds[1..], minPersistence)
  }

  /**
    The candidates are an order-preserving selection from `ds`: each is a device of `ds`
    passing the filter, carrying its score and reasons, and every device passing the filter
    is among them.
  */
  lemma {:induction false} StalkingCandidatesFacts(ds: seq<SuspiciousDevice>, minPersistence: real)
    ensures var r := StalkingCandidates(ds, minPersistence);
      && IsSubseq(Devices(r), ds)
      && (forall c :: c in r ==> c.device in ds && IsCandidate(c.device, minPersistence) && c == ToCandidate(c.device))
      && (forall d :: d in ds && IsCandidate(d, minPersistence) ==> ToCandidate(d) in r)
    decreases |ds|
  {
    if ds != [] {
      StalkingCandidatesFacts(ds[1..], minPersistence);
      var rest := StalkingCandidates(ds[1..], minPersistence);
      var r := StalkingCandidates(ds, minPersistence);
      assert forall d :: d in ds[1..] ==> d in ds;
      if IsCandidate(ds[0], minPersistence) {
        assert r == [ToCandidate(ds[0])] + rest;
        assert r[1..] == rest;
        assert Devices(r)[1..] == Devices(rest);
        assert forall d :: d in ds ==> d == ds[0] || d in ds[1..];
      } else {
        assert r == rest;
        assert forall d :: d in ds ==> d == ds[0] || d in ds[1..];
      }
    }
  }

  lemma StalkingCandidatesStep(ds: seq<SuspiciousDevice>, minPersistence: real, i: nat)
    requires i < |ds|
    ensures StalkingCandidates(ds[i..], minPersistence) ==
      (if IsCandidate(ds[i], minPersistence) then [ToCandidate(ds[i])] else []) + StalkingCandidates(ds[i + 1..], minPersistence)
  {
    assert ds[i..][1..] == ds[i + 1..];
  }

  predicate ScoreNonIncreasing(ds: seq<SuspiciousDevice>)
  {
    forall i, j :: 0 <= i < j < |ds| ==> ds[i].persistenceScore >= ds[j].persistenceScore
  }

  /** Deleting devices from a list sorted by persistence score leaves it sorted. */
  lemma {:induction false} SubseqKeepsScoreOrder(a: seq<SuspiciousDevice>, b: seq<SuspiciousDevice>)
    requires IsSubseq(a, b) && ScoreNonIncreasing(b)
    ensures ScoreNonIncreasing(a)
    decreases |b|
  {
    if a != [] {
      assert ScoreNonIncreasing(b[1..]) by {
        forall i, j | 0 <= i < j < |b[1..]| ensures b[1..][i].persistenceScore >= b[1..][j].persistenceScore {
          assert b[1..][i] == b[i + 1] && b[1..][j] == b[j + 1];
        }
      }
      if a[0] == b[0] && IsSubseq(a[1..], b[1..]) {
        SubseqKeepsScoreOrder(a[1..], b[1..]);
        SubseqFacts(a[1..], b[1..]);
        forall i, j | 0 <= i < j < |a| ensures a[i].persistenceScore >= a[j].persistenceScore {
          assert a[j] == a[1..][j - 1];
          assert a[j] in b[1..];
          var k :| 0 <= k < |b[1..]| && b[1..][k] == a[j];
          assert b[k + 1] == a[j];
          if i > 0 {
            assert a[i] == a[1..][i - 1];
          }
        }
      } else {
        SubseqKeepsScoreOrder(a, b[1..]);
      }
    }
  }

  /**
    `analyze_for_stalking(min_persistence_score)`: runs the detector's analysis, then keeps
    the devices whose persistence score reaches the minimum and whose stalking score reaches
    0.6, recording the score and the reasons on each one.
  */
  method AnalyzeForStalking(detector: Detector, minPersistence: real) returns (candidates: seq<StalkingCandidate>)
    requires detector.Valid()
    ensures candidates == StalkingCandidates(Ranked(detector.historyOrder, detector.deviceHistory), minPersistence)
  {
    var suspicious := detector.AnalyzeSurveillancePatterns();
    candidates := FilterStalkingCandidates(suspicious, minPersistence);
  }

  /** The indicator checks of `analyze_for_stalking` for one device, accumulating score and reasons. */
  method StalkingIndicators(device: SuspiciousDevice) returns (score: real, reasons: seq<StalkingReason>)
    ensures score == StalkingScore(device) && reasons == StalkingReasons(device)
  {
    var locations := |device.locationsSeen|;
    var appearances := device.totalAppearances;
    var hours := DeviceSpanHours(device);
    score := 0.0;
    reasons := [];
    if locations >= MinStalkingLocations {
      score := score + LocationsWeight;
      reasons := reasons + [FollowsAcross(locations)];
    }
    ghost var first := reasons;
    if appearances >= MinStalkingAppearances {
      score := score + FrequencyWeight;
      reasons := reasons + [HighFrequency(appearances)];
    }
    ghost var second := reasons;
    if hours >= MinStalkingHours {
      score := score + DurationWeight;
      reasons := reasons + [PersistentOver(hours / 24.0)];
    }
    assert first == (if ManyLocations(device) then [FollowsAcross(|device.locationsSeen|)] else []);
    assert second == first + (if Frequent(device) then [HighFrequency(device.totalAppearances)] else []);
    assert reasons == second + (if LongLived(device) then [PersistentOver(DeviceSpanHours(device) / 24.0)] else []);
  }

  /** The loop of `analyze_for_stalking` over the detector's ranked devices. */
  method FilterStalkingCandidates(suspicious: seq<SuspiciousDevice>, minPersistence: real) returns (candidates: seq<StalkingCandidate>)
    ensures candidates == StalkingCandidates(suspicious, minPersistence)
  {
    candidates := [];
    var i := 0;
    while i < |suspicious|
      invariant 0 <= i <= |suspicious|
      invariant candidates + StalkingCandidates(suspicious[i..], minPersistence) == StalkingCandidates(suspicious, minPersistence)
    {
      StalkingCandidatesStep(suspicious, minPersistence, i);
      var c := CandidateOf(suspicious[i], minPersistence);
      if c.Some? {
        candidates := candidates + [c.value];
      }
      i := i + 1;
    }
  }

  /** The body of the loop: a device persistent enough and scoring at least the threshold becomes a candidate. */
  method CandidateOf(device: SuspiciousDevice, minPersistence: real) returns (c: Option<StalkingCandidate>)
    ensures c == if IsCandidate(device, minPersistence) then Some(ToCandidate(device)) else None
  {
    c := None;
    if device.persistenceScore >= minPersistence {
      var score, reasons := StalkingIndicators(device);
      if score >= CandidateThreshold {
        c := Some(StalkingCandidate(device, score, reasons));
      }
    }
  }

  /**
    What `analyze_for_stalking` returns over a detector ledger: the candidates keep the
    score order of the detector's ranking, each one is a flagged device with its whole
    history, and every flagged device that passes the stalking filter is among them.
  */
  lemma StalkingCandidatesOfLedger(order: seq<string>, hist: map<string, seq<DeviceAppearance>>, minPersistence: real)
    requires forall m :: m in hist <==> m in order
    requires Distinct(order)
    ensures var r := StalkingCandidates(Ranked(order, hist), minPersistence);
      && ScoreNonIncreasing(Devices(r))
      && (forall c :: c in r ==> c.device.mac in hist && IsFlagged(hist[c.device.mac]) && c.device == Suspicious(c.device.mac, hist[c.device.mac]))
      && (forall m :: m in hist && IsFlagged(hist[m]) && IsCandidate(Suspicious(m, hist[m]), minPersistence) ==> ToCandidate(Suspicious(m, hist[m])) in r)
  {
    var ranked := Ranked(order, hist);
    var r := StalkingCandidates(ranked, minPersistence);
    RankedDevices(order, hist);
    StalkingCandidatesFacts(ranked, minPersistence);
    SubseqKeepsScoreOrder(Devices(r), ranked);
  }

  /** The detector's ranking seen device by device. */
  lemma RankedDevices(order: seq<string>, hist: map<string, seq<DeviceAppearance>>)
    requires forall m :: m in hist <==> m in order
    requires Distinct(order)
    ensures ScoreNonIncreasing(Ranked(order, hist))
    ensures forall d :: d in Ranked(order, hist) ==> d.mac in hist && IsFlagged(hist[d.mac]) && d == Suspicious(d.mac, hist[d.mac])
    ensures forall m :: m in hist && IsFlagged(hist[m]) ==> Suspicious(m, hist[m]) in Ranked(order, hist)
  {
    var ranked := Ranked(order, hist);
    RankedFacts(order, hist);
    forall m | m in hist && IsFlagged(hist[m]) ensures Suspicious(m, hist[m]) in ranked {
      assert m in MacsOf(ranked);
      var k :| 0 <= k < |MacsOf(ranked)| && MacsOf(ranked)[k] == m;
      assert ranked[k] in ranked;
    }
  }

  // ---------------------------------------------------------------------------
  // GPS thinning in analyze_kismet_data

  /** Two fixes closer than this (in the rough metres of the planar estimate) are one place. */
  const MinSeparation: real := 50.0
  const LocationPrefix: string := "Location_"

  /** A row `(avg_lat, avg_lon, first_time)` read from a capture file. */
  datatype GpsRow = GpsRow(lat: real, lon: real, firstTime: int)

  /** An entry `(lat, lon, location_name)` of `gps_data`. */
  datatype NamedFix = NamedFix(lat: real, lon: real, name: string)

  function RowTime(row: GpsRow): real
  {
    row.firstTime as real
  }

  /** `f"Location_{n}"`. */
  function LocationName(n: nat): (r: string)
    ensures |r| > |LocationPrefix| && r[..|LocationPrefix|] == LocationPrefix
    ensures r[|LocationPrefix|..] == NatToString(n)
  {
    LocationPrefix + NatToString(n)
  }

  /** The names are pairwise different. */
  lemma LocationNameInjective(m: nat, n: nat)
    ensures m != n ==> LocationName(m) != LocationName(n)
  {
    if LocationName(m) == LocationName(n) {
      assert NatToString(m) == LocationName(m)[|LocationPrefix|..];
      NatToStringInjective(m, n);
    }
  }

  /** Python's truth value of an optional float such as `prev_lat`: neither `None` nor `0.0`. */
  predicate SetAndNonZero(x: Option<real>)
  {
    x.Some? && x.value != 0.0
  }

  /**
    A row is skipped when the last kept fix has two truthy coordinates and the row lies
    less than 50 from it; `distance(prevLat, prevLon, lat, lon)` is the planar estimate.
  */
  predicate Skipped(kept: seq<NamedFix>, row: GpsRow, distance: (real, real, real, real) -> real)
  {
    && kept != []
    && kept[|kept| - 1].lat != 0.0
    && kept[|kept| - 1].lon != 0.0
    && distance(kept[|kept| - 1].lat, kept[|kept| - 1].lon, row.lat, row.lon) < MinSeparation
  }

  /** The fixes the loop keeps from `rows`, taken in the order given. */
  function Thinned(rows: seq<GpsRow>, distance: (real, real, real, real) -> real): (r: seq<NamedFix>)
    ensures |r| <= |rows|
  {
    if rows == [] then []
    else
      var prev := Thinned(rows[..|rows| - 1], distance);
      var row := rows[|rows| - 1];
      if Skipped(prev, row, distance) then prev
      else prev + [NamedFix(row.lat, row.lon, LocationName(|prev| + 1))]
  }

  /** The kept fixes are named `Location_1`, `Location_2`, ... in order, and the first row is always kept. */
  lemma {:induction false} ThinnedNames(rows: seq<GpsRow>, distance: (real, real, real, real) -> real)
    ensures forall i :: 0 <= i < |Thinned(rows, distance)| ==> Thinned(rows, distance)[i].name == LocationName(i + 1)
    ensures rows != [] ==> Thinned(rows, distance) != [] && Thinned(rows, distance)[0] == NamedFix(rows[0].lat, rows[0].lon, LocationName(1))
    decreases |rows|
  {
    if rows != [] {
      var init := rows[..|rows| - 1];
      var row := rows[|rows| - 1];
      ThinnedNames(init, distance);
      var prev := Thinned(init, distance);
      var r := Thinned(rows, distance);
      if !Skipped(prev, row, distance) {
        assert r == prev + [NamedFix(row.lat, row.lon, LocationName(|prev| + 1))];
        assert forall i :: 0 <= i < |prev| ==> r[i] == prev[i];
        if init != [] {
          assert init[0] == rows[0];
        }
      } else {
        assert init[0] == rows[0];
      }
    }
  }

  /** A kept fix lies at least 50 from the one kept before it when that one has non-zero coordinates. */
  lemma {:induction false} ThinnedSeparated(rows: seq<GpsRow>, distance: (real, real, real, real) -> real)
    ensures forall i :: 1 <= i < |Thinned(rows, distance)| && Thinned(rows, distance)[i - 1].lat != 0.0 && Thinned(rows, distance)[i - 1].lon != 0.0 ==>
      distance(Thinned(rows, distance)[i - 1].lat, Thinned(rows, distance)[i - 1].lon, Thinned(rows, distance)[i].lat, Thinned(rows, distance)[i].lon) >= MinSeparation
    decreases |rows|
  {
    if rows != [] {
      var init := rows[..|rows| - 1];
      var row := rows[|rows| - 1];
      ThinnedSeparated(init, distance);
      var prev := Thinned(init, distance);
      var r := Thinned(rows, distance);
      if !Skipped(prev, row, distance) {
        assert r == prev + [NamedFix(row.lat, row.lon, LocationName(|prev| + 1))];
        forall i | 1 <= i < |r| && r[i - 1].lat != 0.0 && r[i - 1].lon != 0.0
          ensures distance(r[i - 1].lat, r[i - 1].lon, r[i].lat, r[i].lon) >= MinSeparation
        {
          assert r[i - 1] == prev[i - 1];
          if i < |prev| {
            assert r[i] == prev[i];
          } else {
            assert r[i].lat == row.lat && r[i].lon == row.lon;
          }
        }
      }
    }
  }

  /** Some row of `rows` has the coordinates of `fix`. */
  predicate FromSomeRow(fix: NamedFix, rows: seq<GpsRow>)
  {
    exists row :: row in rows && row.lat == fix.lat && row.lon == fix.lon
  }

  /** Every kept fix has the coordinates of some row. */
  lemma {:induction false} ThinnedFromRows(rows: seq<GpsRow>, distance: (real, real, real, real) -> real)
    ensures forall i :: 0 <= i < |Thinned(rows, distance)| ==> FromSomeRow(Thinned(rows, distance)[i], rows)
    decreases |rows|
  {
    if rows != [] {
      var init := rows[..|rows| - 1];
      var row := rows[|rows| - 1];
      ThinnedFromRows(init, distance);
      var prev := Thinned(init, distance);
      var r := Thinned(rows, distance);
      forall i | 0 <= i < |r| ensures FromSomeRow(r[i], rows) {
        if i < |prev| {
          assert r[i] == prev[i];
          assert FromSomeRow(prev[i], init);
          var x :| x in init && x.lat == prev[i].lat && x.lon == prev[i].lon;
          assert x in rows;
        } else {
          assert r == prev + [NamedFix(row.lat, row.lon, LocationName(|prev| + 1))];
          assert row in rows && r[i].lat == row.lat && r[i].lon == row.lon;
        }
      }
    }
  }

  /** Each row is either kept, under the next name, or skipped because it is too close. */
  lemma ThinnedStep(rows: seq<GpsRow>, distance: (real, real, real, real) -> real, i: nat)
    requires i < |rows|
    ensures Thinned(rows[..i + 1], distance) ==
      Thinned(rows[..i], distance)
      + (if Skipped(Thinned(rows[..i], distance), rows[i], distance) then []
         else [NamedFix(rows[i].lat, rows[i].lon, LocationName(|Thinned(rows[..i], distance)| + 1))])
  {
    assert rows[..i + 1][..i] == rows[..i];
    assert rows[..i + 1][i] == rows[i];
  }

  /** When no two fixes are ever closer than 50, nothing is skipped. */
  lemma {:induction false} AllFarApartAllKept(rows: seq<GpsRow>, distance: (real, real, real, real) -> real)
    requires forall a, b, c, d :: distance(a, b, c, d) >= MinSeparation
    ensures |Thinned(rows, distance)| == |rows|
    ensures forall i :: 0 <= i < |rows| ==> Thinned(rows, distance)[i].lat == rows[i].lat && Thinned(rows, distance)[i].lon == rows[i].lon
  {
    if rows != [] {
      var init := rows[..|rows| - 1];
      var row := rows[|rows| - 1];
      AllFarApartAllKept(init, distance);
      var prev := Thinned(init, distance);
      assert !Skipped(prev, row, distance);
      var r := Thinned(rows, distance);
      assert r == prev + [NamedFix(row.lat, row.lon, LocationName(|prev| + 1))];
      forall i | 0 <= i < |rows| ensures r[i].lat == rows[i].lat && r[i].lon == rows[i].lon {
        if i < |init| {
          assert r[i] == prev[i] && rows[i] == init[i];
        }
      }
    }
  }

  /**
    The thinning loop: sorts the rows by `first_time` (stably), then walks them with the
    previous kept coordinates and the name counter.
  */
  method ThinGpsFixes(allGpsCoords: seq<GpsRow>, distance: (real, real, real, real) -> real) returns (gpsData: seq<NamedFix>)
    ensures gpsData == Thinned(SortBy(allGpsCoords, RowTime), distance)
  {
    var sorted := SortBy(allGpsCoords, RowTime);
    gpsData := ThinSorted(sorted, distance);
  }

  /** The walk over the time-sorted rows with the previous kept coordinates and the name counter. */
  method ThinSorted(sorted: seq<GpsRow>, distance: (real, real, real, real) -> real) returns (gpsData: seq<NamedFix>)
    ensures gpsData == Thinned(sorted, distance)
  {
    gpsData := [];
    var prevLat: Option<real> := None;
    var prevLon: Option<real> := None;
    var locationCounter: nat := 1;
    var i := 0;
    while i < |sorted|
      invariant 0 <= i <= |sorted|
      invariant gpsData == Thinned(sorted[..i], distance)
      invariant locationCounter == |gpsData| + 1
      invariant gpsData == [] ==> prevLat == None && prevLon == None
      invariant gpsData != [] ==> prevLat == Some(gpsData[|gpsData| - 1].lat) && prevLon == Some(gpsData[|gpsData| - 1].lon)
    {
      var row := sorted[i];
      ThinnedStep(sorted, distance, i);
      var skip := false;
      if SetAndNonZero(prevLat) && SetAndNonZero(prevLon) {
        if distance(prevLat.value, prevLon.value, row.lat, row.lon) < MinSeparation {
          skip := true;
        }
      }
      assert skip == Skipped(gpsData, row, distance);
      if !skip {
        gpsData := gpsData + [NamedFix(row.lat, row.lon, LocationName(locationCounter))];
        prevLat, prevLon := Some(row.lat), Some(row.lon);
        locationCounter := locationCounter + 1;
      }
      i := i + 1;
    }
    assert sorted[..i] == sorted;
  }

  /**
    What the loop gives for any input: at most one fix per row, the earliest row always
    kept as `Location_1`, names consecutive, and every kept fix at least 50 from the one
    kept before it when that one has non-zero coordinates.
  */
  lemma ThinGpsFixesFacts(allGpsCoords: seq<GpsRow>, distance: (real, real, real, real) -> real)
    requires allGpsCoords != []
    ensures var sorted := SortBy(allGpsCoords, RowTime);
      var r := Thinned(sorted, distance);
      && 1 <= |r| <= |allGpsCoords|
      && r[0].lat == sorted[0].lat && r[0].lon == sorted[0].lon && r[0].name == LocationName(1)
      && (forall row :: row in allGpsCoords ==> RowTime(sorted[0]) <= RowTime(row))
      && (forall i, j :: 0 <= i < j < |r| ==> r[i].name != r[j].name)
  {
    var sorted := SortBy(allGpsCoords, RowTime);
    ThinnedNames(sorted, distance);
    ThinnedNamesDistinct(sorted, distance);
    SortByHeadIsMin(allGpsCoords, RowTime);
  }

  /** No two kept fixes share a name. */
  lemma ThinnedNamesDistinct(rows: seq<GpsRow>, distance: (real, real, real, real) -> real)
    ensures forall i, j :: 0 <= i < j < |Thinned(rows, distance)| ==> Thinned(rows, distance)[i].name != Thinned(rows, distance)[j].name
  {
    var r := Thinned(rows, distance);
    ThinnedNames(rows, distance);
    forall i, j | 0 <= i < j < |r| ensures r[i].name != r[j].name {
      LocationNameInjective(i + 1, j + 1);
    }
  }
}
