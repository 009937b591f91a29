/**
  `GPSTracker` (gps_tracker.py): GPS readings are clustered into location sessions. A
  reading joins the first session within 100 metres, otherwise it gets a fresh name;
  a session is extended while readings keep arriving within 600 seconds, and devices are
  attributed to the current session at most once.

  The haversine distance and the clock are parameters. Sessions are values in a list and
  the current session is an index into it, which is how the Python object reference to
  a list element behaves.
*/
module GpsTracker {
  import opened Wrappers
  import opened PyStr
  import opened Sorting

  const LocationThreshold: real := 100.0
  const SessionTimeout: int := 600

  datatype GpsLocation = GpsLocation(
    latitude: real,
    longitude: real,
    altitude: Option<real>,
    timestamp: int,
    accuracy: Option<real>,
    locationName: Option<string>)

  datatype Session = Session(
    location: GpsLocation,
    startTime: int,
    endTime: int,
    devicesSeen: seq<string>,
    sessionId: string)

  /** `distance(reading, session.location) <= location_threshold`. */
  predicate Near(dist: (GpsLocation, GpsLocation) -> real, loc: GpsLocation, s: Session)
  {
    dist(loc, s.location) <= LocationThreshold
  }

  /** The first session, in list order, that is near the reading. */
  function FirstNear(ss: seq<Session>, loc: GpsLocation, dist: (GpsLocation, GpsLocation) -> real): (r: Option<nat>)
    ensures r.Some? ==> r.value < |ss| && Near(dist, loc, ss[r.value])
    ensures r.Some? ==> forall j :: 0 <= j < r.value ==> !Near(dist, loc, ss[j])
    ensures r.None? ==> forall j :: 0 <= j < |ss| ==> !Near(dist, loc, ss[j])
  {
    if ss == [] then None
    else if Near(dist, loc, ss[0]) then Some(0)
    else
      match FirstNear(ss[1..], loc, dist)
      case None => None
      case Some(i) => Some(i + 1)
  }

  // ---------------------------------------------------------------------------
  // Fresh names

  /** The base name of a new cluster: the location name with spaces made `_`, else the coordinate name. */
  function BaseName(loc: GpsLocation, coordinateName: string): (b: string)
    ensures loc.locationName.Some? && loc.locationName.value != [] ==> ' ' !in b && |b| == |loc.locationName.value|
  {
    if loc.locationName.Some? && loc.locationName.value != [] then ReplaceChar(loc.locationName.value, ' ', '_')
    else coordinateName
  }

  /** The `k`-th name the suffix loop tries: `base`, then `base_1`, `base_2`, ... */
  function Candidate(base: string, k: nat): string
  {
    if k == 0 then base else base + "_" + NatToString(k)
  }

  lemma CandidateInjective(base: string, j: nat, k: nat)
    requires Candidate(base, j) == Candidate(base, k)
    ensures j == k
  {
    if j != 0 && k != 0 {
      var cj := Candidate(base, j);
      assert cj[|base| + 1..] == NatToString(j);
      assert Candidate(base, k)[|base| + 1..] == NatToString(k);
      NatToStringInjective(j, k);
    }
  }

  /** `n` pairwise different candidates all lying in `ids` need `n <= |ids|`. */
  lemma {:induction false} CandidatesBound(base: string, n: nat, ids: set<string>)
    requires forall k :: 0 <= k < n ==> Candidate(base, k) in ids
    ensures n <= |ids|
  {
    if n > 0 {
      var rest := ids - {Candidate(base, n - 1)};
      forall k | 0 <= k < n - 1 ensures Candidate(base, k) in rest {
        if Candidate(base, k) == Candidate(base, n - 1) {
          CandidateInjective(base, k, n - 1);
        }
      }
      CandidatesBound(base, n - 1, rest);
    }
  }

  /** The first suffix from `k` on whose candidate is not taken. */
  function FreshSuffix(base: string, ids: set<string>, k: nat): (c: nat)
    requires forall j :: 0 <= j < k ==> Candidate(base, j) in ids
    ensures c >= k && Candidate(base, c) !in ids
    ensures forall j :: 0 <= j < c ==> Candidate(base, j) in ids
    decreases |ids| - k
  {
    if Candidate(base, k) !in ids then k
    else
      CandidatesBound(base, k + 1, ids);
      FreshSuffix(base, ids, k + 1)
  }

  function SessionIds(ss: seq<Session>): (ids: seq<string>)
    ensures |ids| == |ss|
    ensures forall i :: 0 <= i < |ss| ==> ids[i] == ss[i].sessionId
  {
    seq(|ss|, i requires 0 <= i < |ss| => ss[i].sessionId)
  }

  /** The id `_get_location_cluster_id` returns. */
  function ClusterIdOf(ss: seq<Session>, loc: GpsLocation, dist: (GpsLocation, GpsLocation) -> real, coordinateName: string): string
  {
    match FirstNear(ss, loc, dist)
    case Some(i) => ss[i].sessionId
    case None =>
      var base := BaseName(loc, coordinateName);
      Candidate(base, FreshSuffix(base, set x | x in SessionIds(ss), 0))
  }

  /**
    The cluster id is that of the first near session (not the nearest); when none is near
    it is the first of `base`, `base_1`, `base_2`, ... that no session already uses.
  */
  lemma ClusterIdFacts(ss: seq<Session>, loc: GpsLocation, dist: (GpsLocation, GpsLocation) -> real, coordinateName: string)
    ensures var id := ClusterIdOf(ss, loc, dist, coordinateName);
      && (forall i :: 0 <= i < |ss| && Near(dist, loc, ss[i]) && (forall j :: 0 <= j < i ==> !Near(dist, loc, ss[j])) ==> id == ss[i].sessionId)
      && ((forall i :: 0 <= i < |ss| ==> !Near(dist, loc, ss[i])) ==>
            && (forall i :: 0 <= i < |ss| ==> ss[i].sessionId != id)
            && exists c: nat :: id == Candidate(BaseName(loc, coordinateName), c)
                 && forall k :: 0 <= k < c ==> Candidate(BaseName(loc, coordinateName), k) in SessionIds(ss))
  {
    var id := ClusterIdOf(ss, loc, dist, coordinateName);
    match FirstNear(ss, loc, dist)
    case Some(f) =>
      forall i | 0 <= i < |ss| && Near(dist, loc, ss[i]) && (forall j :: 0 <= j < i ==> !Near(dist, loc, ss[j]))
        ensures id == ss[i].sessionId
      {
      }
    case None =>
      var base := BaseName(loc, coordinateName);
      var c := FreshSuffix(base, set x | x in SessionIds(ss), 0);
      forall i | 0 <= i < |ss| ensures ss[i].sessionId != id {
        assert SessionIds(ss)[i] == ss[i].sessionId;
      }
  }

  // ---------------------------------------------------------------------------
  // Session update

  /** The first session with this id that has not timed out at `now`. */
  function FirstContinuable(ss: seq<Session>, id: string, now: int): (r: Option<nat>)
    ensures r.Some? ==> r.value < |ss| && ss[r.value].sessionId == id && now - ss[r.value].endTime <= SessionTimeout
    ensures r.Some? ==> forall j :: 0 <= j < r.value ==> !(ss[j].sessionId == id && now - ss[j].endTime <= SessionTimeout)
    ensures r.None? ==> forall j :: 0 <= j < |ss| ==> !(ss[j].sessionId == id && now - ss[j].endTime <= SessionTimeout)
  {
    if ss == [] then None
    else if ss[0].sessionId == id && now - ss[0].endTime <= SessionTimeout then Some(0)
    else
      match FirstContinuable(ss[1..], id, now)
      case None => None
      case Some(i) => Some(i + 1)
  }

  datatype SessionUpdate = SessionUpdate(sessions: seq<Session>, current: nat)

  /** The sessions and the current index after `_update_current_session(location, id)` at `now`. */
  function UpdateSessions(ss: seq<Session>, loc: GpsLocation, id: string, now: int): SessionUpdate
  {
    match FirstContinuable(ss, id, now)
    case Some(k) => SessionUpdate(ss[k := ss[k].(endTime := now)], k)
    case None => SessionUpdate(ss + [Session(loc, now, now, [], id)], |ss|)
  }

  /** Only `end_time` and `devices_seen` of an existing session ever change; sessions are never removed. */
  predicate Stable(before: seq<Session>, after: seq<Session>)
  {
    && |before| <= |after|
    && forall k :: 0 <= k < |before| ==>
         && after[k].location == before[k].location
         && after[k].startTime == before[k].startTime
         && after[k].sessionId == before[k].sessionId
  }

  /**
    The two outcomes of a session update: the first live session with the id is extended to
    `now` and nothing is appended, or exactly one fresh session starting and ending at `now`
    is appended. Either way the current session carries the id and ends at `now`.
  */
  lemma UpdateSessionsFacts(ss: seq<Session>, loc: GpsLocation, id: string, now: int)
    ensures var u := UpdateSessions(ss, loc, id, now);
      && u.current < |u.sessions|
      && u.sessions[u.current].sessionId == id
      && u.sessions[u.current].endTime == now
      && Stable(ss, u.sessions)
      && ((exists j :: 0 <= j < |ss| && ss[j].sessionId == id && now - ss[j].endTime <= SessionTimeout) <==> |u.sessions| == |ss|)
      && (|u.sessions| == |ss| ==> forall j :: 0 <= j < |ss| && j != u.current ==> u.sessions[j] == ss[j])
      && (|u.sessions| == |ss| + 1 ==> u.sessions == ss + [Session(loc, now, now, [], id)])
  {
    match FirstContinuable(ss, id, now)
    case Some(k) =>
      assert ss[k].sessionId == id && now - ss[k].endTime <= SessionTimeout;
    case None =>
  }

  /** A timed-out id is reused for the new session, so ids need not be unique. */
  lemma TimedOutIdReused(loc: GpsLocation)
    ensures var u := UpdateSessions([Session(loc, 0, 0, [], "home")], loc, "home", 601);
      |u.sessions| == 2 && u.sessions[0].sessionId == u.sessions[1].sessionId == "home"
  {
  }

  // ---------------------------------------------------------------------------
  // Devices

  /** `devices_seen.append(mac)` unless already present, on session `k`. */
  function AddDeviceTo(ss: seq<Session>, k: nat, mac: string): (r: seq<Session>)
    requires k < |ss|
    ensures |r| == |ss| && Stable(ss, r)
    ensures mac in r[k].devicesSeen
    ensures forall j :: 0 <= j < |ss| && j != k ==> r[j] == ss[j]
    ensures Distinct(ss[k].devicesSeen) ==> Distinct(r[k].devicesSeen)
    ensures forall m :: m in r[k].devicesSeen <==> m in ss[k].devicesSeen || m == mac
  {
    if mac in ss[k].devicesSeen then ss
    else ss[k := ss[k].(devicesSeen := ss[k].devicesSeen + [mac])]
  }

  /** Recording the same device twice is the same as once. */
  lemma AddDeviceIdempotent(ss: seq<Session>, k: nat, mac: string)
    requires k < |ss|
    ensures AddDeviceTo(AddDeviceTo(ss, k, mac), k, mac) == AddDeviceTo(ss, k, mac)
  {
  }

  /** The ids of the sessions whose devices include `mac`, each once, in session order. */
  function IdsOf(ss: seq<Session>, mac: string): (r: seq<string>)
    ensures Distinct(r)
    ensures forall id :: id in r <==> exists s :: s in ss && mac in s.devicesSeen && s.sessionId == id
    ensures forall k :: 0 <= k < |r| ==> exists s :: s in ss && mac in s.devicesSeen && s.sessionId == r[k]
  {
    if ss == [] then []
    else
      var init := ss[..|ss| - 1];
      var last := ss[|ss| - 1];
      assert ss == init + [last];
      var prev := IdsOf(init, mac);
      if mac in last.devicesSeen && last.sessionId !in prev then prev + [last.sessionId] else prev
  }

  /** The position of the first session that saw `mac` while carrying `id`. */
  function FirstSeenAt(ss: seq<Session>, mac: string, id: string): (i: nat)
    requires exists s :: s in ss && mac in s.devicesSeen && s.sessionId == id
    ensures i < |ss| && mac in ss[i].devicesSeen && ss[i].sessionId == id
    ensures forall j :: 0 <= j < i ==> !(mac in ss[j].devicesSeen && ss[j].sessionId == id)
  {
    if mac in ss[0].devicesSeen && ss[0].sessionId == id then 0
    else
      assert ss == [ss[0]] + ss[1..];
      assert exists s :: s in ss[1..] && mac in s.devicesSeen && s.sessionId == id by {
        var s :| s in ss && mac in s.devicesSeen && s.sessionId == id;
        assert s != ss[0];
      }
      1 + FirstSeenAt(ss[1..], mac, id)
  }

  /** A first sighting within the first `n` sessions is the first sighting in all of them. */
  lemma FirstSeenInPrefix(ss: seq<Session>, n: nat, mac: string, id: string)
    requires n <= |ss|
    requires exists s :: s in ss[..n] && mac in s.devicesSeen && s.sessionId == id
    ensures exists s :: s in ss && mac in s.devicesSeen && s.sessionId == id
    ensures FirstSeenAt(ss, mac, id) == FirstSeenAt(ss[..n], mac, id)
  {
    var t := ss[..n];
    var s :| s in t && mac in s.devicesSeen && s.sessionId == id;
    assert s in ss;
    var a := FirstSeenAt(t, mac, id);
    var b := FirstSeenAt(ss, mac, id);
    assert t[a] == ss[a];
  }

  /** The ids that saw `mac` come in the order of their first sighting. */
  lemma {:induction false} IdsOfOrdered(ss: seq<Session>, mac: string)
    ensures forall i, j :: 0 <= i < j < |IdsOf(ss, mac)| ==>
      FirstSeenAt(ss, mac, IdsOf(ss, mac)[i]) < FirstSeenAt(ss, mac, IdsOf(ss, mac)[j])
  {
    if ss != [] {
      var init := ss[..|ss| - 1];
      var last := ss[|ss| - 1];
      assert ss == init + [last];
      var prev := IdsOf(init, mac);
      var r := IdsOf(ss, mac);
      IdsOfOrdered(init, mac);
      forall k | 0 <= k < |prev|
        ensures FirstSeenAt(ss, mac, prev[k]) == FirstSeenAt(init, mac, prev[k])
      {
        assert prev[k] in prev;
        FirstSeenInPrefix(ss, |ss| - 1, mac, prev[k]);
      }
      if mac in last.devicesSeen && last.sessionId !in prev {
        var id := last.sessionId;
        assert r == prev + [id];
        assert FirstSeenAt(ss, mac, id) == |init|;
        forall i | 0 <= i < |prev|
          ensures FirstSeenAt(ss, mac, r[i]) < FirstSeenAt(ss, mac, r[|prev|])
        {
          assert r[i] == prev[i] && prev[i] in prev;
        }
      } else {
        assert r == prev;
      }
    }
  }

  /** Every MAC seen in some session. */
  function SeenMacs(ss: seq<Session>): set<string>
  {
    set s, m | s in ss && m in s.devicesSeen :: m
  }

  /** `get_devices_across_locations`: MACs whose sessions carry more than one id. */
  function MultiLocationDevices(ss: seq<Session>): map<string, seq<string>>
  {
    map m | m in SeenMacs(ss) && |IdsOf(ss, m)| > 1 :: IdsOf(ss, m)
  }

  /**
    A MAC is reported iff the sessions that saw it carry at least two different ids; its
    list holds each such id once.
  */
  lemma MultiLocationDevicesFacts(ss: seq<Session>, mac: string)
    ensures mac in MultiLocationDevices(ss) <==>
      exists s1, s2 :: s1 in ss && s2 in ss && mac in s1.devicesSeen && mac in s2.devicesSeen && s1.sessionId != s2.sessionId
    ensures mac in MultiLocationDevices(ss) ==>
      var ids := MultiLocationDevices(ss)[mac];
      Distinct(ids) && forall id :: id in ids <==> exists s :: s in ss && mac in s.devicesSeen && s.sessionId == id
  {
    var ids := IdsOf(ss, mac);
    if exists s1, s2 :: s1 in ss && s2 in ss && mac in s1.devicesSeen && mac in s2.devicesSeen && s1.sessionId != s2.sessionId {
      var s1, s2 :| s1 in ss && s2 in ss && mac in s1.devicesSeen && mac in s2.devicesSeen && s1.sessionId != s2.sessionId;
      assert s1.sessionId in ids && s2.sessionId in ids;
      assert mac in SeenMacs(ss);
    }
    if mac in MultiLocationDevices(ss) {
      assert ids[0] in ids && ids[1] in ids;
    }
  }

  /** The list reported for a MAC is its ids, each once, in the order of first sighting. */
  lemma ReportedIds(ss: seq<Session>, mac: string)
    requires mac in MultiLocationDevices(ss)
    ensures var ids := MultiLocationDevices(ss)[mac];
      && ids == IdsOf(ss, mac)
      && forall i, j :: 0 <= i < j < |ids| ==> FirstSeenAt(ss, mac, ids[i]) < FirstSeenAt(ss, mac, ids[j])
  {
    IdsOfOrdered(ss, mac);
  }

  // ---------------------------------------------------------------------------
  // The tracker

  class Tracker {
    var locations: seq<GpsLocation>
    var sessions: seq<Session>
    var current: Option<nat>

    ghost predicate Valid()
      reads this
    {
      && (current.Some? ==> current.value < |sessions|)
      && (forall k :: 0 <= k < |sessions| ==> Distinct(sessions[k].devicesSeen))
    }

    constructor ()
      ensures Valid()
      ensures locations == [] && sessions == [] && current == None
    {
      locations := [];
      sessions := [];
      current := None;
    }

    /** `_get_location_cluster_id(location)`. */
    method GetLocationClusterId(loc: GpsLocation, dist: (GpsLocation, GpsLocation) -> real, coordinateName: string)
      returns (id: string)
      ensures id == ClusterIdOf(sessions, loc, dist, coordinateName)
    {
      var i := 0;
      while i < |sessions|
        invariant 0 <= i <= |sessions|
        invariant forall j :: 0 <= j < i ==> !Near(dist, loc, sessions[j])
      {
        if dist(loc, sessions[i].location) <= LocationThreshold {
          assert FirstNear(sessions, loc, dist) == Some(i);
          return sessions[i].sessionId;
        }
        i := i + 1;
      }
      assert FirstNear(sessions, loc, dist).None?;
      var baseName := BaseName(loc, coordinateName);
      var existingIds := SessionIds(sessions);
      ghost var taken := set x | x in existingIds;
      var counter := 1;
      id := baseName;
      while id in existingIds
        invariant 1 <= counter
        invariant id == Candidate(baseName, counter - 1)
        invariant forall k :: 0 <= k < counter - 1 ==> Candidate(baseName, k) in taken
        decreases |taken| - counter
      {
        CandidatesBound(baseName, counter, taken);
        id := baseName + "_" + NatToString(counter);
        counter := counter + 1;
      }
      assert FreshSuffix(baseName, taken, 0) == counter - 1 by {
        FreshSuffixIsLeast(baseName, taken, counter - 1);
      }
    }

    /** `_update_current_session(location, location_id)` at time `now`. */
    method UpdateCurrentSession(loc: GpsLocation, id: string, now: int)
      requires Valid()
      modifies this
      ensures Valid()
      ensures var u := UpdateSessions(old(sessions), loc, id, now);
        sessions == u.sessions && current == Some(u.current)
      ensures locations == old(locations)
    {
      var found: Option<nat> := None;
      var i := 0;
      while i < |sessions|
        invariant 0 <= i <= |sessions|
        invariant sessions == old(sessions)
        invariant forall j :: 0 <= j < i ==> !(sessions[j].sessionId == id && now - sessions[j].endTime <= SessionTimeout)
      {
        if sessions[i].sessionId == id && now - sessions[i].endTime <= SessionTimeout {
          found := Some(i);
          break;
        }
        i := i + 1;
      }
      match found
      case Some(k) =>
        assert FirstContinuable(sessions, id, now) == Some(k);
        sessions := sessions[k := sessions[k].(endTime := now)];
        current := Some(k);
      case None =>
        assert FirstContinuable(sessions, id, now).None?;
        sessions := sessions + [Session(loc, now, now, [], id)];
        current := Some(|sessions| - 1);
    }

    /**
      `add_gps_reading`: the reading stamped `stamp` is recorded, clustered, and the
      session update runs at `now` (the source reads the clock twice).
    */
    method AddGpsReading(latitude: real, longitude: real, altitude: Option<real>, accuracy: Option<real>,
                         locationName: Option<string>, stamp: int, now: int,
                         dist: (GpsLocation, GpsLocation) -> real, coordinateName: string)
      returns (id: string)
      requires Valid()
      modifies this
      ensures Valid()
      ensures var loc := GpsLocation(latitude, longitude, altitude, stamp, accuracy, locationName);
        && locations == old(locations) + [loc]
        && id == ClusterIdOf(old(sessions), loc, dist, coordinateName)
        && sessions == UpdateSessions(old(sessions), loc, id, now).sessions
        && current == Some(UpdateSessions(old(sessions), loc, id, now).current)
    {
      var loc := GpsLocation(latitude, longitude, altitude, stamp, accuracy, locationName);
      locations := locations + [loc];
      id := GetLocationClusterId(loc, dist, coordinateName);
      UpdateCurrentSession(loc, id, now);
    }

    /** `add_device_at_current_location(mac)`. */
    method AddDeviceAtCurrentLocation(mac: string) returns (r: Option<string>)
      requires Valid()
      modifies this
      ensures Valid()
      ensures old(current).None? ==> r == None && sessions == old(sessions)
      ensures old(current).Some? ==>
        && sessions == AddDeviceTo(old(sessions), old(current).value, mac)
        && r == Some(sessions[old(current).value].sessionId)
      ensures current == old(current) && locations == old(locations)
    {
      if current.None? {
        return None;
      }
      var k := current.value;
      if mac !in sessions[k].devicesSeen {
        sessions := sessions[k := sessions[k].(devicesSeen := sessions[k].devicesSeen + [mac])];
      }
      r := Some(sessions[k].sessionId);
    }

    /** `get_current_location_id()`. */
    function CurrentLocationId(): (r: Option<string>)
      requires Valid()
      reads this
      ensures current.None? <==> r.None?
      ensures current.Some? ==> r == Some(sessions[current.value].sessionId)
    {
      match current
      case None => None
      case Some(k) => Some(sessions[k].sessionId)
    }

    /** `get_location_history()`: the sessions in a stable sort by start time. */
    function LocationHistory(): (r: seq<Session>)
      reads this
      ensures SortedBy(r, StartKey)
      ensures multiset(r) == multiset(sessions)
      ensures forall t :: WithKey(r, StartKey, t) == WithKey(sessions, StartKey, t)
    {
      SortBy(sessions, StartKey)
    }

    /** `get_devices_across_locations()`. */
    method GetDevicesAcrossLocations() returns (r: map<string, seq<string>>)
      ensures r == MultiLocationDevices(sessions)
    {
      r := DevicesAcrossSessions(sessions);
    }
  }

  /** The loops of `get_devices_across_locations` over a session list. */
  method DevicesAcrossSessions(ss: seq<Session>) returns (r: map<string, seq<string>>)
    ensures r == MultiLocationDevices(ss)
  {
    var deviceLocations: map<string, seq<string>> := map[];
    var i := 0;
    while i < |ss|
      invariant 0 <= i <= |ss|
      invariant deviceLocations == Gathered(ss[..i])
    {
      var session := ss[i];
      assert ss[..i + 1][..i] == ss[..i];
      deviceLocations := RecordSession(deviceLocations, session.devicesSeen, session.sessionId);
      i := i + 1;
    }
    assert ss[..i] == ss;
    r := map m | m in deviceLocations && |deviceLocations[m]| > 1 :: deviceLocations[m];
    GatheredIsIdsOf(ss);
  }

  /** The inner loop: adds `id` to the list of each device of `devices` that lacks it. */
  method RecordSession(dl: map<string, seq<string>>, devices: seq<string>, id: string) returns (r: map<string, seq<string>>)
    ensures r == RecordDevices(dl, devices, id)
  {
    r := dl;
    var j := 0;
    while j < |devices|
      invariant 0 <= j <= |devices|
      invariant r == RecordDevices(dl, devices[..j], id)
    {
      var mac := devices[j];
      assert devices[..j + 1][..j] == devices[..j];
      if mac !in r {
        r := r[mac := []];
      }
      if id !in r[mac] {
        r := r[mac := r[mac] + [id]];
      }
      j := j + 1;
    }
    assert devices[..j] == devices;
  }

  /** The device map after adding `id` for every device of `devices`, in order. */
  function RecordDevices(dl: map<string, seq<string>>, devices: seq<string>, id: string): map<string, seq<string>>
  {
    if devices == [] then dl
    else
      var init := RecordDevices(dl, devices[..|devices| - 1], id);
      var mac := devices[|devices| - 1];
      var prev := if mac in init then init[mac] else [];
      init[mac := if id in prev then prev else prev + [id]]
  }

  /** The device map `get_devices_across_locations()` builds over `ss`, before filtering. */
  function Gathered(ss: seq<Session>): map<string, seq<string>>
  {
    if ss == [] then map[]
    else
      var last := ss[|ss| - 1];
      RecordDevices(Gathered(ss[..|ss| - 1]), last.devicesSeen, last.sessionId)
  }

  /** Recording a session's devices adds `id` once to each of them and leaves the others. */
  lemma {:induction false} RecordDevicesFacts(dl: map<string, seq<string>>, devices: seq<string>, id: string, m: string)
    ensures m in RecordDevices(dl, devices, id) <==> m in dl || m in devices
    ensures m in devices ==>
      var prev := if m in dl then dl[m] else [];
      RecordDevices(dl, devices, id)[m] == if id in prev then prev else prev + [id]
    ensures m !in devices && m in dl ==> RecordDevices(dl, devices, id)[m] == dl[m]
  {
    if devices != [] {
      var init := devices[..|devices| - 1];
      assert devices == init + [devices[|devices| - 1]];
      RecordDevicesFacts(dl, init, id, m);
    }
  }

  /** Before filtering, the map holds exactly the seen devices, each with its `IdsOf`. */
  lemma {:induction false} GatheredIsIdsOf(ss: seq<Session>)
    ensures forall m :: m in Gathered(ss) <==> m in SeenMacs(ss)
    ensures forall m :: m in Gathered(ss) ==> Gathered(ss)[m] == IdsOf(ss, m)
  {
    if ss != [] {
      var init := ss[..|ss| - 1];
      var last := ss[|ss| - 1];
      assert ss == init + [last];
      GatheredIsIdsOf(init);
      forall m
        ensures m in Gathered(ss) <==> m in SeenMacs(ss)
        ensures m in Gathered(ss) ==> Gathered(ss)[m] == IdsOf(ss, m)
      {
        RecordDevicesFacts(Gathered(init), last.devicesSeen, last.sessionId, m);
        IdsOfSeen(init, m);
      }
    }
  }

  /** A device with a recorded id was seen in some session. */
  lemma IdsOfSeen(ss: seq<Session>, mac: string)
    ensures IdsOf(ss, mac) != [] ==> mac in SeenMacs(ss)
  {
    var ids := IdsOf(ss, mac);
    if ids != [] {
      assert ids[0] in ids;
      var s :| s in ss && mac in s.devicesSeen && s.sessionId == ids[0];
    }
  }

  function StartKey(s: Session): real
  {
    s.startTime as real
  }

  lemma FreshSuffixIsLeast(base: string, ids: set<string>, c: nat)
    requires Candidate(base, c) !in ids
    requires forall k :: 0 <= k < c ==> Candidate(base, k) in ids
    ensures FreshSuffix(base, ids, 0) == c
  {
  }
}
