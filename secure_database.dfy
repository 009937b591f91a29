/**
  The pure core of `secure_database.py`: row selection and device decoding of the
  Kismet queries over an abstract table, MAC and probe extraction, the time-window
  boundaries of `SecureTimeWindows`, and its two ignore-list filters.
*/
module SecureDatabase {
  import opened Wrappers
  import opened Json
  import opened PyStr

  // ---------------------------------------------------------------------------
  // Rows and device records

  /** A row of Kismet's `devices` table, restricted to the columns the queries read; NULL is `None`. */
  datatype Row = Row(devmac: Option<string>, devType: Option<string>, device: Option<string>, lastTime: int)

  /**
    The database as one query sees it: its rows in the order SQLite returns them, and
    whether the query succeeds (`reachable` is false for a closed connection or an SQLite error).
  */
  datatype Database = Database(rows: seq<Row>, reachable: bool)

  /** A device dictionary built by `get_devices_by_time_range`; `deviceData` is `JNull` for `None`. */
  datatype DeviceRecord = DeviceRecord(mac: Option<string>, devType: Option<string>, deviceData: Json, lastTime: int)

  /** A probe dictionary built by `get_probe_requests_by_time_range`. */
  datatype Probe = Probe(mac: Option<string>, ssid: string, timestamp: int)

  /** The `WHERE` clause: `last_time >= start`, and `last_time <= end` when an end is given. */
  predicate InRange(t: int, start: int, end: Option<int>)
  {
    start <= t && (end.Some? ==> t <= end.value)
  }

  /** The rows the parameterised query returns, in table order. */
  function SelectRows(rows: seq<Row>, start: int, end: Option<int>): (r: seq<Row>)
    ensures |r| <= |rows|
  {
    if rows == [] then []
    else (if InRange(rows[0].lastTime, start, end) then [rows[0]] else []) + SelectRows(rows[1..], start, end)
  }

  /** The selected rows are the rows in range, in table order. */
  lemma {:induction false} SelectRowsFacts(rows: seq<Row>, start: int, end: Option<int>)
    ensures IsSubseq(SelectRows(rows, start, end), rows)
    ensures forall row :: row in SelectRows(rows, start, end) <==> row in rows && InRange(row.lastTime, start, end)
  {
    if rows != [] {
      SelectRowsFacts(rows[1..], start, end);
      var rest := SelectRows(rows[1..], start, end);
      assert rows == [rows[0]] + rows[1..];
      if InRange(rows[0].lastTime, start, end) {
        assert SelectRows(rows, start, end) == [rows[0]] + rest;
        SubseqCons(rows[0], rest, rows[1..]);
      } else {
        assert SelectRows(rows, start, end) == rest;
        SubseqSkip(rows[0], rest, rows[1..]);
      }
    }
  }

  /**
    The decoded `device` column of a row that is kept: a JSON text that is present and
    non-empty is parsed with `parse`, and a decode error leaves `JNull`, as does a missing or
    empty text.
  */
  function DecodeDevice(device: Option<string>, parse: string -> Decoding): (j: Json)
    ensures (device.None? || device.value == []) ==> j == JNull
    ensures device.Some? && device.value != [] && parse(device.value).DecodeError? ==> j == JNull
    ensures device.Some? && device.value != [] && parse(device.value).Decoded? ==> j == parse(device.value).value
  {
    if device.Some? && device.value != [] then
      match parse(device.value)
      case Decoded(v) => v
      case _ => JNull
    else JNull
  }

  function RecordOf(row: Row, parse: string -> Decoding): DeviceRecord
  {
    DeviceRecord(row.devmac, row.devType, DecodeDevice(row.device, parse), row.lastTime)
  }

  /**
    A row the outer `except Exception: continue` skips: its `device` text is non-empty and
    `json.loads` raises an exception that the inner handler does not catch.
  */
  predicate RowSkipped(row: Row, parse: string -> Decoding)
  {
    row.device.Some? && row.device.value != [] && parse(row.device.value).OtherError?
  }

  /** The rows that are not skipped, in their order. */
  function KeptRows(rows: seq<Row>, parse: string -> Decoding): (r: seq<Row>)
    ensures IsSubseq(r, rows)
    ensures forall row :: row in r <==> row in rows && !RowSkipped(row, parse)
  {
    if rows == [] then []
    else
      var rest := KeptRows(rows[1..], parse);
      assert rows == [rows[0]] + rows[1..];
      SubseqFacts(rest, rows[1..]);
      if RowSkipped(rows[0], parse) then
        SubseqSkip(rows[0], rest, rows[1..]);
        rest
      else
        SubseqCons(rows[0], rest, rows[1..]);
        [rows[0]] + rest
  }

  /** The device list `get_devices_by_time_range` returns for the selected rows. */
  function Records(rows: seq<Row>, parse: string -> Decoding): (r: seq<DeviceRecord>)
    ensures |r| <= |rows|
  {
    if rows == [] then []
    else (if RowSkipped(rows[0], parse) then [] else [RecordOf(rows[0], parse)]) + Records(rows[1..], parse)
  }

  /** There is one record per row that is not skipped, and the `k`th is decoded from the `k`th such row. */
  lemma {:induction false} RecordsAt(rows: seq<Row>, parse: string -> Decoding)
    ensures |Records(rows, parse)| == |KeptRows(rows, parse)|
    ensures forall k :: 0 <= k < |KeptRows(rows, parse)| ==>
      Records(rows, parse)[k] == RecordOf(KeptRows(rows, parse)[k], parse)
  {
    if rows != [] {
      RecordsAt(rows[1..], parse);
      if RowSkipped(rows[0], parse) {
        assert Records(rows, parse) == Records(rows[1..], parse);
        assert KeptRows(rows, parse) == KeptRows(rows[1..], parse);
      } else {
        assert Records(rows, parse) == [RecordOf(rows[0], parse)] + Records(rows[1..], parse);
        assert KeptRows(rows, parse) == [rows[0]] + KeptRows(rows[1..], parse);
      }
    }
  }

  /** When `json.loads` raises nothing uncaught, every row yields one record, in row order. */
  lemma {:induction false} NoSkipRecordPerRow(rows: seq<Row>, parse: string -> Decoding)
    requires forall row :: row in rows ==> !RowSkipped(row, parse)
    ensures |Records(rows, parse)| == |rows|
    ensures forall k :: 0 <= k < |rows| ==> Records(rows, parse)[k] == RecordOf(rows[k], parse)
  {
    if rows != [] {
      assert rows[0] in rows;
      assert forall row :: row in rows[1..] ==> row in rows;
      NoSkipRecordPerRow(rows[1..], parse);
      assert Records(rows, parse) == [RecordOf(rows[0], parse)] + Records(rows[1..], parse);
    }
  }

  /** `get_devices_by_time_range(start_time, end_time)`. */
  method GetDevicesByTimeRange(db: Database, start: int, end: Option<int>, parse: string -> Decoding)
    returns (r: Result<seq<DeviceRecord>>)
    ensures !db.reachable <==> r.Raised?
    ensures r.Ok? ==> r.value == Records(SelectRows(db.rows, start, end), parse)
  {
    if !db.reachable {
      return Raised;
    }
    var rows := SelectRows(db.rows, start, end);
    var devices := DecodeRows(rows, parse);
    return Ok(devices);
  }

  /** The loop of `get_devices_by_time_range` over the fetched rows. */
  method DecodeRows(rows: seq<Row>, parse: string -> Decoding) returns (devices: seq<DeviceRecord>)
    ensures devices == Records(rows, parse)
  {
    devices := [];
    var i := 0;
    while i < |rows|
      invariant 0 <= i <= |rows|
      invariant devices + Records(rows[i..], parse) == Records(rows, parse)
    {
      RecordsStep(rows, i, parse);
      var device := DecodeRow(rows[i], parse);
      if device.Some? {
        assert devices + Records(rows[i..], parse) == (devices + [device.value]) + Records(rows[i + 1..], parse);
        devices := devices + [device.value];
      }
      i := i + 1;
    }
  }

  /** The records from row `i` on: row `i`'s record, unless it is skipped, then the rest. */
  lemma RecordsStep(rows: seq<Row>, i: nat, parse: string -> Decoding)
    requires i < |rows|
    ensures RowSkipped(rows[i], parse) ==> Records(rows[i..], parse) == Records(rows[i + 1..], parse)
    ensures !RowSkipped(rows[i], parse) ==>
      Records(rows[i..], parse) == [RecordOf(rows[i], parse)] + Records(rows[i + 1..], parse)
  {
    assert rows[i..][1..] == rows[i + 1..];
    if RowSkipped(rows[i], parse) {
      assert Records(rows[i..], parse) == [] + Records(rows[i + 1..], parse);
    }
  }

  /**
    One pass of the loop: the `device` blob is parsed when present, and a decode error leaves
    no data; an uncaught exception skips the row (`None`).
  */
  method DecodeRow(row: Row, parse: string -> Decoding) returns (d: Option<DeviceRecord>)
    ensures d.None? <==> RowSkipped(row, parse)
    ensures d.Some? ==> d.value == RecordOf(row, parse)
  {
    var deviceData := JNull;
    if row.device.Some? && row.device.value != [] {
      var parsed := parse(row.device.value);
      if parsed.OtherError? {
        return None;
      }
      if parsed.Decoded? {
        deviceData := parsed.value;
      }
    }
    d := Some(DeviceRecord(row.devmac, row.devType, deviceData, row.lastTime));
  }

  /**
    The records are those of the selected rows that are not skipped: every record is the
    record of such a row, and every such row yields its record. A row with an undecodable
    `device` blob still yields a record with no data.
  */
  lemma DevicesInRange(rows: seq<Row>, start: int, end: Option<int>, parse: string -> Decoding)
    ensures var r := Records(SelectRows(rows, start, end), parse);
      && (forall d :: d in r ==> InRange(d.lastTime, start, end))
      && (forall d :: d in r ==>
            exists row :: row in rows && InRange(row.lastTime, start, end) && !RowSkipped(row, parse) && d == RecordOf(row, parse))
      && (forall row :: row in rows && InRange(row.lastTime, start, end) && !RowSkipped(row, parse) ==> RecordOf(row, parse) in r)
  {
    var sel := SelectRows(rows, start, end);
    var kept := KeptRows(sel, parse);
    var r := Records(sel, parse);
    SelectRowsFacts(rows, start, end);
    RecordsAt(sel, parse);
    forall d | d in r
      ensures exists row :: row in rows && InRange(row.lastTime, start, end) && !RowSkipped(row, parse) && d == RecordOf(row, parse)
    {
      var k :| 0 <= k < |r| && r[k] == d;
      assert kept[k] in kept;
    }
    forall row | row in rows && InRange(row.lastTime, start, end) && !RowSkipped(row, parse)
      ensures RecordOf(row, parse) in r
    {
      assert row in kept;
      var k :| 0 <= k < |kept| && kept[k] == row;
      assert r[k] == RecordOf(row, parse);
    }
  }

  // ---------------------------------------------------------------------------
  // MAC addresses and probes

  /** `[device['mac'] for device in devices if device['mac']]`. */
  function Macs(devices: seq<DeviceRecord>): (r: seq<string>)
    ensures |r| <= |devices|
  {
    if devices == [] then []
    else
      var d := devices[0];
      (if d.mac.Some? && d.mac.value != [] then [d.mac.value] else []) + Macs(devices[1..])
  }

  /** The `mac` field of each device, in device order. */
  function MacColumn(devices: seq<DeviceRecord>): seq<Option<string>>
  {
    if devices == [] then [] else [devices[0].mac] + MacColumn(devices[1..])
  }

  /**
    A MAC is listed exactly when it is non-empty and some device carries it, and the list
    keeps device order: it is a subsequence of the `mac` column.
  */
  lemma {:induction false} MacsMembers(devices: seq<DeviceRecord>)
    ensures forall m :: m in Macs(devices) <==> m != [] && exists d :: d in devices && d.mac == Some(m)
    ensures IsSubseq(Somes(Macs(devices)), MacColumn(devices))
  {
    if devices != [] {
      MacsMembers(devices[1..]);
      assert devices == [devices[0]] + devices[1..];
      var d := devices[0];
      var rest := Macs(devices[1..]);
      if d.mac.Some? && d.mac.value != [] {
        assert ([d.mac.value] + rest)[1..] == rest;
        assert Somes(Macs(devices)) == [d.mac] + Somes(rest);
        SubseqCons(d.mac, Somes(rest), MacColumn(devices[1..]));
      } else {
        assert Macs(devices) == rest;
        SubseqSkip(d.mac, Somes(rest), MacColumn(devices[1..]));
      }
      assert MacColumn(devices) == [d.mac] + MacColumn(devices[1..]);
    }
  }

  /** `get_mac_addresses_by_time_range(start_time, end_time)`. */
  function GetMacAddressesByTimeRange(db: Database, start: int, end: Option<int>, parse: string -> Decoding)
    : (r: Result<seq<string>>)
    ensures !db.reachable <==> r.Raised?
  {
    if !db.reachable then Raised else Ok(Macs(Records(SelectRows(db.rows, start, end), parse)))
  }

  /** Every MAC returned is non-empty and is the `devmac` of a row in range. */
  lemma MacAddressesInRange(db: Database, start: int, end: Option<int>, parse: string -> Decoding)
    requires db.reachable
    ensures forall m :: m in GetMacAddressesByTimeRange(db, start, end, parse).value ==>
      m != [] && exists row :: row in db.rows && InRange(row.lastTime, start, end) && row.devmac == Some(m)
  {
    var sel := SelectRows(db.rows, start, end);
    var kept := KeptRows(sel, parse);
    var records := Records(sel, parse);
    SelectRowsFacts(db.rows, start, end);
    RecordsAt(sel, parse);
    MacsMembers(records);
    forall m | m in Macs(records)
      ensures exists row :: row in sel && row.devmac == Some(m)
    {
      var d :| d in records && d.mac == Some(m);
      var k :| 0 <= k < |kept| && records[k] == d;
      assert kept[k] in kept;
    }
  }

  /**
    The probe a device contributes: its data must be truthy and a dictionary, the nested
    `dot11.device` and `dot11.device.last_probed_ssid_record` levels dictionaries (a missing
    level counts as `{}`), and the SSID a non-empty string. A non-dictionary level raises
    inside the `try` and the device is skipped.
  */
  function ProbeOf(d: DeviceRecord): (p: Option<Probe>)
    ensures p.Some? ==> p.value.mac == d.mac && p.value.ssid != [] && p.value.timestamp == d.lastTime
    ensures p.Some? ==> d.deviceData.JObj?
  {
    if !Truthy(d.deviceData) || !d.deviceData.JObj? then None
    else
      var dot11 := Get(d.deviceData.fields, "dot11.device", JObj(map[]));
      if !dot11.JObj? then None
      else
        var record := Get(dot11.fields, "dot11.device.last_probed_ssid_record", JObj(map[]));
        if !record.JObj? then None
        else
          var ssid := Get(record.fields, "dot11.probedssid.ssid", JStr(""));
          if ssid.JStr? && ssid.s != [] then Some(Probe(d.mac, ssid.s, d.lastTime)) else None
  }

  /** The probes of `devices`, in device order. */
  function Probes(devices: seq<DeviceRecord>): (r: seq<Probe>)
    ensures |r| <= |devices|
  {
    if devices == [] then []
    else
      var p := ProbeOf(devices[0]);
      (if p.Some? then [p.value] else []) + Probes(devices[1..])
  }

  /** What each device contributes to the probe list, in device order. */
  function ProbeColumn(devices: seq<DeviceRecord>): seq<Option<Probe>>
  {
    if devices == [] then [] else [ProbeOf(devices[0])] + ProbeColumn(devices[1..])
  }

  /**
    A probe is listed exactly when some device contributes it, and the probes come in device
    order: they form a subsequence of what the devices contribute.
  */
  lemma {:induction false} ProbesMembers(devices: seq<DeviceRecord>)
    ensures forall p :: p in Probes(devices) <==> exists d :: d in devices && ProbeOf(d) == Some(p)
    ensures IsSubseq(Somes(Probes(devices)), ProbeColumn(devices))
  {
    if devices != [] {
      ProbesMembers(devices[1..]);
      assert devices == [devices[0]] + devices[1..];
      var p := ProbeOf(devices[0]);
      var rest := Probes(devices[1..]);
      if p.Some? {
        assert ([p.value] + rest)[1..] == rest;
        assert Somes(Probes(devices)) == [p] + Somes(rest);
        SubseqCons(p, Somes(rest), ProbeColumn(devices[1..]));
      } else {
        assert Probes(devices) == rest;
        SubseqSkip(p, Somes(rest), ProbeColumn(devices[1..]));
      }
      assert ProbeColumn(devices) == [p] + ProbeColumn(devices[1..]);
    }
  }

  /** The loop of `get_probe_requests_by_time_range` over the devices of the window. */
  method ExtractProbes(devices: seq<DeviceRecord>) returns (probes: seq<Probe>)
    ensures probes == Probes(devices)
    ensures forall p :: p in probes ==> p.ssid != []
  {
    probes := [];
    var i := 0;
    while i < |devices|
      invariant 0 <= i <= |devices|
      invariant probes + Probes(devices[i..]) == Probes(devices)
    {
      assert devices[i..][1..] == devices[i + 1..];
      var p := DeviceProbe(devices[i]);
      if p.Some? {
        probes := probes + [p.value];
      }
      i := i + 1;
    }
    ProbesMembers(devices);
  }

  /** The `try` block of the loop: the nested lookups, skipping the device on any failure. */
  method DeviceProbe(device: DeviceRecord) returns (p: Option<Probe>)
    ensures p == ProbeOf(device)
  {
    p := None;
    var deviceData := device.deviceData;
    if Truthy(deviceData) && deviceData.JObj? {
      var dot11 := Get(deviceData.fields, "dot11.device", JObj(map[]));
      if dot11.JObj? {
        var record := Get(dot11.fields, "dot11.device.last_probed_ssid_record", JObj(map[]));
        if record.JObj? {
          var ssid := Get(record.fields, "dot11.probedssid.ssid", JStr(""));
          if ssid.JStr? && ssid.s != [] {
            p := Some(Probe(device.mac, ssid.s, device.lastTime));
          }
        }
      }
    }
  }

  /** `get_probe_requests_by_time_range(start_time, end_time)`. */
  method GetProbeRequestsByTimeRange(db: Database, start: int, end: Option<int>, parse: string -> Decoding)
    returns (r: Result<seq<Probe>>)
    ensures !db.reachable <==> r.Raised?
    ensures r.Ok? ==> r.value == Probes(Records(SelectRows(db.rows, start, end), parse))
  {
    var devices := GetDevicesByTimeRange(db, start, end, parse);
    if devices.Raised? {
      return Raised;
    }
    var probes := ExtractProbes(devices.value);
    return Ok(probes);
  }

  /** Every probe comes from a row in range, carries that row's stamp and a non-empty SSID. */
  lemma ProbesInRange(rows: seq<Row>, start: int, end: Option<int>, parse: string -> Decoding)
    ensures forall p :: p in Probes(Records(SelectRows(rows, start, end), parse)) ==>
      p.ssid != [] && InRange(p.timestamp, start, end)
  {
    DevicesInRange(rows, start, end, parse);
    ProbesMembers(Records(SelectRows(rows, start, end), parse));
  }

  // ---------------------------------------------------------------------------
  // Time windows

  /** The windows used when the configuration has none: minutes back from now. */
  const DefaultWindows: map<string, Json> :=
    map["recent" := JNum(5.0), "medium" := JNum(10.0), "old" := JNum(15.0), "oldest" := JNum(20.0)]

  /** The seconds back from now of the `current_time` boundary (two minutes). */
  const CurrentOffset: int := 120

  /**
    `SecureTimeWindows.__init__`: `config.get('timing', {}).get('time_windows', defaults)`.
    `Raised` when `config` or its `timing` entry is not a dictionary (the `.get` raises).
  */
  function ConfiguredWindows(config: Json): (r: Result<Json>)
    ensures r.Raised? <==> !config.JObj? || ("timing" in config.fields && !config.fields["timing"].JObj?)
    ensures r.Ok? && "timing" in config.fields && "time_windows" in config.fields["timing"].fields ==>
      r.value == config.fields["timing"].fields["time_windows"]
    ensures r.Ok? && ("timing" !in config.fields || "time_windows" !in config.fields["timing"].fields) ==>
      r.value == JObj(DefaultWindows)
  {
    if !config.JObj? then Raised
    else
      var timing := Get(config.fields, "timing", JObj(map[]));
      if !timing.JObj? then Raised
      else Ok(Get(timing.fields, "time_windows", JObj(DefaultWindows)))
  }

  /**
    The boundary `minutes` back from `now`, truncated to a whole second as
    `time.mktime(boundary.timetuple())` does.
  */
  function WindowBoundary(now: int, minutes: real): (b: int)
    ensures b <= now - 60 * minutes.Floor || minutes.Floor as real != minutes
    ensures minutes.Floor as real == minutes ==> b == now - 60 * minutes.Floor
  {
    (now as real - 60.0 * minutes).Floor
  }

  /** The boundary name of a window: `f'{window_name}_time'`. */
  function TimeKey(name: string): string
  {
    name + "_time"
  }

  /** The name of the boundary that `get_time_boundaries` always adds. */
  const CurrentKey: string := "current_time"

  /** Different windows get different boundary names. */
  lemma TimeKeyInjective()
    ensures forall a, b :: TimeKey(a) == TimeKey(b) ==> a == b
  {
    forall a, b | TimeKey(a) == TimeKey(b)
      ensures a == b
    {
      assert |a| == |b|;
      assert a == TimeKey(a)[..|a|];
      assert b == TimeKey(b)[..|b|];
    }
  }

  predicate AllNumbers(windows: map<string, Json>)
  {
    forall k :: k in windows ==> IsNumber(windows[k])
  }

  /** The boundaries of the windows named in `done`, keyed by boundary name. */
  function Named(windows: map<string, Json>, done: set<string>, now: int): map<string, int>
    requires done <= windows.Keys && AllNumbers(windows)
  {
    TimeKeyInjective();
    map k | k in done :: TimeKey(k) := WindowBoundary(now, NumValue(windows[k]))
  }

  /** One more window adds exactly its own boundary. */
  lemma NamedAdd(windows: map<string, Json>, done: set<string>, name: string, now: int)
    requires done <= windows.Keys && AllNumbers(windows)
    requires name in windows && name !in done
    ensures Named(windows, done + {name}, now) ==
      Named(windows, done, now)[TimeKey(name) := WindowBoundary(now, NumValue(windows[name]))]
  {
    TimeKeyInjective();
  }

  /**
    The dictionary `get_time_boundaries` returns when every window value is a number:
    one boundary per window, then `current_time`, which overwrites a window named `current`.
  */
  function Boundaries(windows: map<string, Json>, now: int): map<string, int>
    requires AllNumbers(windows)
  {
    Named(windows, windows.Keys, now)[CurrentKey := now - CurrentOffset]
  }

  /**
    `get_time_boundaries()` at clock reading `now` (whole seconds). `Raised` when the
    configured windows are not a dictionary (`.items()` raises) or a value is not a number
    (`timedelta` raises).
  */
  function TimeBoundaries(timeWindows: Json, now: int): (r: Result<map<string, int>>)
    ensures r.Raised? <==> !timeWindows.JObj? || !AllNumbers(timeWindows.fields)
  {
    if timeWindows.JObj? && AllNumbers(timeWindows.fields) then Ok(Boundaries(timeWindows.fields, now))
    else Raised
  }

  /** The boundary names are `current_time` and one name per window. */
  lemma BoundaryKeys(windows: map<string, Json>, now: int)
    requires AllNumbers(windows)
    ensures Boundaries(windows, now).Keys == (set k | k in windows :: TimeKey(k)) + {CurrentKey}
  {
  }

  /** `current_time` is two minutes back; every other window's boundary is its own minutes back. */
  lemma BoundaryAt(windows: map<string, Json>, now: int, k: string)
    requires AllNumbers(windows)
    ensures Boundaries(windows, now)[CurrentKey] == now - CurrentOffset
    ensures k in windows && k != "current" ==>
      Boundaries(windows, now)[TimeKey(k)] == WindowBoundary(now, NumValue(windows[k]))
  {
    if k in windows && k != "current" {
      TimeKeyInjective();
      assert CurrentKey == TimeKey("current");
    }
  }

  /** The loop of `get_time_boundaries()`, one window at a time. */
  method GetTimeBoundaries(timeWindows: Json, now: int) returns (r: Result<map<string, int>>)
    ensures r == TimeBoundaries(timeWindows, now)
  {
    if !timeWindows.JObj? {
      return Raised;
    }
    var windows := timeWindows.fields;
    var boundaries: map<string, int> := map[];
    var remaining := windows.Keys;
    ghost var done: set<string> := {};
    while remaining != {}
      invariant done == windows.Keys - remaining && remaining <= windows.Keys
      invariant forall k :: k in done ==> IsNumber(windows[k])
      invariant AllNumbers(windows) ==> boundaries == Named(windows, done, now)
      decreases |remaining|
    {
      var name :| name in remaining;
      var minutes := windows[name];
      if !IsNumber(minutes) {
        return Raised;
      }
      if AllNumbers(windows) {
        NamedAdd(windows, done, name, now);
      }
      boundaries := boundaries[TimeKey(name) := WindowBoundary(now, NumValue(minutes))];
      remaining := remaining - {name};
      done := done + {name};
    }
    boundaries := boundaries[CurrentKey := now - CurrentOffset];
    return Ok(boundaries);
  }

  /** With the default windows there are exactly five boundaries. */
  lemma DefaultBoundaryKeys(now: int)
    ensures TimeBoundaries(JObj(DefaultWindows), now).Ok?
    ensures TimeBoundaries(JObj(DefaultWindows), now).value.Keys ==
      {TimeKey("recent"), TimeKey("medium"), TimeKey("old"), TimeKey("oldest"), CurrentKey}
  {
    assert AllNumbers(DefaultWindows);
    BoundaryKeys(DefaultWindows, now);
  }

  /**
    With the default windows the boundaries run from now backwards:
    `now > current_time > recent_time > medium_time > old_time > oldest_time`.
  */
  lemma DefaultBoundariesOrdered(now: int)
    ensures TimeBoundaries(JObj(DefaultWindows), now).Ok?
    ensures var b := TimeBoundaries(JObj(DefaultWindows), now).value;
      CurrentKey in b && TimeKey("recent") in b && TimeKey("medium") in b && TimeKey("old") in b && TimeKey("oldest") in b &&
      now > b[CurrentKey] > b[TimeKey("recent")] > b[TimeKey("medium")] > b[TimeKey("old")] > b[TimeKey("oldest")]
  {
    DefaultBoundaryKeys(now);
    BoundaryAt(DefaultWindows, now, "recent");
    BoundaryAt(DefaultWindows, now, "medium");
    BoundaryAt(DefaultWindows, now, "old");
    BoundaryAt(DefaultWindows, now, "oldest");
  }

  // ---------------------------------------------------------------------------
  // Ignore-list filters

  /** The uppercased ignore set of `filter_devices_by_ignore_list`. */
  function UpperSet(ignoreList: seq<string>): set<string>
  {
    set y | y in ignoreList :: Upper(y)
  }

  /** A device the MAC filter keeps: a string whose uppercase is not in the ignore set. */
  predicate KeepsDevice(d: Json, ignored: set<string>)
  {
    d.JStr? && Upper(d.s) !in ignored
  }

  /** The devices the MAC filter keeps, in order. */
  function KeptDevices(devices: seq<Json>, ignored: set<string>): (r: seq<Json>)
    ensures |r| <= |devices|
  {
    if devices == [] then []
    else (if KeepsDevice(devices[0], ignored) then [devices[0]] else []) + KeptDevices(devices[1..], ignored)
  }

  /** The kept devices are the devices the filter keeps, in order. */
  lemma {:induction false} KeptDevicesFacts(devices: seq<Json>, ignored: set<string>)
    ensures IsSubseq(KeptDevices(devices, ignored), devices)
    ensures forall d :: d in KeptDevices(devices, ignored) <==> d in devices && KeepsDevice(d, ignored)
  {
    if devices != [] {
      KeptDevicesFacts(devices[1..], ignored);
      var rest := KeptDevices(devices[1..], ignored);
      assert devices == [devices[0]] + devices[1..];
      if KeepsDevice(devices[0], ignored) {
        assert KeptDevices(devices, ignored) == [devices[0]] + rest;
        SubseqCons(devices[0], rest, devices[1..]);
      } else {
        assert KeptDevices(devices, ignored) == rest;
        SubseqSkip(devices[0], rest, devices[1..]);
      }
    }
  }

  /** `filter_devices_by_ignore_list(devices, ignore_list)`: an empty ignore list returns the input as is. */
  method FilterDevicesByIgnoreList(devices: seq<Json>, ignoreList: seq<string>) returns (r: seq<Json>)
    ensures ignoreList == [] ==> r == devices
    ensures ignoreList != [] ==> r == KeptDevices(devices, UpperSet(ignoreList))
  {
    if ignoreList == [] {
      return devices;
    }
    var ignoreSet := UpperSet(ignoreList);
    var filtered: seq<Json> := [];
    var i := 0;
    while i < |devices|
      invariant 0 <= i <= |devices|
      invariant filtered + KeptDevices(devices[i..], ignoreSet) == KeptDevices(devices, ignoreSet)
    {
      assert devices[i..][1..] == devices[i + 1..];
      var device := devices[i];
      if KeepsDevice(device, ignoreSet) {
        filtered := filtered + [device];
      }
      i := i + 1;
    }
    return filtered;
  }

  /**
    A non-empty ignore list keeps a device iff it is a string that matches no ignore
    entry case-insensitively, and kept devices keep their original case.
  */
  lemma FilterDevicesFacts(devices: seq<Json>, ignoreList: seq<string>, d: Json)
    requires ignoreList != []
    ensures d in KeptDevices(devices, UpperSet(ignoreList)) <==>
      d in devices && d.JStr? && forall y :: y in ignoreList ==> Upper(y) != Upper(d.s)
  {
    KeptDevicesFacts(devices, UpperSet(ignoreList));
    if d in devices && d.JStr? && Upper(d.s) in UpperSet(ignoreList) {
      var y :| y in ignoreList && Upper(d.s) == Upper(y);
    }
  }

  /** The string entries of `ssids` that are not ignored, exactly as written, in order. */
  function KeptSsids(ssids: seq<Json>, ignored: set<string>): (r: seq<Json>)
    ensures |r| <= |ssids|
  {
    if ssids == [] then []
    else (if ssids[0].JStr? && ssids[0].s !in ignored then [ssids[0]] else []) + KeptSsids(ssids[1..], ignored)
  }

  /** The kept SSIDs are the string entries not in the ignore set, in order. */
  lemma {:induction false} KeptSsidsFacts(ssids: seq<Json>, ignored: set<string>)
    ensures IsSubseq(KeptSsids(ssids, ignored), ssids)
    ensures forall x :: x in KeptSsids(ssids, ignored) <==> x in ssids && x.JStr? && x.s !in ignored
  {
    if ssids != [] {
      KeptSsidsFacts(ssids[1..], ignored);
      var rest := KeptSsids(ssids[1..], ignored);
      assert ssids == [ssids[0]] + ssids[1..];
      if ssids[0].JStr? && ssids[0].s !in ignored {
        assert KeptSsids(ssids, ignored) == [ssids[0]] + rest;
        SubseqCons(ssids[0], rest, ssids[1..]);
      } else {
        assert KeptSsids(ssids, ignored) == rest;
        SubseqSkip(ssids[0], rest, ssids[1..]);
      }
    }
  }

  /** `filter_ssids_by_ignore_list(ssids, ignore_list)`: matching is exact and case-sensitive. */
  method FilterSsidsByIgnoreList(ssids: seq<Json>, ignoreList: seq<string>) returns (r: seq<Json>)
    ensures ignoreList == [] ==> r == ssids
    ensures ignoreList != [] ==> r == KeptSsids(ssids, set y | y in ignoreList)
  {
    if ignoreList == [] {
      return ssids;
    }
    var ignoreSet := set y | y in ignoreList;
    var filtered: seq<Json> := [];
    var i := 0;
    while i < |ssids|
      invariant 0 <= i <= |ssids|
      invariant filtered + KeptSsids(ssids[i..], ignoreSet) == KeptSsids(ssids, ignoreSet)
    {
      assert ssids[i..][1..] == ssids[i + 1..];
      var ssid := ssids[i];
      if ssid.JStr? && ssid.s !in ignoreSet {
        filtered := filtered + [ssid];
      }
      i := i + 1;
    }
    return filtered;
  }

  /** Unlike the MAC filter, an SSID that differs from an ignore entry only in case is kept. */
  lemma SsidFilterIsCaseSensitive()
    ensures KeptSsids([JStr("home")], set y | y in ["HOME"]) == [JStr("home")]
    ensures KeptDevices([JStr("aa:bb")], UpperSet(["AA:BB"])) == []
  {
    assert "home" !in (set y | y in ["HOME"]);
    assert Upper("aa:bb") == "AA:BB";
    assert Upper("AA:BB") == "AA:BB";
  }
}
