/**
  `SecureCYTMonitor` of `secure_main_logic.py`: four chained MAC buckets and four SSID
  buckets (past 5 minutes, 5-10, 10-15 and 15-20 minutes ago), filled from time-window
  queries, checked for reappearances and rotated one window at a time.
*/
module SecureMainLogic {
  import opened Wrappers
  import opened Json
  import opened PyStr
  import opened SecureDatabase

  /** The older buckets a reappearance is reported against; the past-5 bucket is never checked. */
  datatype Window = FiveTen | TenFifteen | FifteenTwenty

  /** One reported reappearance: a MAC or a probed SSID found in an older bucket. */
  datatype Alert = MacSeen(mac: string, window: Window) | SsidProbed(ssid: string, window: Window)

  /** The boundary keys the initialisation reads, newest first: `recent_time` to `oldest_time`. */
  const WindowKeys: seq<string> := [TimeKey("recent"), TimeKey("medium"), TimeKey("old"), TimeKey("oldest")]

  /** How many of `WindowKeys`, from the newest, are present in `b` before the first missing one. */
  function Reached(b: map<string, int>): (n: nat)
    ensures n <= 4
  {
    if WindowKeys[0] !in b then 0
    else if WindowKeys[1] !in b then 1
    else if WindowKeys[2] !in b then 2
    else if WindowKeys[3] !in b then 3
    else 4
  }

  /** The keys before the first missing one are all present, and it is missing. */
  lemma ReachedWindows(b: map<string, int>)
    ensures forall k :: 0 <= k < Reached(b) ==> WindowKeys[k] in b
    ensures Reached(b) < 4 ==> WindowKeys[Reached(b)] !in b
  {
  }

  /**
    The database as one monitor method sees it across its queries: the rows every query
    reads, and which queries raise an `sqlite3.Error`. Each `get_*` call runs its own
    `execute_safe_query`, so a query can fail after an earlier one in the same method
    succeeded. The MAC query of window `k` is numbered `k`, the SSID query of window `k`
    is numbered `4 + k`.
  */
  datatype Connection = Connection(rows: seq<Row>, failing: set<nat>)

  /** The outcome of the MAC query of window `k`. */
  function MacQuery(c: Connection, k: nat): Database
  {
    Database(c.rows, k !in c.failing)
  }

  /** The outcome of the SSID query of window `k`. */
  function SsidQuery(c: Connection, k: nat): Database
  {
    Database(c.rows, 4 + k !in c.failing)
  }

  /**
    How many windows, from the newest, have their query numbered `base + k` run and
    succeed before the first missing boundary key or the first failing query.
  */
  function Completed(c: Connection, base: nat, b: map<string, int>): (n: nat)
    ensures n <= Reached(b)
    ensures n > 0 <==> WindowKeys[0] in b && base !in c.failing
  {
    var r := Reached(b);
    if r == 0 || base in c.failing then 0
    else if r == 1 || base + 1 in c.failing then 1
    else if r == 2 || base + 2 in c.failing then 2
    else if r == 3 || base + 3 in c.failing then 3
    else 4
  }

  /** The windows before that point have their keys and succeeding queries; the window at it lacks one of the two. */
  lemma CompletedWindows(c: Connection, base: nat, b: map<string, int>)
    ensures forall k :: 0 <= k < Completed(c, base, b) ==> WindowKeys[k] in b && base + k !in c.failing
    ensures Completed(c, base, b) < 4 ==>
      WindowKeys[Completed(c, base, b)] !in b || base + Completed(c, base, b) in c.failing
  {
    ReachedWindows(b);
  }

  /** The boundaries bucket `k`'s query reads are present: its own and, past the first, the next newer one. */
  predicate HasWindow(b: map<string, int>, k: nat)
    requires k < 4
  {
    WindowKeys[k] in b && (k > 0 ==> WindowKeys[k - 1] in b)
  }

  /** The `(start, end)` of bucket `k`: the past-5 bucket is open-ended, the others end at the next newer boundary. */
  function WindowRange(b: map<string, int>, k: nat): (int, Option<int>)
    requires k < 4 && HasWindow(b, k)
  {
    if k == 0 then (b[WindowKeys[0]], None) else (b[WindowKeys[k]], Some(b[WindowKeys[k - 1]]))
  }

  /** The MACs of bucket `k`'s window, as `get_mac_addresses_by_time_range` returns them. */
  function WindowMacs(db: Database, b: map<string, int>, k: nat, parse: string -> Decoding): seq<string>
    requires k < 4 && db.reachable && HasWindow(b, k)
  {
    GetMacAddressesByTimeRange(db, WindowRange(b, k).0, WindowRange(b, k).1, parse).value
  }

  /** `[p['ssid'] for p in probes]`. */
  function SsidsOf(probes: seq<Probe>): (r: seq<string>)
    ensures |r| == |probes|
  {
    if probes == [] then [] else [probes[0].ssid] + SsidsOf(probes[1..])
  }

  /** The SSIDs probed in bucket `k`'s window. */
  function WindowSsids(db: Database, b: map<string, int>, k: nat, parse: string -> Decoding): seq<string>
    requires k < 4 && db.reachable && HasWindow(b, k)
  {
    SsidsOf(Probes(Records(SelectRows(db.rows, WindowRange(b, k).0, WindowRange(b, k).1), parse)))
  }

  /**
    A window query of the initialisation: look up the window's boundaries (a missing one
    raises `KeyError`), then run `get_mac_addresses_by_time_range` over them.
  */
  method QueryWindowMacs(db: Database, b: map<string, int>, k: nat, parse: string -> Decoding)
    returns (r: Result<seq<string>>)
    requires k < 4
    ensures r.Ok? <==> db.reachable && HasWindow(b, k)
    ensures r.Ok? ==> r.value == WindowMacs(db, b, k, parse)
  {
    if !HasWindow(b, k) {
      return Raised;
    }
    var end := if k == 0 then None else Some(b[WindowKeys[k - 1]]);
    r := GetMacAddressesByTimeRange(db, b[WindowKeys[k]], end, parse);
  }

  /** As `QueryWindowMacs`, with `get_probe_requests_by_time_range` and the probes' SSIDs. */
  method QueryWindowSsids(db: Database, b: map<string, int>, k: nat, parse: string -> Decoding)
    returns (r: Result<seq<string>>)
    requires k < 4
    ensures r.Ok? <==> db.reachable && HasWindow(b, k)
    ensures r.Ok? ==> r.value == WindowSsids(db, b, k, parse)
  {
    if !HasWindow(b, k) {
      return Raised;
    }
    var end := if k == 0 then None else Some(b[WindowKeys[k - 1]]);
    var probes := GetProbeRequestsByTimeRange(db, b[WindowKeys[k]], end, parse);
    if probes.Raised? {
      return Raised;
    }
    return Ok(SsidsOf(probes.value));
  }

  /** A MAC bucket as the filter leaves it: uppercase MACs, none ignored. */
  predicate MacsOk(bucket: set<string>, ignored: set<string>)
  {
    forall m :: m in bucket ==> IsUpperCase(m) && m !in ignored
  }

  /** An SSID bucket as the filter leaves it: non-empty SSIDs, none ignored. */
  predicate SsidsOk(bucket: set<string>, ignored: set<string>)
  {
    forall s :: s in bucket ==> s != [] && s !in ignored
  }

  class Monitor {
    /** The MAC ignore list, stored uppercased. */
    var ignoreList: set<string>
    /** The SSID ignore list, stored exactly as given. */
    var ssidIgnoreList: set<string>
    /** The windows of the monitor's `SecureTimeWindows` (see `ConfiguredWindows`). */
    var timeWindows: Json

    var pastFiveMacs: set<string>
    var fiveTenMacs: set<string>
    var tenFifteenMacs: set<string>
    var fifteenTwentyMacs: set<string>

    var pastFiveSsids: set<string>
    var fiveTenSsids: set<string>
    var tenFifteenSsids: set<string>
    var fifteenTwentySsids: set<string>

    /** Every bucketed MAC is uppercase and not ignored; every bucketed SSID is non-empty and not ignored. */
    ghost predicate Valid()
      reads this
    {
      MacsOk(pastFiveMacs, ignoreList) && MacsOk(fiveTenMacs, ignoreList) &&
      MacsOk(tenFifteenMacs, ignoreList) && MacsOk(fifteenTwentyMacs, ignoreList) &&
      SsidsOk(pastFiveSsids, ssidIgnoreList) && SsidsOk(fiveTenSsids, ssidIgnoreList) &&
      SsidsOk(tenFifteenSsids, ssidIgnoreList) && SsidsOk(fifteenTwentySsids, ssidIgnoreList)
    }

    /** `SecureCYTMonitor.__init__`: the buckets start empty. */
    constructor (macIgnore: seq<string>, ssidIgnore: seq<string>, windows: Json)
      ensures Valid()
      ensures ignoreList == set m | m in macIgnore :: Upper(m)
      ensures ssidIgnoreList == set s | s in ssidIgnore
      ensures timeWindows == windows
      ensures pastFiveMacs == fiveTenMacs == tenFifteenMacs == fifteenTwentyMacs == {}
      ensures pastFiveSsids == fiveTenSsids == tenFifteenSsids == fifteenTwentySsids == {}
    {
      ignoreList := set m | m in macIgnore :: Upper(m);
      ssidIgnoreList := set s | s in ssidIgnore;
      timeWindows := windows;
      pastFiveMacs, fiveTenMacs, tenFifteenMacs, fifteenTwentyMacs := {}, {}, {}, {};
      pastFiveSsids, fiveTenSsids, tenFifteenSsids, fifteenTwentySsids := {}, {}, {}, {};
    }

    /** The MAC bucket a window names. */
    function MacBucket(w: Window): set<string>
      reads this`fiveTenMacs, this`tenFifteenMacs, this`fifteenTwentyMacs
    {
      match w
      case FiveTen => fiveTenMacs
      case TenFifteen => tenFifteenMacs
      case FifteenTwenty => fifteenTwentyMacs
    }

    /** The SSID bucket a window names. */
    function SsidBucket(w: Window): set<string>
      reads this`fiveTenSsids, this`tenFifteenSsids, this`fifteenTwentySsids
    {
      match w
      case FiveTen => fiveTenSsids
      case TenFifteen => tenFifteenSsids
      case FifteenTwenty => fifteenTwentySsids
    }

    /**
      `_filter_macs`: the uppercase images of the MACs whose uppercase is not ignored;
      the result is all uppercase and avoids the ignore list.
    */
    function FilterMacs(macList: seq<string>): (r: set<string>)
      reads this`ignoreList
      ensures MacsOk(r, ignoreList)
    {
      assert forall m :: m in macList ==> IsUpperCase(Upper(m)) by {
        forall m | m in macList
          ensures IsUpperCase(Upper(m))
        {
          UpperIsUpperCase(m);
        }
      }
      set m | m in macList && Upper(m) !in ignoreList :: Upper(m)
    }

    /** `_filter_ssids`: the non-empty SSIDs that are not ignored, case kept. */
    function FilterSsids(ssidList: seq<string>): (r: set<string>)
      reads this`ssidIgnoreList
      ensures SsidsOk(r, ssidIgnoreList)
    {
      set s | s in ssidList && s != [] && s !in ssidIgnoreList
    }

    /**
      The MAC filter compares case-insensitively: a listed MAC contributes its uppercase
      image unless that image is ignored, and nothing else enters the result.
    */
    lemma FilterMacsFacts(macList: seq<string>)
      ensures forall m :: m in macList ==> (Upper(m) in FilterMacs(macList) <==> Upper(m) !in ignoreList)
      ensures forall x :: x in FilterMacs(macList) ==> exists m :: m in macList && x == Upper(m)
    {
    }

    /** The SSID filter keeps exactly the listed non-empty SSIDs that are not ignored. */
    lemma FilterSsidsFacts(ssidList: seq<string>)
      ensures forall s :: s in FilterSsids(ssidList) <==> s in ssidList && s != [] && s !in ssidIgnoreList
    {
    }

    /** MAC bucket `k` after its window query: refilled when the query runs, else `prior`. */
    function MacBucketAfter(c: Connection, b: map<string, int>, k: nat, parse: string -> Decoding, prior: set<string>): set<string>
      requires k < 4
      reads this`ignoreList
    {
      ReachedWindows(b);
      CompletedWindows(c, 0, b);
      if k < Completed(c, 0, b) then FilterMacs(WindowMacs(MacQuery(c, k), b, k, parse)) else prior
    }

    /** SSID bucket `k` after its window query: refilled when the query runs, else `prior`. */
    function SsidBucketAfter(c: Connection, b: map<string, int>, k: nat, parse: string -> Decoding, prior: set<string>): set<string>
      requires k < 4
      reads this`ssidIgnoreList
    {
      ReachedWindows(b);
      CompletedWindows(c, 4, b);
      if k < Completed(c, 4, b) then FilterSsids(WindowSsids(SsidQuery(c, k), b, k, parse)) else prior
    }

    /**
      `_initialize_mac_lists`: each bucket gets the filtered MACs of its window, newest
      first. A missing boundary or a failing query raises and leaves that bucket and the
      older ones as they were.
    */
    method InitializeMacLists(c: Connection, b: map<string, int>, parse: string -> Decoding) returns (raised: bool)
      requires Valid()
      modifies this`pastFiveMacs, this`fiveTenMacs, this`tenFifteenMacs, this`fifteenTwentyMacs
      ensures Valid()
      ensures raised <==> Completed(c, 0, b) < 4
      ensures pastFiveMacs == MacBucketAfter(c, b, 0, parse, old(pastFiveMacs))
      ensures fiveTenMacs == MacBucketAfter(c, b, 1, parse, old(fiveTenMacs))
      ensures tenFifteenMacs == MacBucketAfter(c, b, 2, parse, old(tenFifteenMacs))
      ensures fifteenTwentyMacs == MacBucketAfter(c, b, 3, parse, old(fifteenTwentyMacs))
      ensures ignoreList == old(ignoreList) && ssidIgnoreList == old(ssidIgnoreList) && timeWindows == old(timeWindows)
      ensures pastFiveSsids == old(pastFiveSsids) && fiveTenSsids == old(fiveTenSsids)
      ensures tenFifteenSsids == old(tenFifteenSsids) && fifteenTwentySsids == old(fifteenTwentySsids)
    {
      CompletedWindows(c, 0, b);
      var ok, bucket := RefillMacs(MacQuery(c, 0), b, 0, parse);
      if !ok {
        return true;
      }
      pastFiveMacs := bucket;
      ok, bucket := RefillMacs(MacQuery(c, 1), b, 1, parse);
      if !ok {
        return true;
      }
      fiveTenMacs := bucket;
      ok, bucket := RefillMacs(MacQuery(c, 2), b, 2, parse);
      if !ok {
        return true;
      }
      tenFifteenMacs := bucket;
      ok, bucket := RefillMacs(MacQuery(c, 3), b, 3, parse);
      if !ok {
        return true;
      }
      fifteenTwentyMacs := bucket;
      return false;
    }

    /**
      One window of `_initialize_mac_lists`, once the newer windows have been filled: the
      query runs exactly when the window is reached, and its MACs are filtered.
    */
    method RefillMacs(db: Database, b: map<string, int>, k: nat, parse: string -> Decoding) returns (ok: bool, bucket: set<string>)
      requires k < 4 && (k == 0 || k <= Reached(b))
      ensures ok <==> db.reachable && k < Reached(b)
      ensures ok ==> bucket == FilterMacs(WindowMacs(db, b, k, parse)) && MacsOk(bucket, ignoreList)
    {
      ReachedWindows(b);
      var macs := QueryWindowMacs(db, b, k, parse);
      if macs.Raised? {
        return false, {};
      }
      return true, FilterMacs(macs.value);
    }

    /** `_initialize_ssid_lists`: as `InitializeMacLists`, over the probed SSIDs of each window. */
    method InitializeSsidLists(c: Connection, b: map<string, int>, parse: string -> Decoding) returns (raised: bool)
      requires Valid()
      modifies this`pastFiveSsids, this`fiveTenSsids, this`tenFifteenSsids, this`fifteenTwentySsids
      ensures Valid()
      ensures raised <==> Completed(c, 4, b) < 4
      ensures pastFiveSsids == SsidBucketAfter(c, b, 0, parse, old(pastFiveSsids))
      ensures fiveTenSsids == SsidBucketAfter(c, b, 1, parse, old(fiveTenSsids))
      ensures tenFifteenSsids == SsidBucketAfter(c, b, 2, parse, old(tenFifteenSsids))
      ensures fifteenTwentySsids == SsidBucketAfter(c, b, 3, parse, old(fifteenTwentySsids))
      ensures ignoreList == old(ignoreList) && ssidIgnoreList == old(ssidIgnoreList) && timeWindows == old(timeWindows)
      ensures pastFiveMacs == old(pastFiveMacs) && fiveTenMacs == old(fiveTenMacs)
      ensures tenFifteenMacs == old(tenFifteenMacs) && fifteenTwentyMacs == old(fifteenTwentyMacs)
    {
      CompletedWindows(c, 4, b);
      var ok, bucket := RefillSsids(SsidQuery(c, 0), b, 0, parse);
      if !ok {
        return true;
      }
      pastFiveSsids := bucket;
      ok, bucket := RefillSsids(SsidQuery(c, 1), b, 1, parse);
      if !ok {
        return true;
      }
      fiveTenSsids := bucket;
      ok, bucket := RefillSsids(SsidQuery(c, 2), b, 2, parse);
      if !ok {
        return true;
      }
      tenFifteenSsids := bucket;
      ok, bucket := RefillSsids(SsidQuery(c, 3), b, 3, parse);
      if !ok {
        return true;
      }
      fifteenTwentySsids := bucket;
      return false;
    }

    /** As `RefillMacs`, for one window of `_initialize_ssid_lists`. */
    method RefillSsids(db: Database, b: map<string, int>, k: nat, parse: string -> Decoding) returns (ok: bool, bucket: set<string>)
      requires k < 4 && (k == 0 || k <= Reached(b))
      ensures ok <==> db.reachable && k < Reached(b)
      ensures ok ==> bucket == FilterSsids(WindowSsids(db, b, k, parse)) && SsidsOk(bucket, ssidIgnoreList)
    {
      ReachedWindows(b);
      var ssids := QueryWindowSsids(db, b, k, parse);
      if ssids.Raised? {
        return false, {};
      }
      return true, FilterSsids(ssids.value);
    }

    /**
      `initialize_tracking_lists` at clock reading `now`: the MAC buckets, then the SSID
      buckets. A failure part-way leaves the buckets already filled replaced and reports
      the exception (`raised`), which the source re-raises. The SSID queries run only
      when every MAC query succeeded, and can still fail after that.
    */
    method InitializeTrackingLists(c: Connection, now: int, parse: string -> Decoding) returns (raised: bool)
      requires Valid()
      modifies this
      ensures Valid()
      ensures TimeBoundaries(timeWindows, now).Raised? ==> raised && unchanged(this)
      ensures TimeBoundaries(timeWindows, now).Ok? ==>
        var b := TimeBoundaries(timeWindows, now).value;
        var macsDone := Completed(c, 0, b) == 4;
        && (raised <==> !macsDone || Completed(c, 4, b) < 4)
        && pastFiveMacs == MacBucketAfter(c, b, 0, parse, old(pastFiveMacs))
        && fiveTenMacs == MacBucketAfter(c, b, 1, parse, old(fiveTenMacs))
        && tenFifteenMacs == MacBucketAfter(c, b, 2, parse, old(tenFifteenMacs))
        && fifteenTwentyMacs == MacBucketAfter(c, b, 3, parse, old(fifteenTwentyMacs))
        && pastFiveSsids == (if macsDone then SsidBucketAfter(c, b, 0, parse, old(pastFiveSsids)) else old(pastFiveSsids))
        && fiveTenSsids == (if macsDone then SsidBucketAfter(c, b, 1, parse, old(fiveTenSsids)) else old(fiveTenSsids))
        && tenFifteenSsids == (if macsDone then SsidBucketAfter(c, b, 2, parse, old(tenFifteenSsids)) else old(tenFifteenSsids))
        && fifteenTwentySsids ==
          (if macsDone then SsidBucketAfter(c, b, 3, parse, old(fifteenTwentySsids)) else old(fifteenTwentySsids))
      ensures ignoreList == old(ignoreList) && ssidIgnoreList == old(ssidIgnoreList) && timeWindows == old(timeWindows)
    {
      var boundaries := GetTimeBoundaries(timeWindows, now);
      if boundaries.Raised? {
        return true;
      }
      raised := InitializeMacLists(c, boundaries.value, parse);
      if raised {
        return;
      }
      raised := InitializeSsidLists(c, boundaries.value, parse);
    }

    /**
      `rotate_tracking_lists`: every family shifts one window older and the oldest bucket
      is dropped; then the past-5 buckets are refilled from fresh queries, MACs first. The
      shift is not undone when a refresh query fails, so a past-5 bucket left unrefreshed
      equals its 5-10 bucket, and a failing SSID query leaves only the MACs refreshed.
    */
    method RotateTrackingLists(c: Connection, now: int, parse: string -> Decoding)
      requires Valid()
      modifies this
      ensures Valid()
      ensures fifteenTwentyMacs == old(tenFifteenMacs) && tenFifteenMacs == old(fiveTenMacs) && fiveTenMacs == old(pastFiveMacs)
      ensures fifteenTwentySsids == old(tenFifteenSsids) && tenFifteenSsids == old(fiveTenSsids) && fiveTenSsids == old(pastFiveSsids)
      ensures var b := TimeBoundaries(timeWindows, now);
        var macsFresh := b.Ok? && 0 < Completed(c, 0, b.value);
        && pastFiveMacs ==
          (if macsFresh then FilterMacs(WindowMacs(MacQuery(c, 0), b.value, 0, parse)) else fiveTenMacs)
        && pastFiveSsids ==
          (if macsFresh && 0 < Completed(c, 4, b.value) then FilterSsids(WindowSsids(SsidQuery(c, 0), b.value, 0, parse))
           else fiveTenSsids)
      ensures ignoreList == old(ignoreList) && ssidIgnoreList == old(ssidIgnoreList) && timeWindows == old(timeWindows)
    {
      ShiftBuckets();
      RefreshPastFive(c, now, parse);
    }

    /** The shift of `rotate_tracking_lists`: each bucket takes the next newer one's contents. */
    method ShiftBuckets()
      requires Valid()
      modifies this`fifteenTwentyMacs, this`tenFifteenMacs, this`fiveTenMacs
      modifies this`fifteenTwentySsids, this`tenFifteenSsids, this`fiveTenSsids
      ensures Valid()
      ensures fifteenTwentyMacs == old(tenFifteenMacs) && tenFifteenMacs == old(fiveTenMacs) && fiveTenMacs == old(pastFiveMacs)
      ensures fifteenTwentySsids == old(tenFifteenSsids) && tenFifteenSsids == old(fiveTenSsids) && fiveTenSsids == old(pastFiveSsids)
    {
      fifteenTwentyMacs := tenFifteenMacs;
      tenFifteenMacs := fiveTenMacs;
      fiveTenMacs := pastFiveMacs;

      fifteenTwentySsids := tenFifteenSsids;
      tenFifteenSsids := fiveTenSsids;
      fiveTenSsids := pastFiveSsids;
    }

    /**
      The refresh of `rotate_tracking_lists`: the past-5 MACs from a fresh query, then the
      past-5 SSIDs from another. Each bucket is kept when its query, or an earlier step,
      raises.
    */
    method RefreshPastFive(c: Connection, now: int, parse: string -> Decoding)
      requires Valid()
      modifies this`pastFiveMacs, this`pastFiveSsids
      ensures Valid()
      ensures var b := TimeBoundaries(timeWindows, now);
        var macsFresh := b.Ok? && 0 < Completed(c, 0, b.value);
        && pastFiveMacs ==
          (if macsFresh then FilterMacs(WindowMacs(MacQuery(c, 0), b.value, 0, parse)) else old(pastFiveMacs))
        && pastFiveSsids ==
          (if macsFresh && 0 < Completed(c, 4, b.value) then FilterSsids(WindowSsids(SsidQuery(c, 0), b.value, 0, parse))
           else old(pastFiveSsids))
    {
      var boundaries := GetTimeBoundaries(timeWindows, now);
      if boundaries.Raised? {
        return;
      }
      CompletedWindows(c, 0, boundaries.value);
      CompletedWindows(c, 4, boundaries.value);
      var macs := QueryWindowMacs(MacQuery(c, 0), boundaries.value, 0, parse);
      if macs.Raised? {
        return;
      }
      pastFiveMacs := FilterMacs(macs.value);
      var ssids := QueryWindowSsids(SsidQuery(c, 0), boundaries.value, 0, parse);
      if ssids.Raised? {
        return;
      }
      pastFiveSsids := FilterSsids(ssids.value);
    }

    // -------------------------------------------------------------------------
    // Reappearance checks

    /** `_check_ssid_history`: one alert per older SSID bucket holding `ssid`, newest first. */
    function SsidAlerts(ssid: string): seq<Alert>
      reads this`fiveTenSsids, this`tenFifteenSsids, this`fifteenTwentySsids
    {
      (if ssid in fiveTenSsids then [SsidProbed(ssid, FiveTen)] else []) +
      (if ssid in tenFifteenSsids then [SsidProbed(ssid, TenFifteen)] else []) +
      (if ssid in fifteenTwentySsids then [SsidProbed(ssid, FifteenTwenty)] else [])
    }

    /**
      `_process_mac_tracking`: nothing for a MAC ignored case-insensitively, otherwise one
      alert per older MAC bucket holding `mac` in its original case.
    */
    function MacAlerts(mac: string): seq<Alert>
      reads this`ignoreList, this`fiveTenMacs, this`tenFifteenMacs, this`fifteenTwentyMacs
    {
      if Upper(mac) in ignoreList then []
      else
        (if mac in fiveTenMacs then [MacSeen(mac, FiveTen)] else []) +
        (if mac in tenFifteenMacs then [MacSeen(mac, TenFifteen)] else []) +
        (if mac in fifteenTwentyMacs then [MacSeen(mac, FifteenTwenty)] else [])
    }

    /**
      The SSID `_process_probe_requests` reports for a device: a dictionary with
      dictionary `dot11.device` and probe-record levels (a missing level is `{}`) holding a
      non-empty string SSID that is not ignored. Non-string SSIDs never match a bucket.
    */
    function ProbedSsid(deviceData: Json): (r: Option<string>)
      reads this`ssidIgnoreList
      ensures r.Some? ==> r.value != [] && r.value !in ssidIgnoreList
    {
      if !Truthy(deviceData) || !deviceData.JObj? then None
      else
        var dot11 := Get(deviceData.fields, "dot11.device", JObj(map[]));
        if !dot11.JObj? then None
        else
          var record := Get(dot11.fields, "dot11.device.last_probed_ssid_record", JObj(map[]));
          if !record.JObj? then None
          else
            var ssid := Get(record.fields, "dot11.probedssid.ssid", JStr(""));
            if ssid.JStr? && ssid.s != [] && ssid.s !in ssidIgnoreList then Some(ssid.s) else None
    }

    /** The alerts of one current device: its probe first, then its MAC; none for an empty MAC. */
    function DeviceAlerts(d: DeviceRecord): seq<Alert>
      reads this
    {
      if d.mac.None? || d.mac.value == [] then []
      else
        (match ProbedSsid(d.deviceData) case Some(s) => SsidAlerts(s) case None => []) + MacAlerts(d.mac.value)
    }

    /** The alerts of a device list, device by device. */
    function ActivityAlerts(devices: seq<DeviceRecord>): seq<Alert>
      reads this
    {
      if devices == [] then [] else DeviceAlerts(devices[0]) + ActivityAlerts(devices[1..])
    }

    /** `_process_probe_requests(device_data, mac)`. */
    method ProcessProbeRequests(deviceData: Json) returns (alerts: seq<Alert>)
      ensures alerts == match ProbedSsid(deviceData) case Some(s) => SsidAlerts(s) case None => []
    {
      alerts := [];
      if !Truthy(deviceData) || !deviceData.JObj? {
        return;
      }
      var dot11 := Get(deviceData.fields, "dot11.device", JObj(map[]));
      if !dot11.JObj? {
        return;
      }
      var record := Get(dot11.fields, "dot11.device.last_probed_ssid_record", JObj(map[]));
      if !record.JObj? {
        return;
      }
      var ssid := Get(record.fields, "dot11.probedssid.ssid", JStr(""));
      if !Truthy(ssid) || (ssid.JStr? && ssid.s in ssidIgnoreList) || !ssid.JStr? {
        return;
      }
      alerts := SsidAlerts(ssid.s);
    }

    /**
      `process_current_activity` at clock reading `now`: the alerts of the devices seen
      since `current_time`, in device order; none when the boundaries or the query raise.
      The buckets are not modified.
    */
    method ProcessCurrentActivity(db: Database, now: int, parse: string -> Decoding) returns (alerts: seq<Alert>)
      ensures TimeBoundaries(timeWindows, now).Raised? || !db.reachable ==> alerts == []
      ensures TimeBoundaries(timeWindows, now).Ok? && db.reachable ==>
        var b := TimeBoundaries(timeWindows, now).value;
        CurrentKey in b &&
        alerts == ActivityAlerts(Records(SelectRows(db.rows, b[CurrentKey], None), parse))
    {
      alerts := [];
      var boundaries := GetTimeBoundaries(timeWindows, now);
      if boundaries.Raised? {
        return;
      }
      BoundaryAt(timeWindows.fields, now, "");
      var current := GetDevicesByTimeRange(db, boundaries.value[CurrentKey], None, parse);
      if current.Raised? {
        return;
      }
      alerts := CheckDevices(current.value);
    }

    /** The loop of `process_current_activity` over the current devices: probe, then MAC, per device. */
    method CheckDevices(devices: seq<DeviceRecord>) returns (alerts: seq<Alert>)
      ensures alerts == ActivityAlerts(devices)
    {
      alerts := [];
      var i := 0;
      while i < |devices|
        invariant 0 <= i <= |devices|
        invariant alerts == ActivityAlerts(devices[..i])
      {
        var device := devices[i];
        ActivityAlertsStep(devices, i);
        var deviceAlerts := [];
        if device.mac.Some? && device.mac.value != [] {
          var probeAlerts := ProcessProbeRequests(device.deviceData);
          deviceAlerts := probeAlerts + MacAlerts(device.mac.value);
        }
        assert deviceAlerts == DeviceAlerts(device);
        alerts := alerts + deviceAlerts;
        i := i + 1;
      }
      assert devices[..i] == devices;
    }

    /** `ActivityAlerts` distributes over concatenation. */
    lemma {:induction false} ActivityAlertsAppend(a: seq<DeviceRecord>, b: seq<DeviceRecord>)
      ensures ActivityAlerts(a + b) == ActivityAlerts(a) + ActivityAlerts(b)
      decreases |a|
    {
      if a == [] {
        assert a + b == b;
      } else {
        assert (a + b)[1..] == a[1..] + b;
        ActivityAlertsAppend(a[1..], b);
      }
    }

    lemma ActivityAlertsStep(devices: seq<DeviceRecord>, i: nat)
      requires i < |devices|
      ensures ActivityAlerts(devices[..i + 1]) == ActivityAlerts(devices[..i]) + DeviceAlerts(devices[i])
    {
      assert devices[..i + 1] == devices[..i] + [devices[i]];
      ActivityAlertsAppend(devices[..i], [devices[i]]);
      assert ActivityAlerts([devices[i]]) == DeviceAlerts(devices[i]) + ActivityAlerts([]);
    }

    // -------------------------------------------------------------------------
    // Facts

    /** An SSID alert is reported for exactly the older buckets that hold the SSID. */
    lemma SsidAlertsFacts(ssid: string)
      ensures forall a :: a in SsidAlerts(ssid) <==> a.SsidProbed? && a.ssid == ssid && ssid in SsidBucket(a.window)
    {
    }

    /**
      A MAC ignored case-insensitively gets no alert; any other MAC gets one per older
      bucket holding it in its original case.
    */
    lemma MacAlertsFacts(mac: string)
      ensures Upper(mac) in ignoreList ==> MacAlerts(mac) == []
      ensures Upper(mac) !in ignoreList ==>
        forall a :: a in MacAlerts(mac) <==> a.MacSeen? && a.mac == mac && mac in MacBucket(a.window)
    {
    }

    /**
      Every alert of a device list names an older bucket that holds the reported MAC or
      SSID, for a device with a non-empty MAC; MAC alerts are never for an ignored MAC.
    */
    lemma {:induction false} ActivityAlertsFacts(devices: seq<DeviceRecord>)
      ensures forall a :: a in ActivityAlerts(devices) && a.MacSeen? ==>
        a.mac in MacBucket(a.window) && Upper(a.mac) !in ignoreList &&
        exists d :: d in devices && d.mac == Some(a.mac)
      ensures forall a :: a in ActivityAlerts(devices) && a.SsidProbed? ==>
        a.ssid in SsidBucket(a.window) && a.ssid !in ssidIgnoreList &&
        exists d :: d in devices && ProbedSsid(d.deviceData) == Some(a.ssid)
      decreases |devices|
    {
      if devices != [] {
        ActivityAlertsFacts(devices[1..]);
        assert devices == [devices[0]] + devices[1..];
        var d := devices[0];
        if d.mac.Some? && d.mac.value != [] {
          MacAlertsFacts(d.mac.value);
          if ProbedSsid(d.deviceData).Some? {
            SsidAlertsFacts(ProbedSsid(d.deviceData).value);
          }
        }
      }
    }

    /**
      Under `Valid` the MAC buckets hold uppercase MACs only, so a current MAC with a
      lower-case letter never reappears, whatever the buckets hold.
    */
    lemma LowerCaseMacNeverReappears(mac: string)
      requires Valid()
      requires !IsUpperCase(mac)
      ensures MacAlerts(mac) == []
    {
      assert mac !in fiveTenMacs && mac !in tenFifteenMacs && mac !in fifteenTwentyMacs;
    }
  }

  /** With the default windows and no failing query the initialisation fills every bucket and does not raise. */
  lemma DefaultWindowsReachEveryBucket(now: int, c: Connection)
    requires forall q :: q in c.failing ==> q >= 8
    ensures TimeBoundaries(JObj(DefaultWindows), now).Ok?
    ensures Reached(TimeBoundaries(JObj(DefaultWindows), now).value) == 4
    ensures Completed(c, 0, TimeBoundaries(JObj(DefaultWindows), now).value) == 4
    ensures Completed(c, 4, TimeBoundaries(JObj(DefaultWindows), now).value) == 4
  {
    DefaultBoundaryKeys(now);
  }
}
