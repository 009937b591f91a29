/**
  `ProbeAnalyzer` (probe_analyzer.py): scanning the text of a log file for probe
  requests, attaching to each the nearest preceding `Current Time:` stamp (or a stamp
  rebuilt from the file name), collecting the stamps per SSID, and summarising them.

  A log file is its content and its name, both strings. `\d` is an ASCII digit here.
*/
module ProbeAnalyzer {
  import opened Wrappers
  import opened PyStr
  import opened Sorting

  const ProbeMarker := "Found a probe!: "
  const TimeMarker := "Current Time: "
  /** Characters in `Current Time: YYYY-MM-DD HH:MM:SS`, and where the stamp starts in it. */
  const StampMatchLength := 33
  const StampOffset := 14

  // ---------------------------------------------------------------------------
  // `re.finditer(r'Found a probe!: (.*?)\n', content)`

  /** One match: where it starts, its group, and the position of the newline ending it. */
  datatype ProbeMatch = ProbeMatch(start: nat, group: string, newline: nat)

  /**
    The pattern tried at position `i`. `.` does not match a newline, so the lazy group
    runs exactly to the first newline after the marker, and there is no match when no
    newline follows.
  */
  function ProbeAt(s: string, i: nat): (m: Option<ProbeMatch>)
    ensures m.Some? ==> m.value.start == i && i + |ProbeMarker| <= m.value.newline < |s|
  {
    if !OccursAt(s, ProbeMarker, i) then None
    else
      var e := FirstFrom(s, '\n', i + |ProbeMarker|);
      if e == |s| then None
      else Some(ProbeMatch(i, s[i + |ProbeMarker|..e], e))
  }

  /** A match is the marker, then its group up to (not including) the first newline after the marker. */
  lemma ProbeAtShape(s: string, i: nat)
    requires ProbeAt(s, i).Some?
    ensures var m := ProbeAt(s, i).value;
      && OccursAt(s, ProbeMarker, i) && s[m.newline] == '\n'
      && m.group == s[i + |ProbeMarker|..m.newline] && '\n' !in m.group
  {
    var m := ProbeAt(s, i).value;
    var g := m.group;
    FirstFromIsFirst(s, '\n', i + |ProbeMarker|);
    assert forall k :: 0 <= k < |g| ==> g[k] == s[i + |ProbeMarker| + k];
  }

  /** The leftmost match starting at or after `i`. */
  function NextProbe(s: string, i: nat): (m: Option<ProbeMatch>)
    requires i <= |s|
    ensures m.Some? ==> i <= m.value.start && m.value.start + |ProbeMarker| <= m.value.newline < |s|
    decreases |s| - i
  {
    if ProbeAt(s, i).Some? then ProbeAt(s, i)
    else if i == |s| then None
    else NextProbe(s, i + 1)
  }

  /** What `NextProbe` finds is a match of the pattern at its start. */
  lemma {:induction false} NextProbeIsMatch(s: string, i: nat)
    requires i <= |s|
    ensures NextProbe(s, i).Some? ==> ProbeAt(s, NextProbe(s, i).value.start) == NextProbe(s, i)
    decreases |s| - i
  {
    if ProbeAt(s, i).None? && i < |s| {
      NextProbeIsMatch(s, i + 1);
    }
  }

  /** `NextProbe` skips no position where the pattern matches. */
  lemma {:induction false} NextProbeLeftmost(s: string, i: nat, j: nat)
    requires i <= j <= |s| && ProbeAt(s, j).Some?
    ensures NextProbe(s, i).Some? && NextProbe(s, i).value.start <= j
    decreases |s| - i
  {
    if ProbeAt(s, i).None? && i < j {
      NextProbeLeftmost(s, i + 1, j);
    }
  }

  /** All matches from position `i` on: each search resumes after the newline that ended the last match. */
  function ProbeMatches(s: string, i: nat): (ms: seq<ProbeMatch>)
    requires i <= |s|
    decreases |s| - i
  {
    match NextProbe(s, i)
    case None => []
    case Some(m) => [m] + ProbeMatches(s, m.newline + 1)
  }

  /** Every element of `ProbeMatches` is a match of the pattern at its start, from `i` on. */
  lemma {:induction false} ProbeMatchesSound(s: string, i: nat)
    requires i <= |s|
    ensures forall k :: 0 <= k < |ProbeMatches(s, i)| ==>
      i <= ProbeMatches(s, i)[k].start && ProbeAt(s, ProbeMatches(s, i)[k].start) == Some(ProbeMatches(s, i)[k])
    decreases |s| - i
  {
    match NextProbe(s, i)
    case None =>
    case Some(m) =>
      NextProbeIsMatch(s, i);
      ProbeMatchesSound(s, m.newline + 1);
      var ms := ProbeMatches(s, i);
      var rest := ProbeMatches(s, m.newline + 1);
      assert ms == [m] + rest;
      assert i <= m.start <= m.newline;
      forall k | 0 <= k < |ms| ensures i <= ms[k].start && ProbeAt(s, ms[k].start) == Some(ms[k]) {
        if k > 0 {
          assert ms[k] == rest[k - 1];
          assert m.newline + 1 <= rest[k - 1].start;
        } else {
          assert ms[k] == m;
        }
      }
  }

  /** Position `j` lies inside one of the matches, from its marker to its newline. */
  predicate Covered(ms: seq<ProbeMatch>, j: int)
  {
    exists k :: 0 <= k < |ms| && ms[k].start <= j <= ms[k].newline
  }

  /** The matches come in order and do not overlap. */
  lemma {:induction false} ProbeMatchesOrdered(s: string, i: nat)
    requires i <= |s|
    ensures forall k :: 0 <= k < |ProbeMatches(s, i)| - 1 ==> ProbeMatches(s, i)[k].newline < ProbeMatches(s, i)[k + 1].start
    decreases |s| - i
  {
    match NextProbe(s, i)
    case None =>
    case Some(m) =>
      var rest := ProbeMatches(s, m.newline + 1);
      var ms := ProbeMatches(s, i);
      assert ms == [m] + rest;
      ProbeMatchesOrdered(s, m.newline + 1);
      if rest != [] {
        assert rest[0] == NextProbe(s, m.newline + 1).value;
      }
      forall k | 0 <= k < |ms| - 1 ensures ms[k].newline < ms[k + 1].start {
        if k > 0 {
          assert ms[k] == rest[k - 1] && ms[k + 1] == rest[k];
        }
      }
  }

  /** Every occurrence of the pattern from `i` on is a match or lies inside one. */
  lemma {:induction false} ProbeMatchesComplete(s: string, i: nat, j: nat)
    requires i <= j <= |s| && ProbeAt(s, j).Some?
    ensures Covered(ProbeMatches(s, i), j)
    decreases |s| - i
  {
    NextProbeLeftmost(s, i, j);
    var m := NextProbe(s, i).value;
    var rest := ProbeMatches(s, m.newline + 1);
    var ms := ProbeMatches(s, i);
    assert ms == [m] + rest;
    if j <= m.newline {
      assert ms[0].start <= j <= ms[0].newline;
    } else {
      ProbeMatchesComplete(s, m.newline + 1, j);
      var k :| 0 <= k < |rest| && rest[k].start <= j <= rest[k].newline;
      assert ms[k + 1] == rest[k];
    }
  }

  // ---------------------------------------------------------------------------
  // `re.findall(r'Current Time: (\d{4}-\d{2}-\d{2} \d{2}:\d{2}:\d{2})', content[:start])[-1]`

  /** `YYYY-MM-DD HH:MM:SS`. */
  predicate StampShape(t: string)
  {
    && |t| == 19
    && forall k :: 0 <= k < 19 ==>
      if k == 4 || k == 7 then t[k] == '-'
      else if k == 10 then t[k] == ' '
      else if k == 13 || k == 16 then t[k] == ':'
      else IsDigit(t[k])
  }

  /** The whole timestamp pattern occurs at `i`. */
  predicate StampAt(s: string, i: int)
  {
    0 <= i && i + StampMatchLength <= |s| && s[i..i + StampOffset] == TimeMarker
    && StampShape(s[i + StampOffset..i + StampMatchLength])
  }

  /**
    Two occurrences of the timestamp pattern never overlap (`C` occurs only at the
    start of it), so the matches `findall` returns are exactly the positions where
    the pattern occurs.
  */
  lemma StampsDoNotOverlap(s: string, i: int, j: int)
    requires StampAt(s, i) && StampAt(s, j) && i < j
    ensures i + StampMatchLength <= j
  {
    StampStartsWithC(s, j);
    if j < i + StampMatchLength {
      NoCInsideStamp(s, i, j);
    }
  }

  lemma StampStartsWithC(s: string, j: int)
    requires StampAt(s, j)
    ensures s[j] == 'C'
  {
    assert s[j..j + StampOffset][0] == TimeMarker[0];
  }

  lemma NoCInsideStamp(s: string, i: int, j: int)
    requires StampAt(s, i) && i < j < i + StampMatchLength
    ensures s[j] != 'C'
  {
    if j < i + StampOffset {
      assert s[i..i + StampOffset][j - i] == s[j];
    } else {
      var t := s[i + StampOffset..i + StampMatchLength];
      assert t[j - i - StampOffset] == s[j];
    }
  }

  /** The last position below `n` where the timestamp pattern occurs. */
  function LastStampBelow(s: string, n: nat): (p: Option<nat>)
    ensures p.Some? ==> p.value < n && p.value + StampMatchLength <= |s|
  {
    if n == 0 then None
    else if StampAt(s, n - 1) then Some(n - 1)
    else LastStampBelow(s, n - 1)
  }

  lemma {:induction false} LastStampBelowFacts(s: string, n: nat)
    ensures var p := LastStampBelow(s, n);
      && (p.Some? ==> StampAt(s, p.value) && forall j :: p.value < j < n ==> !StampAt(s, j))
      && (p.None? ==> forall j :: 0 <= j < n ==> !StampAt(s, j))
  {
    if n > 0 && !StampAt(s, n - 1) {
      LastStampBelowFacts(s, n - 1);
    }
  }

  /** The start of the last timestamp lying wholly before position `start`. */
  function PrecedingStampAt(s: string, start: nat): (p: Option<nat>)
    ensures p.Some? ==> p.value + StampMatchLength <= start
  {
    LastStampBelow(s, if start >= StampMatchLength then start - StampMatchLength + 1 else 0)
  }

  /**
    The stamp attached to a probe starting at `start` is the last occurrence of the
    timestamp pattern lying wholly before it; there is none exactly when no occurrence
    does.
  */
  lemma PrecedingStampIsLast(s: string, start: nat)
    ensures var p := PrecedingStampAt(s, start);
      && (p.Some? ==> StampAt(s, p.value) && p.value + StampMatchLength <= start)
      && (p.Some? ==> forall j :: p.value < j && j + StampMatchLength <= start ==> !StampAt(s, j))
      && (p.None? ==> forall j :: 0 <= j && j + StampMatchLength <= start ==> !StampAt(s, j))
  {
    LastStampBelowFacts(s, if start >= StampMatchLength then start - StampMatchLength + 1 else 0);
  }

  /** The captured stamp of the last timestamp before `start`, if any. */
  function PrecedingStamp(s: string, start: nat): (t: Option<string>)
  {
    match PrecedingStampAt(s, start)
    case None => None
    case Some(p) => Some(s[p + StampOffset..p + StampMatchLength])
  }

  /** An attached stamp has the shape `YYYY-MM-DD HH:MM:SS`. */
  lemma PrecedingStampShape(s: string, start: nat)
    ensures PrecedingStamp(s, start).Some? ==> StampShape(PrecedingStamp(s, start).value)
  {
    PrecedingStampIsLast(s, start);
  }

  // ---------------------------------------------------------------------------
  // The file-name fallback: `cyt_log_MMDDYY_HHMMSS`

  /** `s[a:b]` for `0 <= a <= b`. */
  function Slice(s: string, a: nat, b: nat): (r: string)
    requires a <= b
    ensures |r| <= b - a
  {
    Drop(Take(s, b), a)
  }

  /** `f"{d[:2]}-{d[2:4]}-{d[4:]} {t[:2]}:{t[2:4]}:{t[4:]}"`. */
  function FormatStamp(d: string, t: string): (r: string)
    ensures |d| == 6 && |t| == 6 ==>
      r == [d[0], d[1], '-', d[2], d[3], '-', d[4], d[5], ' ', t[0], t[1], ':', t[2], t[3], ':', t[4], t[5]]
  {
    Take(d, 2) + "-" + Slice(d, 2, 4) + "-" + Drop(d, 4) + " " + Take(t, 2) + ":" + Slice(t, 2, 4) + ":" + Drop(t, 4)
  }

  /** The stamp rebuilt from the 3rd and 4th `_`-separated pieces of the name, when there are that many. */
  function FilenameStamp(filename: string): (t: Option<string>)
  {
    var parts := Split(filename, '_');
    if |parts| >= 4 then Some(FormatStamp(parts[2], parts[3])) else None
  }

  /** There is a fallback stamp exactly when the name has at least three underscores. */
  lemma FilenameStampExists(filename: string)
    ensures FilenameStamp(filename).Some? <==> CountChar(filename, '_') >= 3
  {
    SplitPieces(filename, '_');
  }

  /** A name `P_Q_MMDDYY_HHMMSS` (no `_` inside the pieces) gives the stamp `MM-DD-YY HH:MM:SS`. */
  lemma FilenameStampLayout(p: string, q: string, d: string, t: string)
    requires '_' !in p && '_' !in q && '_' !in d && '_' !in t
    requires |d| == 6 && |t| == 6
    ensures FilenameStamp(p + "_" + q + "_" + d + "_" + t)
      == Some([d[0], d[1], '-', d[2], d[3], '-', d[4], d[5], ' ', t[0], t[1], ':', t[2], t[3], ':', t[4], t[5]])
  {
    SplitWithoutSeparator(t, '_');
    SplitAfterPiece(d, t, '_');
    SplitAfterPiece(q, d + "_" + t, '_');
    assert q + "_" + (d + "_" + t) == q + "_" + d + "_" + t;
    SplitAfterPiece(p, q + "_" + d + "_" + t, '_');
    assert p + "_" + (q + "_" + d + "_" + t) == p + "_" + q + "_" + d + "_" + t;
  }

  // ---------------------------------------------------------------------------
  // Observations and the per-SSID index

  /** One time-stamped sighting of an SSID. */
  datatype Observation = Observation(ssid: string, stamp: string)

  /** What one match contributes: the stripped group with its stamp, or nothing when no stamp can be found. */
  function ObservationAt(s: string, filename: string, m: ProbeMatch): (o: Option<Observation>)
    ensures o.Some? ==> o.value.ssid == Strip(m.group)
    ensures FilenameStamp(filename).Some? ==> o.Some?
  {
    var ssid := Strip(m.group);
    match PrecedingStamp(s, m.start)
    case Some(t) => Some(Observation(ssid, t))
    case None =>
      match FilenameStamp(filename)
      case Some(t) => Some(Observation(ssid, t))
      case None => None
  }

  function Observations(s: string, filename: string, ms: seq<ProbeMatch>): (obs: seq<Observation>)
    ensures |obs| <= |ms|
  {
    if ms == [] then []
    else
      var o := ObservationAt(s, filename, ms[|ms| - 1]);
      Observations(s, filename, ms[..|ms| - 1]) + (if o.Some? then [o.value] else [])
  }

  /** One more match adds its sighting, if it has one. */
  lemma ObservationsStep(s: string, filename: string, ms: seq<ProbeMatch>, i: nat)
    requires i < |ms|
    ensures Observations(s, filename, ms[..i + 1]) == Observations(s, filename, ms[..i]) +
      (if ObservationAt(s, filename, ms[i]).Some? then [ObservationAt(s, filename, ms[i]).value] else [])
  {
    assert ms[..i + 1][..i] == ms[..i];
  }

  /** The body of `parse_log_file`'s loop: the stripped group and the preceding stamp, else the file-name stamp. */
  method ObserveMatch(s: string, filename: string, m: ProbeMatch) returns (o: Option<Observation>)
    ensures o == ObservationAt(s, filename, m)
  {
    var ssid := Strip(m.group);
    var stamp := PrecedingStamp(s, m.start);
    if stamp.Some? {
      o := Some(Observation(ssid, stamp.value));
    } else {
      var fallback := FilenameStamp(filename);
      if fallback.Some? {
        o := Some(Observation(ssid, fallback.value));
      } else {
        o := None;
      }
    }
  }

  /** The sightings of a whole log file, in scan order. */
  function FileObservations(content: string, filename: string): (obs: seq<Observation>)
  {
    Observations(content, filename, ProbeMatches(content, 0))
  }

  /** With a usable file name every match is a sighting, with the match's stripped group as SSID. */
  lemma {:induction false} EveryMatchObserved(s: string, filename: string, ms: seq<ProbeMatch>)
    requires FilenameStamp(filename).Some?
    ensures |Observations(s, filename, ms)| == |ms|
    ensures forall k :: 0 <= k < |ms| ==> Observations(s, filename, ms)[k].ssid == Strip(ms[k].group)
  {
    if ms != [] {
      var init := ms[..|ms| - 1];
      EveryMatchObserved(s, filename, init);
      var o := ObservationAt(s, filename, ms[|ms| - 1]);
      assert o.Some?;
      var obs := Observations(s, filename, ms);
      assert obs == Observations(s, filename, init) + [o.value];
      forall k | 0 <= k < |ms| ensures obs[k].ssid == Strip(ms[k].group) {
        if k < |init| {
          assert obs[k] == Observations(s, filename, init)[k];
          assert ms[k] == init[k];
        } else {
          assert k == |ms| - 1;
          assert obs[k] == o.value;
        }
      }
    }
  }

  /** `probes.get(ssid, [])`. */
  function Lookup(probes: map<string, seq<string>>, ssid: string): seq<string>
  {
    if ssid in probes then probes[ssid] else []
  }

  /** Appending one sighting: the list is created on first sight. */
  function AddStamp(probes: map<string, seq<string>>, o: Observation): map<string, seq<string>>
  {
    probes[o.ssid := Lookup(probes, o.ssid) + [o.stamp]]
  }

  /** Dictionary key order: a new key goes to the end. */
  function AddKey(order: seq<string>, probes: map<string, seq<string>>, ssid: string): seq<string>
  {
    if ssid in probes then order else order + [ssid]
  }

  function RecordAll(probes: map<string, seq<string>>, obs: seq<Observation>): map<string, seq<string>>
  {
    if obs == [] then probes else AddStamp(RecordAll(probes, obs[..|obs| - 1]), obs[|obs| - 1])
  }

  function OrderAll(order: seq<string>, probes: map<string, seq<string>>, obs: seq<Observation>): seq<string>
  {
    if obs == [] then order
    else
      var init := obs[..|obs| - 1];
      AddKey(OrderAll(order, probes, init), RecordAll(probes, init), obs[|obs| - 1].ssid)
  }

  /** Recording one more sighting is one more `AddStamp` and `AddKey`. */
  lemma RecordStep(probes: map<string, seq<string>>, order: seq<string>, obs: seq<Observation>, o: Observation)
    ensures RecordAll(probes, obs + [o]) == AddStamp(RecordAll(probes, obs), o)
    ensures OrderAll(order, probes, obs + [o]) == AddKey(OrderAll(order, probes, obs), RecordAll(probes, obs), o.ssid)
  {
    assert (obs + [o])[..|obs|] == obs;
  }

  /** The stamps of the sightings of `ssid`, in order. */
  function StampsFor(obs: seq<Observation>, ssid: string): (r: seq<string>)
    ensures |r| <= |obs|
  {
    if obs == [] then []
    else
      var o := obs[|obs| - 1];
      StampsFor(obs[..|obs| - 1], ssid) + (if o.ssid == ssid then [o.stamp] else [])
  }

  /**
    Recording only appends: each SSID's list becomes its old list followed by the stamps
    of its sightings in scan order, and an SSID is present afterwards exactly when it was
    before or has been sighted.
  */
  lemma {:induction false} RecordAllLookup(probes: map<string, seq<string>>, obs: seq<Observation>, ssid: string)
    ensures Lookup(RecordAll(probes, obs), ssid) == Lookup(probes, ssid) + StampsFor(obs, ssid)
    ensures ssid in RecordAll(probes, obs) <==> ssid in probes || StampsFor(obs, ssid) != []
  {
    if obs != [] {
      RecordAllLookup(probes, obs[..|obs| - 1], ssid);
    }
  }

  /** The index invariant: one key per SSID in insertion order, and no empty list. */
  ghost predicate IndexValid(probes: map<string, seq<string>>, order: seq<string>)
  {
    && (forall s :: s in probes <==> s in order)
    && Distinct(order)
    && (forall s :: s in probes ==> probes[s] != [])
  }

  lemma {:induction false} RecordAllValid(probes: map<string, seq<string>>, order: seq<string>, obs: seq<Observation>)
    requires IndexValid(probes, order)
    ensures IndexValid(RecordAll(probes, obs), OrderAll(order, probes, obs))
    ensures order <= OrderAll(order, probes, obs)
  {
    if obs != [] {
      var init := obs[..|obs| - 1];
      RecordAllValid(probes, order, init);
      var p := RecordAll(probes, init);
      var o := OrderAll(order, probes, init);
      var ssid := obs[|obs| - 1].ssid;
      if ssid !in p {
        forall i, j | 0 <= i < j < |o + [ssid]| ensures (o + [ssid])[i] != (o + [ssid])[j] {
          if j == |o| {
            assert o[i] in o;
          }
        }
      }
    }
  }

  // ---------------------------------------------------------------------------
  // Summaries

  /** One entry of `analyze_probes`'s result, without the WiGLE data. */
  datatype ProbeSummary = ProbeSummary(ssid: string, count: nat, firstSeen: string, lastSeen: string)

  function NegCount(r: ProbeSummary): real
  {
    -(r.count as real)
  }

  /** `results.sort(key=lambda x: x['count'], reverse=True)`. */
  function SortByCount(results: seq<ProbeSummary>): (r: seq<ProbeSummary>)
    ensures multiset(r) == multiset(results)
    ensures forall i, j :: 0 <= i < j < |r| ==> r[i].count >= r[j].count
    ensures forall k :: WithKey(r, NegCount, k) == WithKey(results, NegCount, k)
  {
    var r := SortBy(results, NegCount);
    assert forall i, j :: 0 <= i < j < |r| ==> NegCount(r[i]) <= NegCount(r[j]);
    r
  }

  // ---------------------------------------------------------------------------
  // The analyzer

  class Analyzer {
    /** `self.probes`: the stamps per SSID; `order` is the dictionary's key order. */
    var probes: map<string, seq<string>>
    var order: seq<string>

    ghost predicate Valid()
      reads this
    {
      IndexValid(probes, order)
    }

    constructor()
      ensures Valid()
      ensures probes == map[] && order == []
    {
      probes := map[];
      order := [];
    }

    /** Appends one stamp to an SSID's list, creating the list on first sight. */
    method Record(ssid: string, stamp: string)
      modifies this
      ensures probes == AddStamp(old(probes), Observation(ssid, stamp))
      ensures order == AddKey(old(order), old(probes), ssid)
    {
      if ssid !in probes {
        probes := probes[ssid := []];
        order := order + [ssid];
      }
      probes := probes[ssid := probes[ssid] + [stamp]];
    }

    /** `parse_log_file(log_file)` on the file's content and name. */
    method ParseLogFile(content: string, filename: string)
      requires Valid()
      modifies this
      ensures Valid()
      ensures probes == RecordAll(old(probes), FileObservations(content, filename))
      ensures order == OrderAll(old(order), old(probes), FileObservations(content, filename))
    {
      var matches := ProbeMatches(content, 0);
      ghost var p0, o0 := probes, order;
      RecordMatches(content, filename, matches);
      RecordAllValid(p0, o0, FileObservations(content, filename));
    }

    /** The loop of `parse_log_file` over the matches: each sighting is recorded in scan order. */
    method RecordMatches(content: string, filename: string, matches: seq<ProbeMatch>)
      modifies this
      ensures probes == RecordAll(old(probes), Observations(content, filename, matches))
      ensures order == OrderAll(old(order), old(probes), Observations(content, filename, matches))
    {
      ghost var p0, o0 := probes, order;
      var i := 0;
      while i < |matches|
        invariant 0 <= i <= |matches|
        invariant probes == RecordAll(p0, Observations(content, filename, matches[..i]))
        invariant order == OrderAll(o0, p0, Observations(content, filename, matches[..i]))
      {
        ghost var before := Observations(content, filename, matches[..i]);
        ghost var after := Observations(content, filename, matches[..i + 1]);
        ObservationsStep(content, filename, matches, i);
        var o := ObserveMatch(content, filename, matches[i]);
        if o.Some? {
          assert after == before + [o.value];
          RecordStep(p0, o0, before, o.value);
          Record(o.value.ssid, o.value.stamp);
          assert probes == RecordAll(p0, after);
          assert order == OrderAll(o0, p0, after);
        } else {
          assert after == before;
        }
        assert probes == RecordAll(p0, after) && order == OrderAll(o0, p0, after);
        i := i + 1;
      }
      assert matches[..i] == matches;
    }

    /** `analyze_probes()`: one summary per SSID in dictionary order (the WiGLE lookup is not modelled). */
    method AnalyzeProbes() returns (results: seq<ProbeSummary>)
      requires Valid()
      ensures |results| == |order|
      ensures forall k :: 0 <= k < |results| ==>
        && results[k].ssid == order[k]
        && results[k].count == |probes[order[k]]|
        && results[k].firstSeen in probes[order[k]]
        && results[k].lastSeen in probes[order[k]]
        && (forall t :: t in probes[order[k]] ==> LexLe(results[k].firstSeen, t) && LexLe(t, results[k].lastSeen))
    {
      results := [];
      var i := 0;
      while i < |order|
        invariant 0 <= i <= |order|
        invariant |results| == i
        invariant forall k :: 0 <= k < i ==> results[k] == SummaryOf(order[k], probes[order[k]])
      {
        var ssid := order[i];
        assert ssid in probes;
        var timestamps := probes[ssid];
        results := results + [SummaryOf(ssid, timestamps)];
        i := i + 1;
      }
    }
  }

  function SummaryOf(ssid: string, stamps: seq<string>): (r: ProbeSummary)
    requires stamps != []
    ensures r.ssid == ssid && r.count == |stamps|
    ensures r.firstSeen in stamps && r.lastSeen in stamps
    ensures forall t :: t in stamps ==> LexLe(r.firstSeen, t) && LexLe(t, r.lastSeen)
  {
    ProbeSummary(ssid, |stamps|, LexMin(stamps), LexMax(stamps))
  }
}
