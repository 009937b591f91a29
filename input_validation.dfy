/**
  `InputValidator` (input_validation.py): format predicates for MAC addresses, SSIDs,
  file paths and file names, the deletion-only string sanitiser, the configuration
  structure check and the ignore-list filter.

  The regular expressions are written out as predicates. Python's `re.match` with a
  pattern ending in `$` also accepts the text followed by one final newline; the
  predicates below keep that behaviour.
*/
module InputValidation {
  import opened PyStr
  import opened Json

  const DangerousChars: seq<char> := ['<', '>', '"', '\'', '&', ';', '|', '`', '$', '(', ')', '{', '}', '[', ']']
  const SqlKeywords: seq<string> := ["SELECT", "INSERT", "UPDATE", "DELETE", "DROP", "UNION", "EXEC", "SCRIPT"]
  const PathDangerousChars: seq<char> := ['<', '>', '|', '&', ';', '`']
  const MaxMacLength := 17
  const MaxSsidLength := 32
  const MaxPathLength := 4096
  const MaxFilenameLength := 255
  const DefaultSanitizeLength := 1000

  // ---------------------------------------------------------------------------
  // MAC addresses

  predicate IsHexDigit(c: char)
  {
    ('0' <= c <= '9') || ('A' <= c <= 'F') || ('a' <= c <= 'f')
  }

  predicate IsMacSeparator(c: char)
  {
    c == ':' || c == '-'
  }

  /** Six hex pairs joined by five separators, each separator `:` or `-` on its own. */
  predicate MacShape(s: string)
  {
    |s| == 17 && forall i :: 0 <= i < 17 ==> if i % 3 == 2 then IsMacSeparator(s[i]) else IsHexDigit(s[i])
  }

  /** `MAC_PATTERN.match(s)`: the shape, optionally followed by one newline (`$`). */
  predicate MacPatternMatches(s: string)
  {
    MacShape(s) || (|s| == 18 && s[17] == '\n' && MacShape(s[..17]))
  }

  /** `validate_mac_address` on a string. */
  predicate ValidMacAddress(s: string)
  {
    |s| <= MaxMacLength && MacPatternMatches(s)
  }

  /** `validate_mac_address` on any decoded value: non-strings are rejected. */
  predicate ValidMacValue(v: Json)
  {
    v.JStr? && ValidMacAddress(v.s)
  }

  /** The length cap removes the newline case: an accepted MAC is exactly the 17-character shape. */
  lemma ValidMacExactly(s: string)
    ensures ValidMacAddress(s) <==> MacShape(s)
    ensures ValidMacAddress(s) ==> |s| == 17
  {
  }

  /** Separators are checked one by one, so mixed separators pass. */
  lemma MixedSeparatorsAccepted()
    ensures ValidMacAddress("AA:BB-CC:DD-EE:FF")
  {
  }

  /** Upper-casing a valid MAC keeps it valid. */
  lemma UpperKeepsMacValid(s: string)
    requires ValidMacAddress(s)
    ensures ValidMacAddress(Upper(s))
  {
    var u := Upper(s);
    forall i | 0 <= i < 17
      ensures if i % 3 == 2 then IsMacSeparator(u[i]) else IsHexDigit(u[i])
    {
      assert u[i] == UpperChar(s[i]);
    }
  }

  // ---------------------------------------------------------------------------
  // SSIDs

  /** A control character other than tab, newline and carriage return. */
  predicate IsBadControl(c: char)
  {
    (c as int) < 32 && c != '\t' && c != '\n' && c != '\r'
  }

  /** `validate_ssid` on a string: length 1..32 in characters, no bad control, no dangerous character. */
  predicate ValidSsid(s: string)
  {
    && 0 < |s| <= MaxSsidLength
    && '\0' !in s
    && (forall i :: 0 <= i < |s| ==> !IsBadControl(s[i]))
    && (forall c :: c in DangerousChars ==> c !in s)
  }

  predicate ValidSsidValue(v: Json)
  {
    v.JStr? && ValidSsid(v.s)
  }

  /** Octets that UTF-8 needs for one character. */
  function Utf8Length(c: char): (n: nat)
    ensures 1 <= n <= 4
  {
    if (c as int) < 0x80 then 1 else if (c as int) < 0x800 then 2 else if (c as int) < 0x10000 then 3 else 4
  }

  function Utf8LengthOf(s: string): (n: nat)
    ensures n >= |s|
  {
    if s == [] then 0 else Utf8Length(s[0]) + Utf8LengthOf(s[1..])
  }

  /**
    The SSID element of IEEE 802.11-2016 (section 9.4.2.2) holds at most 32 octets; the
    validator counts characters, so 32 two-octet characters (64 octets) pass.
  */
  lemma {:induction false} Utf8LengthOfRepeat(c: char, n: nat)
    ensures Utf8LengthOf(seq(n, i => c)) == n * Utf8Length(c)
  {
    if n > 0 {
      assert seq(n, i => c)[1..] == seq(n - 1, i => c);
      Utf8LengthOfRepeat(c, n - 1);
    }
  }

  lemma SsidLimitCountsCharacters()
    ensures var s := seq(32, i => '\U{e9}');
      ValidSsid(s) && Utf8LengthOf(s) == 64
  {
    Utf8LengthOfRepeat('\U{e9}', 32);
  }

  // ---------------------------------------------------------------------------
  // Paths and file names

  /** `validate_file_path` on a string. */
  predicate ValidFilePath(s: string)
  {
    && |s| <= MaxPathLength
    && !Contains(s, "..")
    && '~' !in s
    && (forall c :: c in PathDangerousChars ==> c !in s)
  }

  /** A `..` or a `~` anywhere in a path, with any text around it, makes the path invalid. */
  lemma TraversalPathsRejected(a: string, b: string)
    ensures !ValidFilePath(a + ".." + b)
    ensures !ValidFilePath(a + "~" + b)
  {
    var s := a + ".." + b;
    assert s[|a|..|a| + 2] == "..";
    assert OccursAt(s, "..", |a|);
    assert (a + "~" + b)[|a|] == '~';
  }

  /**
    The path check is a deny-list: characters outside the unused `PATH_PATTERN` class,
    such as a space or `*`, are accepted.
  */
  lemma PathCheckIsDenyList()
    ensures ValidFilePath("/tmp/my logs/*")
  {
    var s := "/tmp/my logs/*";
    assert '.' !in s;
    forall i | 0 <= i <= |s| - 2
      ensures !OccursAt(s, "..", i)
    {
      assert s[i..i + 2][0] == s[i];
    }
  }

  predicate IsFilenameChar(c: char)
  {
    ('a' <= c <= 'z') || ('A' <= c <= 'Z') || ('0' <= c <= '9') || c == '.' || c == '_' || c == '-'
  }

  predicate AllFilenameChars(s: string)
  {
    forall i :: 0 <= i < |s| ==> IsFilenameChar(s[i])
  }

  /** `FILENAME_PATTERN.match(s)` with `^...+$`: one or more class characters, then maybe one newline. */
  predicate FilenamePatternMatches(s: string)
  {
    (|s| >= 1 && AllFilenameChars(s)) || (|s| >= 2 && s[|s| - 1] == '\n' && AllFilenameChars(s[..|s| - 1]))
  }

  /** `validate_filename` on a string, as written. */
  predicate ValidFilename(s: string)
  {
    && |s| <= MaxFilenameLength
    && s != "." && s != ".." && s != ""
    && s[0] != '.'
    && FilenamePatternMatches(s)
  }

  /** As written, a name followed by a newline is accepted. */
  lemma ValidFilenameAdmitsNewline()
    ensures ValidFilename("report.txt\n")
    ensures '\n' in "report.txt\n"
  {
    var s := "report.txt\n";
    assert s[..|s| - 1] == "report.txt";
  }

  /** The evidently intended file-name check: the whole name is drawn from the class. */
  predicate ValidFilenameStrict(s: string)
  {
    && |s| <= MaxFilenameLength
    && s != "" && s[0] != '.'
    && AllFilenameChars(s)
  }

  /** The corrected check accepts no newline and no character outside the class. */
  lemma StrictFilenameHasOnlyClassChars(s: string)
    requires ValidFilenameStrict(s)
    ensures '\n' !in s && '/' !in s
    ensures ValidFilename(s)
  {
    assert !IsFilenameChar('\n') && !IsFilenameChar('/');
  }

  // ---------------------------------------------------------------------------
  // Sanitising

  /** `''.join(c for c in s if ord(c) >= 32 or c in '\t\n\r')`. */
  function DropControls(s: string): (r: string)
    ensures IsSubseq(r, s)
    ensures forall i :: 0 <= i < |r| ==> !IsBadControl(r[i])
  {
    if s == [] then []
    else
      var rest := DropControls(s[1..]);
      assert s == [s[0]] + s[1..];
      if IsBadControl(s[0]) then
        SubseqSkip(s[0], rest, s[1..]);
        rest
      else
        SubseqCons(s[0], rest, s[1..]);
        [s[0]] + rest
  }

  /** `s.replace(cs[0], '')...replace(cs[n-1], '')` in list order. */
  function RemoveChars(s: string, cs: seq<char>): (r: string)
    ensures IsSubseq(r, s)
    ensures forall c :: c in cs ==> c !in r
  {
    if cs == [] then
      SubseqRefl(s);
      s
    else
      var prev := RemoveChars(s, cs[..|cs| - 1]);
      var r := RemoveChar(prev, cs[|cs| - 1]);
      SubseqTrans(r, prev, s);
      forall c | c in cs ensures c !in r {
        if c != cs[|cs| - 1] {
          assert c in cs[..|cs| - 1];
          SubseqFacts(r, prev);
        }
      }
      r
  }

  /**
    The SQL keyword pass of `sanitize_string`: for each keyword found in `upper` (the
    upper-cased text computed once, before any deletion), delete its upper-case and then
    its lower-case spelling from the text.
  */
  function StripKeywords(s: string, upper: string, kws: seq<string>): (r: string)
    requires forall k :: 0 <= k < |kws| ==> |kws[k]| > 0
    ensures IsSubseq(r, s)
  {
    if kws == [] then
      SubseqRefl(s);
      s
    else
      var prev := StripKeywords(s, upper, kws[..|kws| - 1]);
      var kw := kws[|kws| - 1];
      if Contains(upper, kw) then
        var once := RemoveAll(prev, kw);
        var r := RemoveAll(once, Lower(kw));
        SubseqTrans(once, prev, s);
        SubseqTrans(r, once, s);
        r
      else
        prev
  }

  /** The text that `sanitize_string` works on once the input is known to be a string. */
  function SanitizeText(s: string, maxLength: int): (r: string)
  {
    var t := if |s| > maxLength then Take(s, maxLength) else s;
    var cleaned := RemoveChars(DropControls(t), DangerousChars);
    Strip(StripKeywords(cleaned, Upper(cleaned), SqlKeywords))
  }

  /**
    What `sanitize_string` promises: the result is obtained from the input by deletions
    only, is no longer than a non-negative `maxLength`, and holds no dangerous character
    and no control character other than tab, newline and carriage return.
  */
  lemma SanitizeTextProperties(s: string, maxLength: int)
    ensures IsSubseq(SanitizeText(s, maxLength), s)
    ensures maxLength >= 0 ==> |SanitizeText(s, maxLength)| <= maxLength
    ensures forall c :: c in DangerousChars ==> c !in SanitizeText(s, maxLength)
    ensures forall c :: c in SanitizeText(s, maxLength) ==> !IsBadControl(c)
  {
    var t := if |s| > maxLength then Take(s, maxLength) else s;
    var d := DropControls(t);
    var cleaned := RemoveChars(d, DangerousChars);
    var k := StripKeywords(cleaned, Upper(cleaned), SqlKeywords);
    var r := Strip(k);
    assert r == SanitizeText(s, maxLength);
    SubseqSlice(s, 0, |t|);
    assert s[0..|t|] == t;
    SubseqTrans(d, t, s);
    SubseqTrans(cleaned, d, s);
    SubseqTrans(k, cleaned, s);
    SubseqTrans(r, k, s);
    SubseqTrans(r, k, cleaned);
    SubseqTrans(r, cleaned, d);
    SubseqFacts(r, cleaned);
    SubseqFacts(r, d);
    SubseqFacts(d, t);
    forall c | c in r ensures !IsBadControl(c) {
      var i :| 0 <= i < |d| && d[i] == c;
    }
  }

  /** Mixed-case keywords are detected but not deleted: only the two exact spellings are. */
  lemma MixedCaseKeywordSurvives()
    ensures StripKeywords("SeLeCt", Upper("SeLeCt"), ["SELECT"]) == "SeLeCt"
  {
    var s := "SeLeCt";
    assert OccursAt(Upper(s), "SELECT", 0);
    assert Lower("SELECT") == "select";
    assert RemoveAll(s, "SELECT") == s by {
      assert s[..6][1] == 'e';
      assert RemoveAll(s[1..], "SELECT") == s[1..];
    }
    assert RemoveAll(s, "select") == s by {
      assert s[..6][0] == 'S';
      assert RemoveAll(s[1..], "select") == s[1..];
    }
    assert ["SELECT"][..0] == [];
  }

  /** The `for char in dangerous_chars` loop of `sanitize_string`. */
  method RemoveDangerousChars(s: string) returns (sanitized: string)
    ensures sanitized == RemoveChars(s, DangerousChars)
  {
    sanitized := s;
    var i := 0;
    while i < |DangerousChars|
      invariant 0 <= i <= |DangerousChars|
      invariant sanitized == RemoveChars(s, DangerousChars[..i])
    {
      assert DangerousChars[..i + 1][..i] == DangerousChars[..i];
      sanitized := RemoveChar(sanitized, DangerousChars[i]);
      i := i + 1;
    }
    assert DangerousChars[..i] == DangerousChars;
  }

  /** The `for keyword in sql_keywords` loop of `sanitize_string`, which tests the upper-cased text taken before the loop. */
  method RemoveSqlKeywords(s: string, upperSanitized: string) returns (sanitized: string)
    ensures sanitized == StripKeywords(s, upperSanitized, SqlKeywords)
  {
    sanitized := s;
    var k := 0;
    while k < |SqlKeywords|
      invariant 0 <= k <= |SqlKeywords|
      invariant sanitized == StripKeywords(s, upperSanitized, SqlKeywords[..k])
    {
      assert SqlKeywords[..k + 1][..k] == SqlKeywords[..k];
      var keyword := SqlKeywords[k];
      if Contains(upperSanitized, keyword) {
        sanitized := RemoveAll(sanitized, keyword);
        sanitized := RemoveAll(sanitized, Lower(keyword));
      }
      k := k + 1;
    }
    assert SqlKeywords[..k] == SqlKeywords;
  }

  /** `sanitize_string(input_str, max_length)`. */
  method SanitizeString(input: Json, maxLength: int) returns (r: string)
    ensures !input.JStr? ==> r == ""
    ensures input.JStr? ==> r == SanitizeText(input.s, maxLength)
    ensures input.JStr? ==> IsSubseq(r, input.s)
    ensures maxLength >= 0 ==> |r| <= maxLength
    ensures forall c :: c in DangerousChars ==> c !in r
  {
    if !input.JStr? {
      return "";
    }
    var s := input.s;
    if |s| > maxLength {
      s := Take(s, maxLength);
    }
    var sanitized := DropControls(s);
    sanitized := RemoveDangerousChars(sanitized);
    var upperSanitized := Upper(sanitized);
    sanitized := RemoveSqlKeywords(sanitized, upperSanitized);
    r := Strip(sanitized);
    SanitizeTextProperties(input.s, maxLength);
  }

  // ---------------------------------------------------------------------------
  // Configuration structure

  const RequiredPathKeys: seq<string> := ["log_dir", "kismet_logs", "ignore_lists"]
  const TimingKeys: seq<string> := ["check_interval", "list_update_interval"]

  /** The `for path_key in required_paths` loop: present, and a string value is a valid path. */
  predicate PathEntriesValid(keys: seq<string>, m: map<string, Json>)
  {
    forall k :: 0 <= k < |keys| ==> PathEntryOk(m, keys[k])
  }

  /** The `for timing_key in timing_keys` loop: a present value is a number above zero. */
  predicate TimingEntriesValid(keys: seq<string>, m: map<string, Json>)
  {
    forall k :: 0 <= k < |keys| ==> TimingEntryOk(m, keys[k])
  }

  predicate PathEntryOk(m: map<string, Json>, key: string)
  {
    key in m && (m[key].JStr? ==> ValidFilePath(m[key].s))
  }

  predicate TimingEntryOk(m: map<string, Json>, key: string)
  {
    key in m ==> IsNumber(m[key]) && NumValue(m[key]) > 0.0
  }

  /** `validate_config_structure`, following the checks in source order. */
  predicate ValidConfigStructure(config: Json)
  {
    && config.JObj?
    && "paths" in config.fields && "timing" in config.fields
    && config.fields["paths"].JObj?
    && PathEntriesValid(RequiredPathKeys, config.fields["paths"].fields)
    && config.fields["timing"].JObj?
    && TimingEntriesValid(TimingKeys, config.fields["timing"].fields)
  }

  /** The configuration check, stated key by key. */
  lemma ValidConfigStructureIff(config: Json)
    ensures ValidConfigStructure(config) <==>
      && config.JObj?
      && "paths" in config.fields && "timing" in config.fields
      && config.fields["paths"].JObj? && config.fields["timing"].JObj?
      && PathEntryOk(config.fields["paths"].fields, "log_dir")
      && PathEntryOk(config.fields["paths"].fields, "kismet_logs")
      && PathEntryOk(config.fields["paths"].fields, "ignore_lists")
      && TimingEntryOk(config.fields["timing"].fields, "check_interval")
      && TimingEntryOk(config.fields["timing"].fields, "list_update_interval")
  {
    if config.JObj? {
      var m := config.fields;
      if "paths" in m && m["paths"].JObj? {
        var p := m["paths"].fields;
        assert RequiredPathKeys[0] == "log_dir" && RequiredPathKeys[1] == "kismet_logs" && RequiredPathKeys[2] == "ignore_lists";
      }
      if "timing" in m && m["timing"].JObj? {
        assert TimingKeys[0] == "check_interval" && TimingKeys[1] == "list_update_interval";
      }
    }
  }

  /** A boolean counts as a number: `True` is a valid interval, `False` is not. */
  lemma BooleanIntervalAccepted()
    ensures TimingEntryOk(map["check_interval" := JBool(true)], "check_interval")
    ensures !TimingEntryOk(map["check_interval" := JBool(false)], "check_interval")
  {
  }

  // ---------------------------------------------------------------------------
  // Ignore lists

  /** The validator `validate_ignore_list` picks: MAC for list type "mac", SSID otherwise. */
  predicate PassesValidator(v: Json, isMac: bool)
  {
    if isMac then ValidMacValue(v) else ValidSsidValue(v)
  }

  /** The entries of `items` that pass the chosen validator, in order. */
  function PassingStrings(items: seq<Json>, isMac: bool): (r: seq<string>)
    ensures |r| <= |items|
  {
    if items == [] then []
    else
      var init := items[..|items| - 1];
      var last := items[|items| - 1];
      PassingStrings(init, isMac) + (if PassesValidator(last, isMac) then [last.s] else [])
  }

  /** Each string as a JSON string value, in order. */
  function JStrs(xs: seq<string>): (r: seq<Json>)
    ensures |r| == |xs|
  {
    if xs == [] then [] else JStrs(xs[..|xs| - 1]) + [JStr(xs[|xs| - 1])]
  }

  /**
    A string is kept exactly when it is a string entry of `items` that the validator accepts,
    and the kept strings keep their order: they form a subsequence of `items`.
  */
  lemma {:induction false} PassingStringsMembers(items: seq<Json>, isMac: bool)
    ensures forall x :: x in PassingStrings(items, isMac) <==> JStr(x) in items && PassesValidator(JStr(x), isMac)
    ensures IsSubseq(JStrs(PassingStrings(items, isMac)), items)
  {
    PassingStringsInOrder(items, isMac);
    if items != [] {
      PassingStringsMembers(items[..|items| - 1], isMac);
      assert items == items[..|items| - 1] + [items[|items| - 1]];
    }
  }

  lemma {:induction false} PassingStringsInOrder(items: seq<Json>, isMac: bool)
    ensures IsSubseq(JStrs(PassingStrings(items, isMac)), items)
  {
    if items != [] {
      var init := items[..|items| - 1];
      var last := items[|items| - 1];
      PassingStringsInOrder(init, isMac);
      assert items == init + [last];
      var prev := PassingStrings(init, isMac);
      if PassesValidator(last, isMac) {
        assert (prev + [last.s])[..|prev|] == prev;
        assert JStrs(prev + [last.s]) == JStrs(prev) + [last];
        SubseqAppend(JStrs(prev), init, last);
      } else {
        assert PassingStrings(items, isMac) == prev;
        SubseqExtend(JStrs(prev), init, last);
      }
    }
  }

  /** One step of the scan: the next entry contributes its string exactly when it passes. */
  lemma PassingStringsStep(items: seq<Json>, i: nat, isMac: bool)
    requires i < |items|
    ensures PassingStrings(items[..i + 1], isMac)
      == PassingStrings(items[..i], isMac) + (if PassesValidator(items[i], isMac) then [items[i].s] else [])
  {
    assert items[..i + 1][..i] == items[..i];
  }

  /** `validate_ignore_list(ignore_list, list_type)`. */
  method ValidateIgnoreList(ignoreList: Json, listType: string) returns (r: seq<string>)
    ensures !ignoreList.JArr? ==> r == []
    ensures ignoreList.JArr? ==> r == PassingStrings(ignoreList.items, listType == "mac")
    ensures forall x :: x in r ==> if listType == "mac" then ValidMacAddress(x) else ValidSsid(x)
    ensures ignoreList.JArr? ==> IsSubseq(JStrs(r), ignoreList.items)
  {
    if !ignoreList.JArr? {
      return [];
    }
    var items := ignoreList.items;
    var isMac := listType == "mac";
    r := ScanIgnoreList(items, isMac);
    PassingStringsMembers(items, isMac);
    forall x | x in r ensures if listType == "mac" then ValidMacAddress(x) else ValidSsid(x) {
      assert JStr(x) in items && PassesValidator(JStr(x), isMac);
    }
  }

  /** The loop of `validate_ignore_list`: keeps each entry the validator accepts, in order. */
  method ScanIgnoreList(items: seq<Json>, isMac: bool) returns (validated: seq<string>)
    ensures validated == PassingStrings(items, isMac)
  {
    validated := [];
    var i := 0;
    while i < |items|
      invariant 0 <= i <= |items|
      invariant validated == PassingStrings(items[..i], isMac)
    {
      PassingStringsStep(items, i, isMac);
      if PassesValidator(items[i], isMac) {
        validated := validated + [items[i].s];
      }
      i := i + 1;
    }
    assert items[..i] == items;
  }
}
