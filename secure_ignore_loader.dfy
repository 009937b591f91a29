/**
  `SecureIgnoreLoader` (secure_ignore_loader.py): loading the MAC and SSID ignore lists
  from a file that holds either a JSON list or a Python assignment `name = [...]`, and
  the list computations of the two save operations.

  A file is a `FileState`: missing, unreadable (any error while opening or reading it),
  or readable with a text. `json.loads` is the parameter `parse`, whose `Decoding` tells a
  `JSONDecodeError` apart from any other exception.
*/
module SecureIgnoreLoader {
  import opened Wrappers
  import opened Json
  import opened PyStr
  import opened InputValidation

  /** The variable names the assignment format uses for the two lists. */
  const MacListName := "ignore_list"
  const SsidListName := "non_alert_ssid_list"

  datatype FileState = Missing | Unreadable | Text(content: string)

  // ---------------------------------------------------------------------------
  // `_parse_python_list`: comment removal and line joining

  /** One line with everything from its first `#` removed, then stripped. */
  function CleanLine(line: string): (r: string)
    ensures '#' !in r
    ensures IsSubseq(r, line)
  {
    var cut := BeforeFirst(line, '#');
    var r := Strip(cut);
    SubseqTrans(r, cut, line);
    SubseqFacts(r, cut);
    r
  }

  /** The comprehension that cleans every line. */
  function CleanLines(lines: seq<string>): (r: seq<string>)
  {
    seq(|lines|, k requires 0 <= k < |lines| => CleanLine(lines[k]))
  }

  /** The cleaned lines joined by single spaces: no newline and no `#` remains. */
  function CleanContent(content: string): (r: string)
    ensures '\n' !in r && '#' !in r
  {
    var lines := Split(content, '\n');
    var cleaned := CleanLines(lines);
    forall k | 0 <= k < |cleaned| ensures '\n' !in cleaned[k] && '#' !in cleaned[k] {
      SubseqFacts(cleaned[k], lines[k]);
    }
    JoinAvoids(cleaned, " ", '\n');
    JoinAvoids(cleaned, " ", '#');
    Join(cleaned, " ")
  }

  /** On a single line, cleaning is cutting at the first `#` and stripping. */
  lemma {:induction false} CleanContentOneLine(content: string)
    requires '\n' !in content
    ensures CleanContent(content) == Strip(BeforeFirst(content, '#'))
  {
    SplitWithoutSeparator(content, '\n');
    CleanLinesSingle(content);
    JoinSingle(CleanLine(content), " ");
  }

  lemma CleanLinesSingle(line: string)
    ensures CleanLines([line]) == [CleanLine(line)]
  {
    assert CleanLines([line])[0] == CleanLine(line);
  }

  // ---------------------------------------------------------------------------
  // `_parse_python_list`: the search for `name\s*=\s*(\[.*?\])`

  /** The end of the run of whitespace starting at `i` (what a greedy `\s*` consumes). */
  function SkipSpace(s: string, i: nat): (j: nat)
    requires i <= |s|
    ensures i <= j <= |s|
    ensures j == |s| || !IsSpace(s[j])
    decreases |s| - i
  {
    if i < |s| && IsSpace(s[i]) then SkipSpace(s, i + 1) else i
  }

  /** Everything skipped is whitespace. */
  lemma {:induction false} SkipSpaceSkipsSpace(s: string, i: nat)
    requires i <= |s|
    ensures forall k :: i <= k < SkipSpace(s, i) ==> IsSpace(s[k])
    decreases |s| - i
  {
    if i < |s| && IsSpace(s[i]) {
      SkipSpaceSkipsSpace(s, i + 1);
    }
  }

  /** The captured group `s[start..end]` of a match. */
  datatype Span = Span(start: nat, end: nat)

  /**
    The pattern tried at position `i`: `name`, whitespace, `=`, whitespace, `[`, then the
    shortest run up to the first `]`. The whitespace runs are consumed greedily; backing
    off would leave a whitespace character where `=` or `[` is needed, so there is at most
    one way to match.
  */
  function MatchAt(s: string, name: string, i: nat): (m: Option<Span>)
    requires i <= |s|
    ensures m.Some? ==> i + |name| <= m.value.start < m.value.end <= |s|
  {
    if !OccursAt(s, name, i) then None
    else
      var a := SkipSpace(s, i + |name|);
      if a == |s| || s[a] != '=' then None
      else
        var b := SkipSpace(s, a + 1);
        if b == |s| || s[b] != '[' then None
        else
          var c := FirstFrom(s, ']', b + 1);
          if c == |s| then None else Some(Span(b, c + 1))
  }

  /** A match starts with `name`, and its group is `[`, no `]`, then `]`. */
  lemma MatchAtShape(s: string, name: string, i: nat)
    requires i <= |s| && MatchAt(s, name, i).Some?
    ensures OccursAt(s, name, i)
    ensures s[MatchAt(s, name, i).value.start] == '[' && s[MatchAt(s, name, i).value.end - 1] == ']'
    ensures forall k :: MatchAt(s, name, i).value.start <= k < MatchAt(s, name, i).value.end - 1 ==> s[k] != ']'
  {
    var a := SkipSpace(s, i + |name|);
    var b := SkipSpace(s, a + 1);
    FirstFromIsFirst(s, ']', b + 1);
  }

  /** `re.search`: the leftmost position at or after `i` where the pattern matches. */
  function FindAssignment(s: string, name: string, i: nat): (p: Option<nat>)
    requires i <= |s|
    ensures p.Some? ==> i <= p.value <= |s| && MatchAt(s, name, p.value).Some?
    decreases |s| - i
  {
    if MatchAt(s, name, i).Some? then Some(i)
    else if i == |s| then None
    else FindAssignment(s, name, i + 1)
  }

  /** The search finds the leftmost match: no position before it matches, and no position at all when it finds none. */
  lemma {:induction false} FindAssignmentLeftmost(s: string, name: string, i: nat)
    requires i <= |s|
    ensures FindAssignment(s, name, i).Some? ==> forall k :: i <= k < FindAssignment(s, name, i).value ==> MatchAt(s, name, k).None?
    ensures FindAssignment(s, name, i).None? ==> forall k :: i <= k <= |s| ==> MatchAt(s, name, k).None?
    decreases |s| - i
  {
    if MatchAt(s, name, i).Some? {
      assert FindAssignment(s, name, i) == Some(i);
    } else if i == |s| {
      assert FindAssignment(s, name, i).None?;
    } else {
      var r := FindAssignment(s, name, i + 1);
      assert FindAssignment(s, name, i) == r;
      FindAssignmentLeftmost(s, name, i + 1);
      if r.Some? {
        assert forall k :: i + 1 <= k < r.value ==> MatchAt(s, name, k).None?;
      } else {
        assert forall k :: i + 1 <= k <= |s| ==> MatchAt(s, name, k).None?;
      }
    }
  }

  /** `re.search(pattern, s).group(1)`, or `None` when nothing matches. */
  function SearchGroup(s: string, name: string): (t: Option<string>)
  {
    match FindAssignment(s, name, 0)
    case None => None
    case Some(p) =>
      var sp := MatchAt(s, name, p).value;
      Some(s[sp.start..sp.end])
  }

  /** `[`, then no `]`, then `]`: the text of a captured list. */
  predicate ListShaped(t: string)
  {
    |t| >= 2 && t[0] == '[' && t[|t| - 1] == ']' && ']' !in t[..|t| - 1]
  }

  /** The group is `[`, then no `]`, then `]`, and every character of it comes from `s`. */
  lemma SearchGroupShape(s: string, name: string)
    requires SearchGroup(s, name).Some?
    ensures ListShaped(SearchGroup(s, name).value)
    ensures forall x :: x in SearchGroup(s, name).value ==> x in s
  {
    var p := FindAssignment(s, name, 0).value;
    MatchAtShape(s, name, p);
    var sp := MatchAt(s, name, p).value;
    var t := s[sp.start..sp.end];
    assert forall k :: 0 <= k < |t| ==> t[k] == s[sp.start + k];
    assert t[..|t| - 1] == s[sp.start..sp.end - 1];
  }

  /** `match.group(1)` on the cleaned content, or `None` when there is no assignment. */
  function AssignedList(content: string, name: string): (t: Option<string>)
  {
    SearchGroup(CleanContent(content), name)
  }

  /** There is no captured list exactly when no position of the cleaned content matches. */
  lemma AssignedListAbsent(content: string, name: string)
    ensures AssignedList(content, name).None? <==>
      forall i :: 0 <= i <= |CleanContent(content)| ==> MatchAt(CleanContent(content), name, i).None?
  {
    var clean := CleanContent(content);
    var p := FindAssignment(clean, name, 0);
    FindAssignmentLeftmost(clean, name, 0);
    if p.Some? {
      assert MatchAt(clean, name, p.value).Some?;
    }
  }

  /** The captured list text starts with `[`, ends with its first `]`, and has neither a newline nor a `#`. */
  lemma AssignedListShape(content: string, name: string)
    requires AssignedList(content, name).Some?
    ensures ListShaped(AssignedList(content, name).value)
    ensures '\n' !in AssignedList(content, name).value && '#' !in AssignedList(content, name).value
  {
    var clean := CleanContent(content);
    SearchGroupShape(clean, name);
    assert AssignedList(content, name) == SearchGroup(clean, name);
  }

  /** `content.startswith('[') and content.endswith(']')`. */
  predicate Bracketed(c: string)
  {
    |c| >= 1 && c[0] == '[' && c[|c| - 1] == ']'
  }

  /** The text handed to `json.loads`: every single quote turned into a double quote. */
  function JsonText(listText: string): (r: string)
    ensures |r| == |listText| && '\'' !in r
    ensures forall k :: 0 <= k < |r| && listText[k] != '\'' ==> r[k] == listText[k]
  {
    ReplaceChar(listText, '\'', '"')
  }

  lemma JsonTextKeepsBrackets(t: string)
    requires Bracketed(t)
    ensures Bracketed(JsonText(t))
  {
    assert JsonText(t)[0] == t[0];
    assert JsonText(t)[|t| - 1] == t[|t| - 1];
  }

  /**
    `_parse_python_list(content, name)`: `Raised` for the two `ValueError`s, and for any other
    exception `json.loads` raises, which escapes too.
  */
  function ParsePythonList(content: string, name: string, parse: string -> Decoding): (r: Result<Json>)
  {
    match AssignedList(content, name)
    case None => Raised
    case Some(t) =>
      match parse(JsonText(t))
      case Decoded(v) => Ok(v)
      case _ => Raised
  }

  /** The assignment parser raises exactly when there is no assignment or its list does not decode. */
  lemma ParsePythonListFacts(content: string, name: string, parse: string -> Decoding)
    ensures AssignedList(content, name).None? ==> ParsePythonList(content, name, parse).Raised?
    ensures forall t :: AssignedList(content, name) == Some(t) ==>
      ParsePythonList(content, name, parse) == if parse(JsonText(t)).Decoded? then Ok(parse(JsonText(t)).value) else Raised
  {
  }

  /** The whole content has no assignment of `name` when `name` does not occur in it at all. */
  lemma NoNameNoAssignment(content: string, name: string)
    requires forall i :: 0 <= i <= |CleanContent(content)| ==> !OccursAt(CleanContent(content), name, i)
    ensures AssignedList(content, name).None?
  {
    AssignedListAbsent(content, name);
  }

  // ---------------------------------------------------------------------------
  // Format dispatch

  /** What the loop iterates over: a list's items, `Raised` when iterating is impossible. */
  function Entries(v: Result<Json>): (r: Result<seq<Json>>)
    ensures r.Ok? <==> v.Ok? && v.value.JArr?
  {
    if v.Ok? && v.value.JArr? then Ok(v.value.items) else Raised
  }

  /**
    The entries of a readable file, before validation (`mac_list`/`ssid_list`). Only a
    `JSONDecodeError` on bracketed content falls back to the assignment parser; any other
    exception from `json.loads` reaches the outer handler.
  */
  function ListEntries(text: string, name: string, parse: string -> Decoding): (r: Result<seq<Json>>)
  {
    var c := Strip(text);
    if Bracketed(c) then
      match parse(c)
      case Decoded(v) => Entries(Ok(v))
      case DecodeError => Entries(ParsePythonList(c, name, parse))
      case OtherError => Raised
    else Entries(ParsePythonList(c, name, parse))
  }

  /**
    Trimmed content in brackets is first decoded as JSON: a list is taken as it is,
    whatever the variable name, anything else is an error.
  */
  lemma DispatchJson(text: string, name: string, name': string, parse: string -> Decoding)
    requires Bracketed(Strip(text)) && parse(Strip(text)).Decoded?
    ensures parse(Strip(text)).value.JArr? ==>
      ListEntries(text, name, parse) == Ok(parse(Strip(text)).value.items) == ListEntries(text, name', parse)
    ensures !parse(Strip(text)).value.JArr? ==> ListEntries(text, name, parse).Raised?
  {
  }

  /**
    Content not in brackets, or whose decoding is a `JSONDecodeError`, goes to the assignment parser; for
    content not in brackets the JSON decoding of the whole content then plays no part.
  */
  lemma DispatchAssignment(text: string, name: string, parse: string -> Decoding, parse': string -> Decoding)
    requires !Bracketed(Strip(text)) || parse(Strip(text)).DecodeError?
    ensures ListEntries(text, name, parse) == Entries(ParsePythonList(Strip(text), name, parse))
    ensures !Bracketed(Strip(text)) && (forall s :: s != Strip(text) ==> parse(s) == parse'(s)) ==>
      ListEntries(text, name, parse) == ListEntries(text, name, parse')
  {
    var c := Strip(text);
    if !Bracketed(c) && (forall s :: s != c ==> parse(s) == parse'(s)) {
      AssignmentIgnoresWholeText(c, name, parse, parse');
    }
  }

  /**
    Bracketed content on which `json.loads` raises something other than a `JSONDecodeError`
    is not retried as an assignment: the load fails.
  */
  lemma DispatchOtherError(text: string, name: string, parse: string -> Decoding)
    requires Bracketed(Strip(text)) && parse(Strip(text)).OtherError?
    ensures ListEntries(text, name, parse).Raised?
  {
  }

  /** The assignment parser decodes only the captured list, which is in brackets. */
  lemma AssignmentIgnoresWholeText(c: string, name: string, parse: string -> Decoding, parse': string -> Decoding)
    requires !Bracketed(c)
    requires forall s :: s != c ==> parse(s) == parse'(s)
    ensures ParsePythonList(c, name, parse) == ParsePythonList(c, name, parse')
  {
    var t := AssignedList(c, name);
    if t.Some? {
      ListTextIsNotWhole(c, name);
      var j := JsonText(t.value);
      assert parse(j) == parse'(j);
    }
    ParsePythonListReadsList(c, name, parse, parse');
  }

  /** The assignment parser's result depends on the decoder only through the captured list. */
  lemma ParsePythonListReadsList(c: string, name: string, parse: string -> Decoding, parse': string -> Decoding)
    requires AssignedList(c, name).Some? ==>
      parse(JsonText(AssignedList(c, name).value)) == parse'(JsonText(AssignedList(c, name).value))
    ensures ParsePythonList(c, name, parse) == ParsePythonList(c, name, parse')
  {
  }

  /** The decoded list text is in brackets, so it differs from a whole text that is not. */
  lemma ListTextIsNotWhole(c: string, name: string)
    requires !Bracketed(c) && AssignedList(c, name).Some?
    ensures JsonText(AssignedList(c, name).value) != c
  {
    AssignedListShape(c, name);
    JsonTextKeepsBrackets(AssignedList(c, name).value);
  }

  // ---------------------------------------------------------------------------
  // Loading

  /** Python's `[s.upper() for s in xs]`. */
  function Uppers(xs: seq<string>): (r: seq<string>)
    ensures |r| == |xs|
  {
    if xs == [] then [] else [Upper(xs[0])] + Uppers(xs[1..])
  }

  lemma {:induction false} UppersAt(xs: seq<string>, k: nat)
    requires k < |xs|
    ensures Uppers(xs)[k] == Upper(xs[k])
  {
    if k > 0 {
      UppersAt(xs[1..], k - 1);
    }
  }

  lemma {:induction false} UppersAppend(a: seq<string>, b: seq<string>)
    ensures Uppers(a + b) == Uppers(a) + Uppers(b)
  {
    if a == [] {
      assert a + b == b;
    } else {
      assert (a + b)[1..] == a[1..] + b;
      UppersAppend(a[1..], b);
      assert Uppers(a + b) == [Upper(a[0])] + Uppers(a[1..] + b);
    }
  }

  /** What `load_mac_list` returns, every error path giving `[]`. */
  function LoadedMacs(file: FileState, parse: string -> Decoding): (r: seq<string>)
  {
    match file
    case Text(t) =>
      (match ListEntries(t, MacListName, parse)
       case Ok(items) => Uppers(PassingStrings(items, true))
       case Raised => [])
    case _ => []
  }

  /** What `load_ssid_list` returns, every error path giving `[]`. */
  function LoadedSsids(file: FileState, parse: string -> Decoding): (r: seq<string>)
  {
    match file
    case Text(t) =>
      (match ListEntries(t, SsidListName, parse)
       case Ok(items) => PassingStrings(items, false)
       case Raised => [])
    case _ => []
  }

  /** A missing or unreadable file, or any exception while reading the list, gives `[]`. */
  lemma LoadFailuresGiveNothing(file: FileState, parse: string -> Decoding)
    ensures !file.Text? ==> LoadedMacs(file, parse) == [] && LoadedSsids(file, parse) == []
    ensures file.Text? && ListEntries(file.content, MacListName, parse).Raised? ==> LoadedMacs(file, parse) == []
    ensures file.Text? && ListEntries(file.content, SsidListName, parse).Raised? ==> LoadedSsids(file, parse) == []
  {
  }

  /** The entries a load gets to validate: the named list of a readable file, none otherwise. */
  function ListRead(file: FileState, name: string, parse: string -> Decoding): (r: seq<Json>)
    ensures !file.Text? ==> r == []
    ensures file.Text? && ListEntries(file.content, name, parse).Ok? ==> r == ListEntries(file.content, name, parse).value
  {
    match file
    case Text(t) =>
      (match ListEntries(t, name, parse)
       case Ok(items) => items
       case Raised => [])
    case _ => []
  }

  /** `[s.upper() for s in xs]` holds exactly the upper-cased members of `xs`. */
  lemma {:induction false} UppersMembers(xs: seq<string>)
    ensures forall x :: x in Uppers(xs) <==> exists y :: y in xs && x == Upper(y)
  {
    if xs != [] {
      UppersMembers(xs[1..]);
      assert xs == [xs[0]] + xs[1..];
      assert Uppers(xs) == [Upper(xs[0])] + Uppers(xs[1..]);
    }
  }

  /**
   * The loaded MAC list is the upper-cased valid string entries of the file's list, in the
   * file's order; it holds exactly the upper-cased images of those entries.
   */
  lemma LoadedMacsFacts(file: FileState, parse: string -> Decoding)
    ensures LoadedMacs(file, parse) == Uppers(PassingStrings(ListRead(file, MacListName, parse), true))
    ensures IsSubseq(JStrs(PassingStrings(ListRead(file, MacListName, parse), true)), ListRead(file, MacListName, parse))
    ensures forall x :: x in LoadedMacs(file, parse) <==>
      exists y :: JStr(y) in ListRead(file, MacListName, parse) && ValidMacAddress(y) && x == Upper(y)
  {
    var items := ListRead(file, MacListName, parse);
    var v := PassingStrings(items, true);
    PassingStringsMembers(items, true);
    UppersMembers(v);
    assert forall y :: y in v <==> JStr(y) in items && ValidMacAddress(y) by {
      forall y ensures y in v <==> JStr(y) in items && ValidMacAddress(y) {
        assert PassesValidator(JStr(y), true) <==> ValidMacAddress(y);
      }
    }
  }

  /**
   * The loaded SSID list is the valid string entries of the file's list, in the file's order,
   * and nothing else.
   */
  lemma LoadedSsidsFacts(file: FileState, parse: string -> Decoding)
    ensures IsSubseq(JStrs(LoadedSsids(file, parse)), ListRead(file, SsidListName, parse))
    ensures forall x :: x in LoadedSsids(file, parse) <==> JStr(x) in ListRead(file, SsidListName, parse) && ValidSsid(x)
  {
    var items := ListRead(file, SsidListName, parse);
    assert LoadedSsids(file, parse) == PassingStrings(items, false);
    PassingStringsMembers(items, false);
    forall x ensures x in LoadedSsids(file, parse) <==> JStr(x) in items && ValidSsid(x) {
      assert PassesValidator(JStr(x), false) <==> ValidSsid(x);
    }
  }

  /** The upper-cased images of valid MAC addresses are valid and upper-case. */
  lemma UppersOfValidMacs(xs: seq<string>)
    requires forall x :: x in xs ==> ValidMacAddress(x)
    ensures forall x :: x in Uppers(xs) ==> ValidMacAddress(x) && IsUpperCase(x)
  {
    forall x | x in Uppers(xs) ensures ValidMacAddress(x) && IsUpperCase(x) {
      var k :| 0 <= k < |xs| && Uppers(xs)[k] == x;
      UppersAt(xs, k);
      UpperKeepsMacValid(xs[k]);
      UpperIsUpperCase(xs[k]);
    }
  }

  /** Every loaded MAC address is valid and upper-case; every loaded SSID is valid. */
  lemma LoadedListsNormalised(file: FileState, parse: string -> Decoding)
    ensures forall x :: x in LoadedMacs(file, parse) ==> ValidMacAddress(x) && IsUpperCase(x)
    ensures forall x :: x in LoadedSsids(file, parse) ==> ValidSsid(x)
  {
    if file.Text? {
      var e := ListEntries(file.content, MacListName, parse);
      if e.Ok? {
        PassingStringsValid(e.value, true);
        UppersOfValidMacs(PassingStrings(e.value, true));
      }
      var e' := ListEntries(file.content, SsidListName, parse);
      if e'.Ok? {
        PassingStringsValid(e'.value, false);
      }
    }
  }

  /** What the chosen validator accepts is a valid MAC address or a valid SSID. */
  lemma PassingStringsValid(items: seq<Json>, isMac: bool)
    ensures forall x :: x in PassingStrings(items, isMac) ==> if isMac then ValidMacAddress(x) else ValidSsid(x)
  {
    PassingStringsMembers(items, isMac);
    forall x | x in PassingStrings(items, isMac) ensures if isMac then ValidMacAddress(x) else ValidSsid(x) {
      assert JStr(x) in items && PassesValidator(JStr(x), isMac);
    }
  }

  /** The validation loop of `load_mac_list`: valid string entries, upper-cased, in order. */
  method ValidatedMacs(items: seq<Json>) returns (r: seq<string>)
    ensures r == Uppers(PassingStrings(items, true))
    ensures forall x :: x in r ==> ValidMacAddress(x) && IsUpperCase(x)
  {
    var validated: seq<string> := [];
    var i := 0;
    while i < |items|
      invariant 0 <= i <= |items|
      invariant validated == Uppers(PassingStrings(items[..i], true))
    {
      PassingStringsStep(items, i, true);
      ghost var tail := if ValidMacValue(items[i]) then [items[i].s] else [];
      UppersAppend(PassingStrings(items[..i], true), tail);
      if items[i].JStr? && ValidMacAddress(items[i].s) {
        validated := validated + [Upper(items[i].s)];
      }
      i := i + 1;
    }
    assert items[..i] == items;
    r := validated;
    PassingStringsValid(items, true);
    UppersOfValidMacs(PassingStrings(items, true));
  }

  /** The validation loop of `load_ssid_list`: valid string entries unchanged, in order. */
  method ValidatedSsids(items: seq<Json>) returns (r: seq<string>)
    ensures r == PassingStrings(items, false)
    ensures forall x :: x in r ==> ValidSsid(x)
  {
    var validated: seq<string> := [];
    var i := 0;
    while i < |items|
      invariant 0 <= i <= |items|
      invariant validated == PassingStrings(items[..i], false)
    {
      PassingStringsStep(items, i, false);
      if items[i].JStr? && ValidSsid(items[i].s) {
        validated := validated + [items[i].s];
      }
      i := i + 1;
    }
    assert items[..i] == items;
    r := validated;
    PassingStringsValid(items, false);
  }

  /** `load_mac_list(file_path)`. */
  method LoadMacList(file: FileState, parse: string -> Decoding) returns (r: seq<string>)
    ensures r == LoadedMacs(file, parse)
    ensures forall x :: x in r ==> ValidMacAddress(x) && IsUpperCase(x)
    ensures r == Uppers(PassingStrings(ListRead(file, MacListName, parse), true))
    ensures forall x :: x in r <==>
      exists y :: JStr(y) in ListRead(file, MacListName, parse) && ValidMacAddress(y) && x == Upper(y)
  {
    LoadedMacsFacts(file, parse);
    if !file.Text? {
      return [];
    }
    var entries := ListEntries(file.content, MacListName, parse);
    if entries.Raised? {
      return [];
    }
    r := ValidatedMacs(entries.value);
  }

  /** `load_ssid_list(file_path)`. */
  method LoadSsidList(file: FileState, parse: string -> Decoding) returns (r: seq<string>)
    ensures r == LoadedSsids(file, parse)
    ensures forall x :: x in r ==> ValidSsid(x)
    ensures IsSubseq(JStrs(r), ListRead(file, SsidListName, parse))
    ensures forall x :: x in r <==> JStr(x) in ListRead(file, SsidListName, parse) && ValidSsid(x)
  {
    LoadedSsidsFacts(file, parse);
    if !file.Text? {
      return [];
    }
    var entries := ListEntries(file.content, SsidListName, parse);
    if entries.Raised? {
      return [];
    }
    r := ValidatedSsids(entries.value);
  }

  // ---------------------------------------------------------------------------
  // Saving (the list that is written; the JSON encoding and the file write are not modelled)

  /** The valid MAC addresses of `macs`, in their order. */
  function ValidMacs(macs: seq<string>): (r: seq<string>)
    ensures IsSubseq(r, macs)
    ensures forall x :: x in r <==> x in macs && ValidMacAddress(x)
  {
    if macs == [] then []
    else
      var rest := ValidMacs(macs[1..]);
      assert macs == [macs[0]] + macs[1..];
      SubseqFacts(rest, macs[1..]);
      if ValidMacAddress(macs[0]) then
        SubseqCons(macs[0], rest, macs[1..]);
        [macs[0]] + rest
      else
        SubseqSkip(macs[0], rest, macs[1..]);
        rest
  }

  /** `[mac.upper() for mac in mac_list if validate_mac_address(mac)]`. */
  function SaveMacList(macs: seq<string>): (r: seq<string>)
    ensures |r| <= |macs|
    ensures r == Uppers(ValidMacs(macs))
    ensures forall x :: x in r ==> ValidMacAddress(x) && IsUpperCase(x)
    ensures forall x :: x in r <==> exists y :: y in macs && ValidMacAddress(y) && x == Upper(y)
  {
    if macs == [] then []
    else
      var rest := SaveMacList(macs[1..]);
      assert macs == [macs[0]] + macs[1..];
      if ValidMacAddress(macs[0]) then
        UpperKeepsMacValid(macs[0]);
        UpperIsUpperCase(macs[0]);
        var v := ValidMacs(macs[1..]);
        assert ValidMacs(macs) == [macs[0]] + v;
        assert ([macs[0]] + v)[1..] == v;
        assert Uppers(ValidMacs(macs)) == [Upper(macs[0])] + Uppers(v);
        [Upper(macs[0])] + rest
      else
        assert ValidMacs(macs) == ValidMacs(macs[1..]);
        rest
  }

  /** `[ssid for ssid in ssid_list if validate_ssid(ssid)]`. */
  function SaveSsidList(ssids: seq<string>): (r: seq<string>)
    ensures IsSubseq(r, ssids)
    ensures forall x :: x in r <==> x in ssids && ValidSsid(x)
  {
    if ssids == [] then []
    else
      var rest := SaveSsidList(ssids[1..]);
      assert ssids == [ssids[0]] + ssids[1..];
      SubseqFacts(rest, ssids[1..]);
      if ValidSsid(ssids[0]) then
        SubseqCons(ssids[0], rest, ssids[1..]);
        [ssids[0]] + rest
      else
        SubseqSkip(ssids[0], rest, ssids[1..]);
        rest
  }

  /** A list of valid upper-case MAC addresses is saved unchanged. */
  lemma {:induction false} SaveMacListKeepsNormalised(macs: seq<string>)
    requires forall x :: x in macs ==> ValidMacAddress(x) && IsUpperCase(x)
    ensures SaveMacList(macs) == macs
  {
    if macs != [] {
      assert macs[0] in macs;
      UpperIsUpperCase(macs[0]);
      assert Upper(macs[0]) == macs[0];
      SaveMacListKeepsNormalised(macs[1..]);
    }
  }

  /** Saving a saved MAC list changes nothing. */
  lemma SaveMacListIdempotent(macs: seq<string>)
    ensures SaveMacList(SaveMacList(macs)) == SaveMacList(macs)
  {
    SaveMacListKeepsNormalised(SaveMacList(macs));
  }

  /** A list of valid SSIDs is saved unchanged. */
  lemma {:induction false} SaveSsidListKeepsValid(ssids: seq<string>)
    requires forall x :: x in ssids ==> ValidSsid(x)
    ensures SaveSsidList(ssids) == ssids
  {
    if ssids != [] {
      assert ssids[0] in ssids;
      SaveSsidListKeepsValid(ssids[1..]);
    }
  }

  /** Saving a saved SSID list changes nothing. */
  lemma SaveSsidListIdempotent(ssids: seq<string>)
    ensures SaveSsidList(SaveSsidList(ssids)) == SaveSsidList(ssids)
  {
    SaveSsidListKeepsValid(SaveSsidList(ssids));
  }

  /** What is loaded is already in saved form: saving the loaded lists writes them back unchanged. */
  lemma LoadedListsAreSaveFixpoints(file: FileState, parse: string -> Decoding)
    ensures SaveMacList(LoadedMacs(file, parse)) == LoadedMacs(file, parse)
    ensures SaveSsidList(LoadedSsids(file, parse)) == LoadedSsids(file, parse)
  {
    LoadedListsNormalised(file, parse);
    SaveMacListKeepsNormalised(LoadedMacs(file, parse));
    SaveSsidListKeepsValid(LoadedSsids(file, parse));
  }
}
