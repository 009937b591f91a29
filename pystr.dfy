/**
  Python string semantics used by the core: `str.upper`, `str.isspace`, `str.strip`,
  `str.split` on one character, `str.replace(old, '')`, `str(int)`, slicing with
  saturation, comparison of strings, and the subsequence relation that deletion-only
  transformations keep.
*/
module PyStr {

  // ---------------------------------------------------------------------------
  // Subsequences

  /** `a` is obtained from `b` by deleting zero or more elements. */
  predicate IsSubseq<T(==)>(a: seq<T>, b: seq<T>)
    decreases |b|
  {
    a == [] || (b != [] && ((a[0] == b[0] && IsSubseq(a[1..], b[1..])) || IsSubseq(a, b[1..])))
  }

  lemma {:induction false} SubseqRefl<T>(a: seq<T>)
    ensures IsSubseq(a, a)
    decreases |a|
  {
    if a != [] {
      SubseqRefl(a[1..]);
    }
  }

  lemma {:induction false} SubseqFacts<T>(a: seq<T>, b: seq<T>)
    requires IsSubseq(a, b)
    ensures |a| <= |b|
    ensures forall x :: x in a ==> x in b
    decreases |b|
  {
    if a != [] {
      if a[0] == b[0] && IsSubseq(a[1..], b[1..]) {
        SubseqFacts(a[1..], b[1..]);
        forall x | x in a ensures x in b {
          if x != a[0] {
            assert x in a[1..];
          }
        }
      } else {
        SubseqFacts(a, b[1..]);
      }
    }
  }

  lemma {:induction false} SubseqTrans<T>(a: seq<T>, b: seq<T>, c: seq<T>)
    requires IsSubseq(a, b) && IsSubseq(b, c)
    ensures IsSubseq(a, c)
    decreases |c|
  {
    if a != [] {
      if IsSubseq(b, c[1..]) {
        SubseqTrans(a, b, c[1..]);
      } else {
        assert b[0] == c[0] && IsSubseq(b[1..], c[1..]);
        if a[0] == b[0] && IsSubseq(a[1..], b[1..]) {
          SubseqTrans(a[1..], b[1..], c[1..]);
        } else {
          SubseqTrans(a, b[1..], c[1..]);
        }
      }
    }
  }

  lemma {:induction false} SubseqSlice<T>(s: seq<T>, i: nat, j: nat)
    requires i <= j <= |s|
    ensures IsSubseq(s[i..j], s)
    decreases |s|
  {
    if i > 0 {
      assert s[i..j] == s[1..][i - 1..j - 1];
      SubseqSlice(s[1..], i - 1, j - 1);
    } else if j > 0 {
      assert s[i..j][1..] == s[1..][0..j - 1];
      SubseqSlice(s[1..], 0, j - 1);
    }
  }

  lemma {:induction false} SubseqCons<T>(x: T, a: seq<T>, b: seq<T>)
    requires IsSubseq(a, b)
    ensures IsSubseq([x] + a, [x] + b)
  {
    assert ([x] + a)[1..] == a;
    assert ([x] + b)[1..] == b;
  }

  /** A common last element extends a subsequence. */
  lemma {:induction false} SubseqAppend<T>(a: seq<T>, b: seq<T>, x: T)
    requires IsSubseq(a, b)
    ensures IsSubseq(a + [x], b + [x])
    decreases |b|
  {
    if a == [] {
      if b != [] {
        SubseqAppend(a, b[1..], x);
        assert (b + [x])[1..] == b[1..] + [x];
      }
    } else if a[0] == b[0] && IsSubseq(a[1..], b[1..]) {
      SubseqAppend(a[1..], b[1..], x);
      assert (a + [x])[1..] == a[1..] + [x];
      assert (b + [x])[1..] == b[1..] + [x];
    } else {
      SubseqAppend(a, b[1..], x);
      assert (b + [x])[1..] == b[1..] + [x];
    }
  }

  /** An extra last element of the longer sequence keeps a subsequence. */
  lemma {:induction false} SubseqExtend<T>(a: seq<T>, b: seq<T>, x: T)
    requires IsSubseq(a, b)
    ensures IsSubseq(a, b + [x])
    decreases |b|
  {
    if a != [] {
      assert (b + [x])[1..] == b[1..] + [x];
      if a[0] == b[0] && IsSubseq(a[1..], b[1..]) {
        SubseqExtend(a[1..], b[1..], x);
      } else {
        SubseqExtend(a, b[1..], x);
      }
    }
  }

  lemma {:induction false} SubseqSkip<T>(x: T, a: seq<T>, b: seq<T>)
    requires IsSubseq(a, b)
    ensures IsSubseq(a, [x] + b)
  {
    assert ([x] + b)[1..] == b;
  }

  // ---------------------------------------------------------------------------
  // Characters

  /** ASCII upper-casing of one character (the only case mapping the model needs exactly). */
  function UpperChar(c: char): (u: char)
  {
    if 'a' <= c <= 'z' then (c as int - 32) as char else c
  }

  /** ASCII lower-casing of one character. */
  function LowerChar(c: char): (l: char)
  {
    if 'A' <= c <= 'Z' then (c as int + 32) as char else c
  }

  /** Python's `str.isspace` for one character. */
  predicate IsSpace(c: char)
  {
    var n := c as int;
    (9 <= n <= 13) || (28 <= n <= 32) || n == 0x85 || n == 0xA0 || n == 0x1680
    || (0x2000 <= n <= 0x200A) || n == 0x2028 || n == 0x2029 || n == 0x202F
    || n == 0x205F || n == 0x3000
  }

  predicate IsDigit(c: char)
  {
    '0' <= c <= '9'
  }

  // ---------------------------------------------------------------------------
  // Case mapping

  /** `s.upper()`, restricted to ASCII letters. */
  function Upper(s: string): (r: string)
    ensures |r| == |s|
    ensures forall i :: 0 <= i < |s| ==> r[i] == UpperChar(s[i])
  {
    seq(|s|, i requires 0 <= i < |s| => UpperChar(s[i]))
  }

  /** `s.lower()`, restricted to ASCII letters. */
  function Lower(s: string): (r: string)
    ensures |r| == |s|
    ensures forall i :: 0 <= i < |s| ==> r[i] == LowerChar(s[i])
  {
    seq(|s|, i requires 0 <= i < |s| => LowerChar(s[i]))
  }

  predicate IsUpperCase(s: string)
  {
    forall i :: 0 <= i < |s| ==> UpperChar(s[i]) == s[i]
  }

  lemma UpperIsUpperCase(s: string)
    ensures IsUpperCase(Upper(s))
    ensures Upper(Upper(s)) == Upper(s)
  {
  }

  // ---------------------------------------------------------------------------
  // Stripping

  /** `s.lstrip()`: drops leading whitespace. */
  function LStrip(s: string): (r: string)
    ensures |r| <= |s| && r == s[|s| - |r|..]
    ensures forall k :: 0 <= k < |s| - |r| ==> IsSpace(s[k])
    ensures r == [] || !IsSpace(r[0])
  {
    if s != [] && IsSpace(s[0]) then LStrip(s[1..]) else s
  }

  /** `s.rstrip()`: drops trailing whitespace. */
  function RStrip(s: string): (r: string)
    ensures |r| <= |s| && r == s[..|r|]
    ensures forall k :: |r| <= k < |s| ==> IsSpace(s[k])
    ensures r == [] || !IsSpace(r[|r| - 1])
  {
    if s != [] && IsSpace(s[|s| - 1]) then RStrip(s[..|s| - 1]) else s
  }

  /** `s.strip()`: a contiguous piece of `s` with no whitespace at either end. */
  function Strip(s: string): (r: string)
    ensures r == [] || (!IsSpace(r[0]) && !IsSpace(r[|r| - 1]))
    ensures IsSubseq(r, s)
    ensures TrimmedFrom(r, s)
  {
    var l := LStrip(s);
    var r := RStrip(l);
    SliceBetweenSpaces(s, l, r);
    assert r != [] ==> r[0] == l[0];
    r
  }

  /** `r` is a contiguous slice of `s` with only whitespace before and after it. */
  predicate TrimmedFrom(r: string, s: string)
  {
    exists i, j ::
      && 0 <= i <= j <= |s| && r == s[i..j]
      && (forall k :: 0 <= k < i ==> IsSpace(s[k]))
      && (forall k :: j <= k < |s| ==> IsSpace(s[k]))
  }

  /**
   * A prefix `r` of a suffix `l` of `s`, where `s` has only whitespace before `l` and `l` only
   * whitespace after `r`, is a slice of `s` with only whitespace around it.
   */
  lemma SliceBetweenSpaces(s: string, l: string, r: string)
    requires |l| <= |s| && l == s[|s| - |l|..]
    requires forall k :: 0 <= k < |s| - |l| ==> IsSpace(s[k])
    requires |r| <= |l| && r == l[..|r|]
    requires forall k :: |r| <= k < |l| ==> IsSpace(l[k])
    ensures IsSubseq(r, s)
    ensures TrimmedFrom(r, s)
  {
    var i := |s| - |l|;
    var j := i + |r|;
    assert r == s[i..j];
    forall k | j <= k < |s|
      ensures IsSpace(s[k])
    {
      assert s[k] == l[k - i];
    }
    assert
      && 0 <= i <= j <= |s| && r == s[i..j]
      && (forall k :: 0 <= k < i ==> IsSpace(s[k]))
      && (forall k :: j <= k < |s| ==> IsSpace(s[k]));
    StripIsSubseq(s, i, l, r);
  }

  lemma StripIsSubseq(s: string, i: nat, l: string, r: string)
    requires i <= |s| && l == s[i..] && |r| <= |l| && r == l[..|r|]
    ensures IsSubseq(r, s)
  {
    SubseqSlice(l, 0, |r|);
    assert l[0..|r|] == r;
    SubseqSlice(s, i, |s|);
    assert s[i..|s|] == l;
    SubseqTrans(r, l, s);
  }

  // ---------------------------------------------------------------------------
  // Splitting and joining

  /** `s.split(c)` for a one-character separator: always at least one piece. */
  function Split(s: string, c: char): (r: seq<string>)
    ensures |r| >= 1
    ensures forall k :: 0 <= k < |r| ==> c !in r[k]
  {
    if s == [] then [[]]
    else
      var rest := Split(s[1..], c);
      if s[0] == c then [[]] + rest else [[s[0]] + rest[0]] + rest[1..]
  }

  /** `sep.join(parts)`. */
  function Join(parts: seq<string>, sep: string): (r: string)
  {
    if parts == [] then []
    else if |parts| == 1 then parts[0]
    else parts[0] + sep + Join(parts[1..], sep)
  }

  /** Joining a single part gives that part. */
  lemma JoinSingle(part: string, sep: string)
    ensures Join([part], sep) == part
  {
  }

  /** Splitting on a character and joining with that character gives the string back. */
  lemma {:induction false} JoinSplit(s: string, c: char)
    ensures Join(Split(s, c), [c]) == s
  {
    if s != [] {
      var rest := Split(s[1..], c);
      JoinSplit(s[1..], c);
      if s[0] == c {
        assert Split(s, c) == [[]] + rest;
      } else {
        assert Split(s, c) == [[s[0]] + rest[0]] + rest[1..];
        if |rest| == 1 {
        } else {
          assert Join(rest, [c]) == rest[0] + [c] + Join(rest[1..], [c]);
        }
      }
    }
  }

  /** The first position at or after `i` holding `c`, or `|s|` when there is none. */
  function FirstFrom(s: string, c: char, i: nat): (j: nat)
    requires i <= |s|
    ensures i <= j <= |s|
    ensures j < |s| ==> s[j] == c
    decreases |s| - i
  {
    if i < |s| && s[i] != c then FirstFrom(s, c, i + 1) else i
  }

  /** Nothing between `i` and the position found is `c`: it is the first `c` from `i`. */
  lemma {:induction false} FirstFromIsFirst(s: string, c: char, i: nat)
    requires i <= |s|
    ensures forall k :: i <= k < FirstFrom(s, c, i) ==> s[k] != c
    decreases |s| - i
  {
    if i < |s| && s[i] != c {
      FirstFromIsFirst(s, c, i + 1);
    }
  }

  /** Without the separator there is one piece, the whole string. */
  lemma {:induction false} SplitWithoutSeparator(s: string, c: char)
    requires c !in s
    ensures Split(s, c) == [s]
  {
    if s != [] {
      SplitWithoutSeparator(s[1..], c);
      assert [s[0]] + s[1..] == s;
    }
  }

  /** A first piece free of the separator splits off on its own. */
  lemma {:induction false} SplitAfterPiece(a: string, b: string, c: char)
    requires c !in a
    ensures Split(a + [c] + b, c) == [a] + Split(b, c)
  {
    var s := a + [c] + b;
    if a == [] {
      assert s[1..] == b;
    } else {
      assert s[1..] == a[1..] + [c] + b;
      SplitAfterPiece(a[1..], b, c);
      assert [a[0]] + a[1..] == a;
    }
  }

  /** Occurrences of `c` in `s`. */
  function CountChar(s: string, c: char): (n: nat)
    ensures n <= |s|
  {
    if s == [] then 0 else (if s[0] == c then 1 else 0) + CountChar(s[1..], c)
  }

  lemma {:induction false} SplitPieces(s: string, c: char)
    ensures |Split(s, c)| == CountChar(s, c) + 1
  {
    if s != [] {
      SplitPieces(s[1..], c);
    }
  }

  /** `s.split(c)[0]`: everything before the first `c`. */
  function BeforeFirst(s: string, c: char): (r: string)
    ensures c !in r
    ensures IsSubseq(r, s) && |r| <= |s| && r == s[..|r|]
    ensures |r| < |s| ==> s[|r|] == c
  {
    if s == [] then []
    else if s[0] == c then []
    else
      var r := [s[0]] + BeforeFirst(s[1..], c);
      SubseqCons(s[0], BeforeFirst(s[1..], c), s[1..]);
      assert [s[0]] + s[1..] == s;
      r
  }

  lemma {:induction false} BeforeFirstIsFirstPiece(s: string, c: char)
    ensures BeforeFirst(s, c) == Split(s, c)[0]
  {
    if s != [] && s[0] != c {
      BeforeFirstIsFirstPiece(s[1..], c);
    }
  }

  /** Joining pieces free of `x` with a separator free of `x` gives a string free of `x`. */
  lemma {:induction false} JoinAvoids(parts: seq<string>, sep: string, x: char)
    requires forall k :: 0 <= k < |parts| ==> x !in parts[k]
    requires x !in sep
    ensures x !in Join(parts, sep)
  {
    if |parts| > 1 {
      JoinAvoids(parts[1..], sep, x);
    }
  }

  /** `s.replace(a, b)` for one-character `a` and `b`. */
  function ReplaceChar(s: string, a: char, b: char): (r: string)
    ensures |r| == |s|
    ensures forall i :: 0 <= i < |s| ==> r[i] == if s[i] == a then b else s[i]
  {
    seq(|s|, i requires 0 <= i < |s| => if s[i] == a then b else s[i])
  }

  // ---------------------------------------------------------------------------
  // Substrings and deletion

  predicate OccursAt(s: string, t: string, i: int)
  {
    0 <= i && i + |t| <= |s| && s[i..i + |t|] == t
  }

  /** `t in s` for strings. */
  predicate Contains(s: string, t: string)
  {
    exists i | 0 <= i <= |s| - |t| :: OccursAt(s, t, i)
  }

  /** `s.replace(t, '')`: deletes the leftmost non-overlapping occurrences of `t` in one pass. */
  function RemoveAll(s: string, t: string): (r: string)
    requires |t| > 0
    ensures IsSubseq(r, s)
    decreases |s|
  {
    if |s| < |t| then
      SubseqRefl(s);
      s
    else if s[..|t|] == t then
      var r := RemoveAll(s[|t|..], t);
      SubseqSlice(s, |t|, |s|);
      assert s[|t|..|s|] == s[|t|..];
      SubseqTrans(r, s[|t|..], s);
      r
    else
      var r := [s[0]] + RemoveAll(s[1..], t);
      SubseqCons(s[0], RemoveAll(s[1..], t), s[1..]);
      assert [s[0]] + s[1..] == s;
      r
  }

  /** A text that does not start with `t` keeps its first character. */
  lemma RemoveAllKeeps(s: string, t: string)
    requires 0 < |t| <= |s| && s[..|t|] != t
    ensures RemoveAll(s, t) == [s[0]] + RemoveAll(s[1..], t)
  {
  }

  /** A text that starts with `t` loses it. */
  lemma RemoveAllCuts(s: string, t: string)
    requires 0 < |t| <= |s| && s[..|t|] == t
    ensures RemoveAll(s, t) == RemoveAll(s[|t|..], t)
  {
  }

  /** One pass only: deleting an occurrence can join its neighbours into a new one, which stays. */
  lemma RemoveAllSinglePass()
    ensures RemoveAll("SELSELECTECT", "SELECT") == "SELECT"
  {
    var t := "SELECT";
    var s0, s1, s2, s3 := "SELSELECTECT", "ELSELECTECT", "LSELECTECT", "SELECTECT";
    assert RemoveAll("ECT", t) == "ECT";
    assert s3[..6] == t && s3[6..] == "ECT";
    RemoveAllCuts(s3, t);
    assert s2[..6][0] != t[0] && s2[1..] == s3;
    RemoveAllKeeps(s2, t);
    assert s1[..6][0] != t[0] && s1[1..] == s2;
    RemoveAllKeeps(s1, t);
    assert s0[..6][3] != t[3] && s0[1..] == s1;
    RemoveAllKeeps(s0, t);
    assert RemoveAll(s0, t) == [s0[0]] + ([s1[0]] + ([s2[0]] + "ECT"));
  }

  /** `s.replace(c, '')` for one character: every occurrence of `c` is deleted. */
  function RemoveChar(s: string, c: char): (r: string)
    ensures c !in r
    ensures IsSubseq(r, s)
    ensures forall x :: x in s && x != c ==> x in r
  {
    if s == [] then []
    else
      var rest := RemoveChar(s[1..], c);
      assert s == [s[0]] + s[1..];
      if s[0] == c then
        SubseqSkip(s[0], rest, s[1..]);
        rest
      else
        SubseqCons(s[0], rest, s[1..]);
        [s[0]] + rest
  }

  // ---------------------------------------------------------------------------
  // Python slicing with saturation

  /** `s[:n]` for a possibly negative or oversized `n`. */
  function Take(s: string, n: int): (r: string)
    ensures |r| <= |s| && r == s[..|r|]
    ensures n >= 0 ==> |r| == if n <= |s| then n else |s|
    ensures n < 0 ==> |r| == if -n <= |s| then |s| + n else 0
  {
    if n >= 0 then (if n <= |s| then s[..n] else s)
    else (if -n <= |s| then s[..|s| + n] else [])
  }

  /** `s[n:]` for a non-negative `n`. */
  function Drop(s: string, n: nat): (r: string)
    ensures |r| == if n <= |s| then |s| - n else 0
  {
    if n <= |s| then s[n..] else []
  }

  // ---------------------------------------------------------------------------
  // Decimal rendering of naturals: `str(n)`

  function DigitChar(d: nat): (c: char)
    requires d < 10
    ensures IsDigit(c)
  {
    ('0' as int + d) as char
  }

  function DigitValue(c: char): (d: nat)
    requires IsDigit(c)
    ensures d < 10
  {
    c as int - '0' as int
  }

  /** `str(n)` for a natural number. */
  function NatToString(n: nat): (s: string)
    ensures |s| >= 1
    ensures forall i :: 0 <= i < |s| ==> IsDigit(s[i])
  {
    if n < 10 then [DigitChar(n)] else NatToString(n / 10) + [DigitChar(n % 10)]
  }

  /** Reads a string of decimal digits back as a number. */
  function ParseDigits(s: string): (n: nat)
    requires forall i :: 0 <= i < |s| ==> IsDigit(s[i])
  {
    if s == [] then 0 else ParseDigits(s[..|s| - 1]) * 10 + DigitValue(s[|s| - 1])
  }

  lemma {:induction false} ParseNatToString(n: nat)
    ensures ParseDigits(NatToString(n)) == n
  {
    if n >= 10 {
      var s := NatToString(n);
      assert s[..|s| - 1] == NatToString(n / 10);
      ParseNatToString(n / 10);
    }
  }

  /** Different numbers have different decimal renderings. */
  lemma NatToStringInjective(a: nat, b: nat)
    requires NatToString(a) == NatToString(b)
    ensures a == b
  {
    ParseNatToString(a);
    ParseNatToString(b);
  }

  // ---------------------------------------------------------------------------
  // Python string comparison: code-point lexicographic order, a proper prefix first

  predicate LexLe(a: string, b: string)
  {
    a == [] || (b != [] && (a[0] < b[0] || (a[0] == b[0] && LexLe(a[1..], b[1..]))))
  }

  lemma {:induction false} LexLeTotal(a: string, b: string)
    ensures LexLe(a, b) || LexLe(b, a)
  {
    if a != [] && b != [] && a[0] == b[0] {
      LexLeTotal(a[1..], b[1..]);
    }
  }

  lemma {:induction false} LexLeTrans(a: string, b: string, c: string)
    requires LexLe(a, b) && LexLe(b, c)
    ensures LexLe(a, c)
  {
    if a != [] && b != [] && c != [] && a[0] == b[0] && b[0] == c[0] {
      LexLeTrans(a[1..], b[1..], c[1..]);
    }
  }

  lemma {:induction false} LexLeAntisym(a: string, b: string)
    requires LexLe(a, b) && LexLe(b, a)
    ensures a == b
  {
    if a != [] && b != [] {
      LexLeAntisym(a[1..], b[1..]);
      assert a == [a[0]] + a[1..] && b == [b[0]] + b[1..];
    }
  }

  lemma {:induction false} LexLeRefl(a: string)
    ensures LexLe(a, a)
  {
    if a != [] {
      LexLeRefl(a[1..]);
    }
  }

  /** `min(xs)` over strings. */
  function LexMin(xs: seq<string>): (m: string)
    requires |xs| > 0
    ensures m in xs
    ensures forall x :: x in xs ==> LexLe(m, x)
  {
    if |xs| == 1 then
      LexLeRefl(xs[0]);
      xs[0]
    else
      var rest := LexMin(xs[1..]);
      LexLeTotal(xs[0], rest);
      LexLeRefl(xs[0]);
      var m := if LexLe(rest, xs[0]) then rest else xs[0];
      forall x | x in xs ensures LexLe(m, x) {
        if x in xs[1..] {
          if m != rest {
            LexLeTrans(m, rest, x);
          }
        } else {
          assert x == xs[0];
        }
      }
      m
  }

  /** `max(xs)` over strings. */
  function LexMax(xs: seq<string>): (m: string)
    requires |xs| > 0
    ensures m in xs
    ensures forall x :: x in xs ==> LexLe(x, m)
  {
    if |xs| == 1 then
      LexLeRefl(xs[0]);
      xs[0]
    else
      var rest := LexMax(xs[1..]);
      LexLeTotal(xs[0], rest);
      LexLeRefl(xs[0]);
      var m := if LexLe(xs[0], rest) then rest else xs[0];
      forall x | x in xs ensures LexLe(x, m) {
        if x in xs[1..] {
          if m != rest {
            LexLeTrans(x, rest, m);
          }
        } else {
          assert x == xs[0];
        }
      }
      m
  }
}
