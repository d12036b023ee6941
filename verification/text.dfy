/** The string operations the dashboard relies on: Python's substring test
    (`pat in s`), `str.split(sep)`, decimal rendering of integers, the ASCII
    part of `str.lower()`, and the unit display name (`name.split('-')[0]`). */
module Text {
  import opened Basics

  /** `pat` occurs in `s` starting at index `i`. */
  predicate OccursAt(s: string, pat: string, i: int)
  {
    0 <= i && i + |pat| <= |s| && s[i..i + |pat|] == pat
  }

  /** Python's `pat in s`. */
  predicate Contains(s: string, pat: string)
  {
    exists i | 0 <= i <= |s| - |pat| :: OccursAt(s, pat, i)
  }

  /** An occurrence anywhere is a witness for `Contains`. */
  lemma OccursContains(s: string, pat: string, i: int)
    requires OccursAt(s, pat, i)
    ensures Contains(s, pat)
  {
  }

  /** A string that lacks one of the characters of `pat` cannot contain `pat`. */
  lemma MissingCharNotContains(s: string, pat: string, c: char)
    requires c in pat && c !in s
    ensures !Contains(s, pat)
  {
    var k :| 0 <= k < |pat| && pat[k] == c;
    forall i | 0 <= i <= |s| - |pat| ensures !OccursAt(s, pat, i) {
      assert s[i..i + |pat|][k] == s[i + k];
    }
  }

  /** Index of the leftmost occurrence of `pat` in `s` (`str.find`), if any. */
  function FindFirst(s: string, pat: string): (r: Option<nat>)
    ensures r.Some? ==> OccursAt(s, pat, r.value)
    ensures r.Some? ==> forall j :: 0 <= j < r.value ==> !OccursAt(s, pat, j)
    decreases |s|
  {
    if |s| < |pat| then None
    else if s[..|pat|] == pat then Some(0)
    else
      var rest := FindFirst(s[1..], pat);
      ShiftOccurrence(s, pat);
      match rest
      case None => None
      case Some(k) => Some(k + 1)
  }

  /** `str.find` reports nothing exactly when `pat in s` is false. */
  lemma {:induction false} FindFirstNone(s: string, pat: string)
    ensures FindFirst(s, pat).None? <==> !Contains(s, pat)
    decreases |s|
  {
    if |s| < |pat| {
    } else if s[..|pat|] == pat {
      assert OccursAt(s, pat, 0);
    } else {
      FindFirstNone(s[1..], pat);
      ShiftOccurrence(s, pat);
    }
  }

  /** Occurrences in `s[1..]` are the occurrences in `s` shifted by one. */
  lemma ShiftOccurrence(s: string, pat: string)
    requires |s| > 0
    ensures forall j :: 1 <= j ==> (OccursAt(s, pat, j) <==> OccursAt(s[1..], pat, j - 1))
    ensures Contains(s, pat) <==> OccursAt(s, pat, 0) || Contains(s[1..], pat)
  {
    forall j | 1 <= j
      ensures OccursAt(s, pat, j) <==> OccursAt(s[1..], pat, j - 1)
    {
      if j + |pat| <= |s| {
        assert s[1..][j - 1..j - 1 + |pat|] == s[j..j + |pat|];
      }
    }
    if Contains(s, pat) && !OccursAt(s, pat, 0) {
      var i :| 0 <= i <= |s| - |pat| && OccursAt(s, pat, i);
      assert OccursAt(s[1..], pat, i - 1);
    }
    if Contains(s[1..], pat) {
      var i :| 0 <= i <= |s[1..]| - |pat| && OccursAt(s[1..], pat, i);
      assert OccursAt(s, pat, i + 1);
    }
  }

  /** Python's `s.split(sep)` for a non-empty separator: the fields between
      successive leftmost non-overlapping occurrences of `sep`. */
  function SplitOn(s: string, sep: string): (fields: seq<string>)
    requires |sep| > 0
    ensures |fields| >= 1
    decreases |s|
  {
    match FindFirst(s, sep)
    case None => [s]
    case Some(i) => [s[..i]] + SplitOn(s[i + |sep|..], sep)
  }

  /** Python's `sep.join(fields)`. */
  function Join(fields: seq<string>, sep: string): string
  {
    if |fields| == 0 then ""
    else if |fields| == 1 then fields[0]
    else fields[0] + sep + Join(fields[1..], sep)
  }

  /** Splitting loses nothing: joining the fields back gives the original. */
  lemma {:induction false} SplitJoin(s: string, sep: string)
    requires |sep| > 0
    ensures Join(SplitOn(s, sep), sep) == s
    decreases |s|
  {
    var first := FindFirst(s, sep);
    if first.Some? {
      var i := first.value;
      var rest := SplitOn(s[i + |sep|..], sep);
      SplitJoin(s[i + |sep|..], sep);
      SplitOnUnfold(s, sep, i);
      Reassemble(s, sep, i, rest);
    }
  }

  /** `SplitOn` at a string whose first separator is at `i`. */
  lemma SplitOnUnfold(s: string, sep: string, i: nat)
    requires |sep| > 0 && FindFirst(s, sep) == Some(i)
    ensures SplitOn(s, sep) == [s[..i]] + SplitOn(s[i + |sep|..], sep)
  {
  }

  /** The first field, the separator and the joined rest give back the
      string. */
  lemma Reassemble(s: string, sep: string, i: nat, fields: seq<string>)
    requires OccursAt(s, sep, i) && |fields| >= 1
    requires Join(fields, sep) == s[i + |sep|..]
    ensures Join([s[..i]] + fields, sep) == s
  {
    JoinCons(s[..i], fields, sep);
    SliceThree(s, i, i + |sep|);
  }

  /** Cutting a string at two points and gluing the pieces gives it back. */
  lemma SliceThree(s: string, a: nat, b: nat)
    requires a <= b <= |s|
    ensures s[..a] + s[a..b] + s[b..] == s
  {
  }

  lemma JoinCons(head: string, tail: seq<string>, sep: string)
    requires |tail| >= 1
    ensures Join([head] + tail, sep) == head + sep + Join(tail, sep)
  {
    assert ([head] + tail)[1..] == tail;
  }

  /** No field of a split contains the separator. */
  lemma {:induction false} SplitFieldsFree(s: string, sep: string)
    requires |sep| > 0
    ensures forall f :: f in SplitOn(s, sep) ==> !Contains(f, sep)
    decreases |s|
  {
    match FindFirst(s, sep)
    case None =>
      FindFirstNone(s, sep);
    case Some(i) =>
      SplitFieldsFree(s[i + |sep|..], sep);
      SplitOnUnfold(s, sep, i);
      HeadFree(s, sep, i);
  }

  /** The text before the first separator does not contain the separator. */
  lemma HeadFree(s: string, sep: string, i: nat)
    requires |sep| > 0 && i <= |s|
    requires forall j :: 0 <= j < i ==> !OccursAt(s, sep, j)
    ensures !Contains(s[..i], sep)
  {
    forall j | 0 <= j <= i - |sep| ensures !OccursAt(s[..i], sep, j) {
      assert !OccursAt(s, sep, j);
      assert s[..i][j..j + |sep|] == s[j..j + |sep|];
    }
  }

  /** A string that does not contain the separator splits into itself alone. */
  lemma SplitWithoutSeparator(s: string, sep: string)
    requires |sep| > 0 && !Contains(s, sep)
    ensures SplitOn(s, sep) == [s]
  {
    FindFirstNone(s, sep);
  }

  /** Splitting `p + sep + t`, where `p` holds no character of `sep`'s first
      character and `t` does not contain `sep`, gives exactly `[p, t]`. */
  lemma SplitPair(p: string, sep: string, t: string)
    requires |sep| > 0 && sep[0] !in p && !Contains(t, sep)
    ensures SplitOn(p + sep + t, sep) == [p, t]
  {
    var s := p + sep + t;
    assert OccursAt(s, sep, |p|) by {
      assert s[|p|..|p| + |sep|] == sep;
    }
    forall j | 0 <= j < |p| ensures !OccursAt(s, sep, j) {
      if j + |sep| <= |s| {
        assert s[j..j + |sep|][0] == s[j] == p[j];
      }
    }
    FindFirstNone(s, sep);
    OccursContains(s, sep, |p|);
    var i := FindFirst(s, sep).value;
    assert i == |p|;
    assert s[|p| + |sep|..] == t;
    assert s[..|p|] == p;
    SplitWithoutSeparator(t, sep);
  }

  // ---------------------------------------------------------------------
  // Decimal rendering (Python's `str(n)` / f"{n}")

  function DigitChar(d: nat): (c: char)
    requires d < 10
    ensures '0' <= c <= '9'
  {
    "0123456789"[d]
  }

  function DigitValue(c: char): nat
  {
    if '0' <= c <= '9' then (c - '0') as nat else 0
  }

  predicate AllDigits(s: string)
  {
    forall k :: 0 <= k < |s| ==> '0' <= s[k] <= '9'
  }

  /** The decimal text of a natural number, without leading zeros. */
  function Digits(n: nat): (s: string)
    ensures |s| >= 1 && AllDigits(s)
    ensures |s| > 1 ==> s[0] != '0'
  {
    if n < 10 then [DigitChar(n)] else Digits(n / 10) + [DigitChar(n % 10)]
  }

  /** Reads a string of decimal digits back as a number. */
  function ParseDigits(s: string): nat
  {
    if s == [] then 0 else ParseDigits(s[..|s| - 1]) * 10 + DigitValue(s[|s| - 1])
  }

  /** Rendering then reading gives the number back. */
  lemma {:induction false} DigitsRoundTrip(n: nat)
    ensures ParseDigits(Digits(n)) == n
  {
    if n >= 10 {
      DigitsRoundTrip(n / 10);
      var s := Digits(n);
      assert s[..|s| - 1] == Digits(n / 10);
      assert DigitValue(DigitChar(n % 10)) == n % 10 by {
        assert "0123456789"[n % 10] == ('0' as int + n % 10) as char;
      }
    } else {
      assert DigitValue(DigitChar(n)) == n by {
        assert "0123456789"[n] == ('0' as int + n) as char;
      }
    }
  }

  /** Different numbers have different decimal texts. */
  lemma DigitsInjective(m: nat, n: nat)
    requires Digits(m) == Digits(n)
    ensures m == n
  {
    DigitsRoundTrip(m);
    DigitsRoundTrip(n);
  }

  /** The decimal text of an integer (with a leading '-' when negative). */
  function IntText(i: int): (s: string)
    ensures |s| >= 1
    ensures i >= 0 <==> s[0] != '-'
  {
    if i < 0 then "-" + Digits(-i) else Digits(i)
  }

  // ---------------------------------------------------------------------
  // Lower-casing

  function LowerChar(c: char): char
  {
    if 'A' <= c <= 'Z' then (c as int + 32) as char else c
  }

  /** The ASCII part of Python's `str.lower()`. */
  function Lower(s: string): (r: string)
    ensures |r| == |s|
    ensures forall k :: 0 <= k < |s| ==> r[k] == LowerChar(s[k])
  {
    if s == [] then [] else [LowerChar(s[0])] + Lower(s[1..])
  }

  // ---------------------------------------------------------------------
  // Unit display name

  /** `name.split('-')[0] if '-' in name else name`: the text before the first
      hyphen. */
  function DisplayName(name: string): string
  {
    if Contains(name, "-") then SplitOn(name, "-")[0] else name
  }

  /** The display name is the longest hyphen-free prefix of the name. */
  lemma DisplayNamePrefix(name: string)
    ensures var d := DisplayName(name);
      && d <= name
      && '-' !in d
      && (|d| < |name| <==> '-' in name)
      && (|d| < |name| ==> name[|d|] == '-')
  {
    var d := DisplayName(name);
    forall j | 0 <= j < |name|
      ensures OccursAt(name, "-", j) <==> name[j] == '-'
    {
      assert |name[j..j + 1]| == 1 && name[j..j + 1][0] == name[j];
    }
    FindFirstNone(name, "-");
    if Contains(name, "-") {
      var i := FindFirst(name, "-").value;
      assert d == name[..i];
      assert name[i] == '-';
      forall j | 0 <= j < i ensures name[j] != '-' {
        assert !OccursAt(name, "-", j);
      }
    } else {
      assert d == name;
      forall j | 0 <= j < |name| ensures name[j] != '-' {
        assert !OccursAt(name, "-", j);
      }
    }
  }
}
