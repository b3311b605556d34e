/** The few Python string operations the scrapers and the labeling service rely on:
    `str.strip()`, the `in` substring test, `str.replace(old, "")`, `" ".join(...)`
    and the decimal rendering of a non-negative `int` inside an f-string. */
module Text {

  /** Python's `str.isspace()` for a single character: the characters `str.strip()`
      with no argument removes. */
  predicate IsSpace(c: char) {
    var n := c as int;
    (9 <= n <= 13) || (0x1C <= n <= 0x20) || n == 0x85 || n == 0xA0 || n == 0x1680
    || (0x2000 <= n <= 0x200A) || n == 0x2028 || n == 0x2029 || n == 0x202F
    || n == 0x205F || n == 0x3000
  }

  /** Neither the first nor the last character is whitespace. */
  predicate Trimmed(s: string) {
    s == [] || (!IsSpace(s[0]) && !IsSpace(s[|s| - 1]))
  }

  /** The number of whitespace characters at the front of `s`. */
  function LeadingSpace(s: string): (k: nat)
    ensures k <= |s|
    ensures forall i :: 0 <= i < k ==> IsSpace(s[i])
    ensures k < |s| ==> !IsSpace(s[k])
  {
    if |s| > 0 && IsSpace(s[0]) then 1 + LeadingSpace(s[1..]) else 0
  }

  /** The number of whitespace characters at the back of `s`. */
  function TrailingSpace(s: string): (k: nat)
    ensures k <= |s|
    ensures forall i :: |s| - k <= i < |s| ==> IsSpace(s[i])
    ensures k < |s| ==> !IsSpace(s[|s| - 1 - k])
  {
    if |s| > 0 && IsSpace(s[|s| - 1]) then 1 + TrailingSpace(s[..|s| - 1]) else 0
  }

  /** `r` is `s` with some whitespace cut off its front (`i` characters) and its back. */
  predicate StrippedAt(s: string, r: string, i: nat) {
    && i + |r| <= |s| && s[i..i + |r|] == r
    && (forall k :: 0 <= k < i ==> IsSpace(s[k]))
    && (forall k :: i + |r| <= k < |s| ==> IsSpace(s[k]))
  }

  /** `s.strip()`: the result is a slice of `s` with no whitespace at either end,
      and everything cut off on either side is whitespace. */
  function Strip(s: string): (r: string)
    ensures |r| <= |s| && Trimmed(r)
    ensures exists i: nat :: StrippedAt(s, r, i)
  {
    var i := LeadingSpace(s);
    var t := s[i..];
    var r := t[..|t| - TrailingSpace(t)];
    assert StrippedAt(s, r, i);
    r
  }

  /** Stripping text that is already trimmed changes nothing; in particular
      `Strip` is idempotent. */
  lemma StripTrimmed(s: string)
    requires Trimmed(s)
    ensures Strip(s) == s
  {
    if s != [] {
      assert LeadingSpace(s) == 0;
      assert TrailingSpace(s) == 0;
    }
  }

  lemma StripIdempotent(s: string)
    ensures Strip(Strip(s)) == Strip(s)
  {
    StripTrimmed(Strip(s));
  }

  /** `pat` occurs in `s` starting at index `i`. */
  predicate OccursAt(s: string, pat: string, i: nat) {
    i + |pat| <= |s| && s[i..i + |pat|] == pat
  }

  /** Python's `pat in s`. */
  predicate Contains(s: string, pat: string) {
    exists i: nat | i <= |s| :: OccursAt(s, pat, i)
  }

  /** `s.replace(pat, "")`: one left-to-right pass that deletes each
      non-overlapping occurrence of `pat`. */
  function RemoveAll(s: string, pat: string): (r: string)
    requires pat != []
    ensures |r| <= |s|
    decreases |s|
  {
    if |s| < |pat| then s
    else if s[..|pat|] == pat then RemoveAll(s[|pat|..], pat)
    else [s[0]] + RemoveAll(s[1..], pat)
  }

  /** A string that does not contain `pat` comes back from `RemoveAll` unchanged. */
  lemma {:induction false} RemoveAllAbsent(s: string, pat: string)
    requires pat != [] && !Contains(s, pat)
    ensures RemoveAll(s, pat) == s
    decreases |s|
  {
    if |s| >= |pat| {
      assert !OccursAt(s, pat, 0);
      assert s[..|pat|] != pat;
      forall i: nat | i <= |s[1..]| && OccursAt(s[1..], pat, i)
        ensures false
      {
        assert s[1..][i..i + |pat|] == s[i + 1..i + 1 + |pat|];
        assert OccursAt(s, pat, i + 1);
      }
      RemoveAllAbsent(s[1..], pat);
      assert [s[0]] + s[1..] == s;
    }
  }

  /** A prefix `u` at none of whose positions an occurrence of `pat` starts passes
      through `RemoveAll` unchanged; the pass then carries on with the rest. */
  lemma {:induction false} RemoveAllKeeps(u: string, v: string, pat: string)
    requires pat != []
    requires forall k: nat :: k < |u| ==> !OccursAt(u + v, pat, k)
    ensures RemoveAll(u + v, pat) == u + RemoveAll(v, pat)
    decreases |u|
  {
    if u == [] {
      assert u + v == v;
    } else {
      var s := u + v;
      assert !OccursAt(s, pat, 0);
      assert s[1..] == u[1..] + v;
      forall k: nat | k < |u[1..]| ensures !OccursAt(u[1..] + v, pat, k) {
        assert !OccursAt(s, pat, k + 1);
        if k + |pat| <= |s[1..]| {
          assert s[1..][k..k + |pat|] == s[k + 1..k + 1 + |pat|];
        }
      }
      RemoveAllKeeps(u[1..], v, pat);
      assert [u[0]] + (u[1..] + RemoveAll(v, pat)) == u + RemoveAll(v, pat);
    }
  }

  /** When the first character of `pat` does not occur in `u`, the first occurrence
      of `pat` in `u + pat + v` is the one after `u`: it is cut, and the pass goes on
      with `v`. */
  lemma RemoveAllSkips(u: string, v: string, pat: string)
    requires pat != []
    requires forall k :: 0 <= k < |u| ==> u[k] != pat[0]
    ensures RemoveAll(u + pat + v, pat) == u + RemoveAll(v, pat)
  {
    var s := u + pat + v;
    forall k: nat | k < |u| ensures !OccursAt(s, pat, k) {
      assert s[k] == u[k];
    }
    assert s == u + (pat + v);
    RemoveAllKeeps(u, pat + v, pat);
    assert (pat + v)[..|pat|] == pat && (pat + v)[|pat|..] == v;
  }

  /** When the first character of `pat` does not occur in `u`, appending `pat` to `u`
      and removing `pat` gives back `u`: a URL ending in one such fragment loses
      exactly that fragment. */
  lemma RemoveAllSuffix(u: string, pat: string)
    requires pat != []
    requires forall k :: 0 <= k < |u| ==> u[k] != pat[0]
    ensures RemoveAll(u + pat, pat) == u
  {
    RemoveAllSkips(u, [], pat);
    assert u + pat + [] == u + pat;
    assert u + [] == u;
  }

  /** `" ".join(parts)`. */
  function JoinSpace(parts: seq<string>): (r: string)
    ensures |parts| == 0 ==> r == ""
    ensures |parts| == 1 ==> r == parts[0]
  {
    if |parts| == 0 then ""
    else if |parts| == 1 then parts[0]
    else parts[0] + " " + JoinSpace(parts[1..])
  }

  /** The total length of the strings in `parts`. */
  function TotalLength(parts: seq<string>): nat {
    if parts == [] then 0 else |parts[0]| + TotalLength(parts[1..])
  }

  /** A join of `n > 0` parts holds every character of the parts plus `n - 1` spaces. */
  lemma {:induction false} JoinSpaceLength(parts: seq<string>)
    requires |parts| > 0
    ensures |JoinSpace(parts)| == TotalLength(parts) + |parts| - 1
  {
    if |parts| > 1 {
      JoinSpaceLength(parts[1..]);
      assert parts[1..][1..] == parts[2..];
    } else {
      assert parts[1..] == [];
    }
  }

  /** A join is empty exactly when there is no part, or a single empty part. */
  lemma JoinSpaceEmpty(parts: seq<string>)
    ensures JoinSpace(parts) == "" <==> |parts| == 0 || (|parts| == 1 && parts[0] == "")
  {
    if |parts| > 1 {
      JoinSpaceLength(parts);
      assert TotalLength(parts) >= 0;
    }
  }

  /** Adding one more part extends the join by a space and that part. */
  lemma {:induction false} JoinSpaceSnoc(parts: seq<string>, p: string)
    requires |parts| > 0
    ensures JoinSpace(parts + [p]) == JoinSpace(parts) + " " + p
  {
    if |parts| > 1 {
      assert (parts + [p])[1..] == parts[1..] + [p];
      JoinSpaceSnoc(parts[1..], p);
    } else {
      assert parts + [p] == [parts[0], p];
    }
  }

  predicate IsDigit(c: char) {
    '0' <= c <= '9'
  }

  /** The decimal numeral of `n`, as an f-string renders a non-negative `int`:
      only digits, and no leading zero. */
  function Decimal(n: nat): (s: string)
    ensures |s| > 0 && forall k :: 0 <= k < |s| ==> IsDigit(s[k])
    ensures |s| > 1 ==> s[0] != '0'
    decreases n
  {
    var d := ('0' as int + n % 10) as char;
    if n < 10 then [d] else Decimal(n / 10) + [d]
  }

  /** The number a string of digits denotes. */
  function DecimalValue(s: string): nat
    requires forall k :: 0 <= k < |s| ==> IsDigit(s[k])
  {
    if s == [] then 0
    else
      assert IsDigit(s[|s| - 1]);
      DecimalValue(s[..|s| - 1]) * 10 + (s[|s| - 1] as int - '0' as int)
  }

  /** Reading back a rendered numeral gives the number. */
  lemma {:induction false} DecimalRoundTrip(n: nat)
    ensures DecimalValue(Decimal(n)) == n
    decreases n
  {
    var s := Decimal(n);
    if n >= 10 {
      DecimalRoundTrip(n / 10);
      assert s[..|s| - 1] == Decimal(n / 10);
    }
  }

  /** The index of the first `c` in `s`, or `|s|` when there is none. */
  function IndexOf(s: string, c: char): (k: nat)
    ensures k <= |s|
    ensures k < |s| ==> s[k] == c
    ensures forall j :: 0 <= j < k ==> s[j] != c
  {
    if s == [] then 0 else if s[0] == c then 0 else 1 + IndexOf(s[1..], c)
  }

  /** The first `c` of `a + [c] + b` is the one after `a` when `a` holds no `c`. */
  lemma IndexOfAfter(a: string, c: char, b: string)
    requires forall k :: 0 <= k < |a| ==> a[k] != c
    ensures IndexOf(a + [c] + b, c) == |a|
  {
    assert (a + [c] + b)[|a|] == c;
  }
}
