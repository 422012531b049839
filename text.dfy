/**
 * The string operations of Python's `str` that the document pipeline relies on:
 * `strip`, `lower`, `upper`, the substring test `p in s`, `sep.join(parts)`,
 * `replace` and `str(int)`.
 */
module Text {

  // ---------------------------------------------------------------------------
  // Whitespace and strip
  // ---------------------------------------------------------------------------

  /** The characters for which Python's `str.isspace()` holds. */
  predicate IsSpace(c: char) {
    var n := c as int;
    (9 <= n <= 13) || (28 <= n <= 32) || n == 0x85 || n == 0xA0 || n == 0x1680
    || (0x2000 <= n <= 0x200A) || n == 0x2028 || n == 0x2029 || n == 0x202F
    || n == 0x205F || n == 0x3000
  }

  /** Every character of `s` is whitespace (true of the empty string). */
  predicate IsBlank(s: string) {
    forall i :: 0 <= i < |s| ==> IsSpace(s[i])
  }

  /** Python's `s.strip()`: leading and trailing whitespace removed. */
  function Strip(s: string): (r: string)
    ensures |r| <= |s|
    decreases |s|
  {
    if s == [] then s
    else if IsSpace(s[0]) then Strip(s[1..])
    else if IsSpace(s[|s| - 1]) then Strip(s[..|s| - 1])
    else s
  }

  /** A blank string with one more whitespace character in front is blank. */
  lemma BlankCons(c: char, t: string)
    requires IsSpace(c) && IsBlank(t)
    ensures IsBlank([c] + t)
  {
    forall i | 0 <= i < |t| + 1 ensures IsSpace(([c] + t)[i]) {
      if i > 0 { assert ([c] + t)[i] == t[i - 1]; }
    }
  }

  /** A blank string with one more whitespace character at the end is blank. */
  lemma BlankSnoc(t: string, c: char)
    requires IsBlank(t) && IsSpace(c)
    ensures IsBlank(t + [c])
  {
    forall i | 0 <= i < |t| + 1 ensures IsSpace((t + [c])[i]) {
      if i < |t| { assert (t + [c])[i] == t[i]; }
    }
  }

  /** The stripped slice is what remains once a leading whitespace character is dropped. */
  lemma StripFrontStep(s: string, a: nat, b: nat)
    requires s != [] && IsSpace(s[0])
    requires a <= b <= |s| - 1 && Strip(s[1..]) == s[1..][a..b]
    requires IsBlank(s[1..][..a]) && IsBlank(s[1..][b..])
    ensures Strip(s) == s[a + 1..b + 1] && IsBlank(s[..a + 1]) && IsBlank(s[b + 1..])
  {
    var t := s[1..];
    assert t[a..b] == s[a + 1..b + 1];
    assert s[b + 1..] == t[b..];
    assert s[..a + 1] == [s[0]] + t[..a];
    BlankCons(s[0], t[..a]);
  }

  /** The stripped slice is what remains once a trailing whitespace character is dropped. */
  lemma StripBackStep(s: string, a: nat, b: nat)
    requires s != [] && !IsSpace(s[0]) && IsSpace(s[|s| - 1])
    requires a <= b <= |s| - 1 && Strip(s[..|s| - 1]) == s[..|s| - 1][a..b]
    requires IsBlank(s[..|s| - 1][..a]) && IsBlank(s[..|s| - 1][b..])
    ensures Strip(s) == s[a..b] && IsBlank(s[..a]) && IsBlank(s[b..])
  {
    var t, c := s[..|s| - 1], s[|s| - 1];
    assert s == t + [c];
    assert t[a..b] == s[a..b];
    assert s[..a] == t[..a];
    assert (t + [c])[b..] == t[b..] + [c];
    BlankSnoc(t[b..], c);
  }

  /** The bounds of the slice `Strip` keeps. */
  lemma {:induction false} StripBounds(s: string) returns (a: nat, b: nat)
    ensures a <= b <= |s| && Strip(s) == s[a..b]
    ensures IsBlank(s[..a]) && IsBlank(s[b..])
    ensures Strip(s) == [] || (!IsSpace(Strip(s)[0]) && !IsSpace(Strip(s)[|Strip(s)| - 1]))
    decreases |s|
  {
    if s == [] {
      a, b := 0, 0;
    } else if IsSpace(s[0]) {
      var a', b' := StripBounds(s[1..]);
      StripFrontStep(s, a', b');
      a, b := a' + 1, b' + 1;
    } else if IsSpace(s[|s| - 1]) {
      a, b := StripBounds(s[..|s| - 1]);
      StripBackStep(s, a, b);
    } else {
      a, b := 0, |s|;
      assert s[0..|s|] == s;
      assert s[..0] == [] && s[|s|..] == [];
    }
  }

  /**
   * `s.strip()` is a slice of `s` that neither starts nor ends with
   * whitespace, and only whitespace lies outside it.
   */
  lemma StripRemovesOnlyBlankEnds(s: string)
    ensures var r := Strip(s);
            r == [] || (!IsSpace(r[0]) && !IsSpace(r[|r| - 1]))
    ensures exists a, b :: 0 <= a <= b <= |s| && Strip(s) == s[a..b] && IsBlank(s[..a]) && IsBlank(s[b..])
  {
    var a, b := StripBounds(s);
  }

  /** Stripping a blank string leaves nothing. */
  lemma {:induction false} StripOfBlank(s: string)
    requires IsBlank(s)
    ensures Strip(s) == []
    decreases |s|
  {
    if s != [] {
      assert IsSpace(s[0]);
      assert IsBlank(s[1..]) by {
        forall i | 0 <= i < |s[1..]| ensures IsSpace(s[1..][i]) {
          assert s[1..][i] == s[i + 1];
        }
      }
      StripOfBlank(s[1..]);
    }
  }

  /** `s.strip()` is empty exactly when `s` is blank (so `not s.strip()` tests blankness). */
  lemma StripEmptyIffBlank(s: string)
    ensures Strip(s) == [] <==> IsBlank(s)
  {
    if IsBlank(s) {
      StripOfBlank(s);
    }
    var a, b := StripBounds(s);
    if Strip(s) == [] {
      forall i | 0 <= i < |s| ensures IsSpace(s[i]) {
        if i < a {
          assert s[..a][i] == s[i];
        } else {
          assert s[b..][i - b] == s[i];
        }
      }
    }
  }

  /** A string without leading or trailing whitespace is its own `strip()`. */
  lemma StripOfStripped(s: string)
    requires s == [] || (!IsSpace(s[0]) && !IsSpace(s[|s| - 1]))
    ensures Strip(s) == s
  {
  }

  lemma StripIdempotent(s: string)
    ensures Strip(Strip(s)) == Strip(s)
  {
    StripRemovesOnlyBlankEnds(s);
    StripOfStripped(Strip(s));
  }

  // ---------------------------------------------------------------------------
  // Case conversion (ASCII letters)
  // ---------------------------------------------------------------------------

  function LowerChar(c: char): char {
    if 'A' <= c <= 'Z' then (c as int + 32) as char else c
  }

  function UpperChar(c: char): char {
    if 'a' <= c <= 'z' then (c as int - 32) as char else c
  }

  /** Python's `s.lower()`, restricted to ASCII letters. */
  function Lower(s: string): (r: string)
    ensures |r| == |s|
    ensures forall i :: 0 <= i < |s| ==> r[i] == LowerChar(s[i])
  {
    seq(|s|, i requires 0 <= i < |s| => LowerChar(s[i]))
  }

  /** Python's `s.upper()`, restricted to ASCII letters. */
  function Upper(s: string): (r: string)
    ensures |r| == |s|
    ensures forall i :: 0 <= i < |s| ==> r[i] == UpperChar(s[i])
  {
    seq(|s|, i requires 0 <= i < |s| => UpperChar(s[i]))
  }

  lemma LowerConcat(a: string, b: string)
    ensures Lower(a + b) == Lower(a) + Lower(b)
  {
    assert forall i :: 0 <= i < |a + b| ==> Lower(a + b)[i] == (Lower(a) + Lower(b))[i];
  }

  lemma LowerIdempotent(s: string)
    ensures Lower(Lower(s)) == Lower(s)
  {
  }

  // ---------------------------------------------------------------------------
  // Substrings
  // ---------------------------------------------------------------------------

  /** `p` occurs in `s` starting at index `k`. */
  predicate OccursAt(s: string, p: string, k: int) {
    0 <= k && k + |p| <= |s| && s[k..k + |p|] == p
  }

  /** Python's `p in s` for strings. */
  function Contains(s: string, p: string): bool
    decreases |s|
  {
    if p <= s then true
    else if s == [] then false
    else Contains(s[1..], p)
  }

  /** Dropping the first character shifts every occurrence one to the left. */
  lemma OccursShift(s: string, p: string, k: int)
    requires s != [] && k >= 0
    ensures OccursAt(s, p, k + 1) <==> OccursAt(s[1..], p, k)
  {
    if 0 <= k && k + 1 + |p| <= |s| {
      assert s[1..][k..k + |p|] == s[k + 1..k + 1 + |p|];
    }
  }

  /** `p in s` holds exactly when `p` occurs in `s` at some index. */
  lemma {:induction false} ContainsIffOccurs(s: string, p: string)
    ensures Contains(s, p) <==> exists k :: OccursAt(s, p, k)
    decreases |s|
  {
    if p <= s {
      assert OccursAt(s, p, 0);
    } else if s != [] {
      ContainsIffOccurs(s[1..], p);
      if k :| OccursAt(s, p, k) {
        assert k != 0;
        OccursShift(s, p, k - 1);
      }
      if k :| OccursAt(s[1..], p, k) {
        OccursShift(s, p, k);
      }
    }
  }

  lemma ContainsAt(s: string, p: string, k: int)
    requires OccursAt(s, p, k)
    ensures Contains(s, p)
  {
    ContainsIffOccurs(s, p);
  }

  /** `p` occurs in `x + p + y` right after `x`. */
  lemma OccursInMiddle(x: string, p: string, y: string)
    ensures OccursAt(x + p + y, p, |x|)
  {
    assert (x + p + y)[|x|..|x| + |p|] == p;
  }

  /** An occurrence of a lower-case string survives lower-casing. */
  lemma LowerKeepsOccurrence(s: string, p: string, k: int)
    requires OccursAt(s, p, k) && Lower(p) == p
    ensures OccursAt(Lower(s), p, k)
  {
    forall j | 0 <= j < |p| ensures Lower(s)[k + j] == p[j] {
      assert s[k + j] == s[k..k + |p|][j];
      assert Lower(p)[j] == LowerChar(p[j]);
    }
    assert Lower(s)[k..k + |p|] == p;
  }

  // ---------------------------------------------------------------------------
  // join, replace, str(int)
  // ---------------------------------------------------------------------------

  /** Python's `sep.join(parts)`. */
  function Join(sep: string, parts: seq<string>): (r: string)
    ensures |parts| == 1 ==> r == parts[0]
    decreases |parts|
  {
    if |parts| == 0 then ""
    else if |parts| == 1 then parts[0]
    else parts[0] + sep + Join(sep, parts[1..])
  }

  /** The sum of the lengths of `parts`. */
  function TotalLength(parts: seq<string>): nat
    decreases |parts|
  {
    if parts == [] then 0 else |parts[0]| + TotalLength(parts[1..])
  }

  lemma TotalLengthAppend(parts: seq<string>, x: string)
    ensures TotalLength(parts + [x]) == TotalLength(parts) + |x|
    decreases |parts|
  {
    if parts != [] {
      assert (parts + [x])[1..] == parts[1..] + [x];
      TotalLengthAppend(parts[1..], x);
    }
  }

  /** The joined string is as long as the parts plus one separator between each two. */
  lemma {:induction false} JoinLength(sep: string, parts: seq<string>)
    requires parts != []
    ensures |Join(sep, parts)| == TotalLength(parts) + (|parts| - 1) * |sep|
    decreases |parts|
  {
    if |parts| > 1 {
      JoinLength(sep, parts[1..]);
    }
  }

  /** The joined string begins with the first part. */
  lemma {:induction false} JoinStartsWithFirst(sep: string, parts: seq<string>)
    requires parts != []
    ensures parts[0] <= Join(sep, parts)
  {
  }

  /**
   * Python's `s.replace(pat, rep)` for a non-empty `pat`: the occurrences of `pat`
   * found scanning left to right, without overlap, are each replaced by `rep`.
   */
  function Replace(s: string, pat: string, rep: string): string
    requires pat != []
    decreases |s|
  {
    if |s| < |pat| then s
    else if s[..|pat|] == pat then rep + Replace(s[|pat|..], pat, rep)
    else [s[0]] + Replace(s[1..], pat, rep)
  }

  /** No character of `s` is a space. */
  predicate SpaceFree(s: string) {
    forall i :: 0 <= i < |s| ==> s[i] != ' '
  }

  /** An occurrence in a suffix `s[d..]` is an occurrence in `s`, shifted by `d`. */
  lemma OccursInSuffix(s: string, d: nat, q: string, j: int)
    requires d <= |s| && OccursAt(s[d..], q, j)
    ensures OccursAt(s, q, j + d)
  {
    assert s[d..][j..j + |q|] == s[j + d..j + d + |q|];
  }

  /** An occurrence in `a + b` that starts inside `b` is an occurrence in `b`. */
  lemma OccursInRight(a: string, b: string, q: string, k: int)
    requires OccursAt(a + b, q, k) && k >= |a|
    ensures OccursAt(b, q, k - |a|)
  {
    assert b[k - |a|..k - |a| + |q|] == (a + b)[k..k + |q|];
  }

  /** A prefix of `Replace(s, pat, " ")` free of spaces is unchanged from `s`. */
  lemma {:induction false} ReplaceSpaceFreePrefix(s: string, pat: string, n: nat)
    requires pat != []
    requires n <= |Replace(s, pat, " ")|
    requires forall i :: 0 <= i < n ==> Replace(s, pat, " ")[i] != ' '
    ensures n <= |s| && Replace(s, pat, " ")[..n] == s[..n]
    decreases |s|
  {
    var r := Replace(s, pat, " ");
    if |s| < |pat| {
    } else if s[..|pat|] == pat {
      assert r == " " + Replace(s[|pat|..], pat, " ");
      assert n == 0 by { assert r[0] == ' '; }
    } else if n > 0 {
      var r' := Replace(s[1..], pat, " ");
      assert r == [s[0]] + r';
      forall i | 0 <= i < n - 1 ensures r'[i] != ' ' {
        assert r'[i] == r[i + 1];
      }
      ReplaceSpaceFreePrefix(s[1..], pat, n - 1);
      assert r[..n] == [s[0]] + r'[..n - 1];
      assert s[..n] == [s[0]] + s[1..][..n - 1];
    }
  }

  /** An occurrence of a space-free `q` at the very start of `Replace(s, pat, " ")` is in `s`. */
  lemma ReplaceKeepsPrefixOccurrence(s: string, pat: string, q: string)
    requires pat != [] && SpaceFree(q)
    requires OccursAt(Replace(s, pat, " "), q, 0)
    ensures OccursAt(s, q, 0)
  {
    var r := Replace(s, pat, " ");
    forall i | 0 <= i < |q| ensures r[i] != ' ' {
      assert r[i] == q[i];
    }
    ReplaceSpaceFreePrefix(s, pat, |q|);
  }

  /**
   * Replacing `pat` by a space creates no new occurrence of a non-empty,
   * space-free string `q`: every occurrence in the result was already in `s`.
   */
  lemma {:induction false} ReplaceKeepsAbsenceAt(s: string, pat: string, q: string, k: int)
    requires pat != [] && q != [] && SpaceFree(q)
    requires OccursAt(Replace(s, pat, " "), q, k)
    ensures exists j :: OccursAt(s, q, j)
    decreases |s|
  {
    var r := Replace(s, pat, " ");
    if |s| < |pat| {
      assert OccursAt(s, q, k);
    } else if s[..|pat|] == pat {
      var r' := Replace(s[|pat|..], pat, " ");
      assert r == " " + r';
      assert r[k] == q[0] by { assert r[k..k + |q|][0] == r[k]; }
      assert r[0] == ' ' && q[0] != ' ';
      OccursInRight(" ", r', q, k);
      ReplaceKeepsAbsenceAt(s[|pat|..], pat, q, k - 1);
      var j :| OccursAt(s[|pat|..], q, j);
      OccursInSuffix(s, |pat|, q, j);
    } else {
      var r' := Replace(s[1..], pat, " ");
      assert r == [s[0]] + r';
      if k == 0 {
        ReplaceKeepsPrefixOccurrence(s, pat, q);
      } else {
        OccursInRight([s[0]], r', q, k);
        ReplaceKeepsAbsenceAt(s[1..], pat, q, k - 1);
        var j :| OccursAt(s[1..], q, j);
        OccursInSuffix(s, 1, q, j);
      }
    }
  }

  /** If a non-empty, space-free `q` is not in `s`, it is not in `Replace(s, pat, " ")` either. */
  lemma ReplaceKeepsAbsence(s: string, pat: string, q: string)
    requires pat != [] && q != [] && SpaceFree(q)
    requires !Contains(s, q)
    ensures !Contains(Replace(s, pat, " "), q)
  {
    var r := Replace(s, pat, " ");
    ContainsIffOccurs(r, q);
    ContainsIffOccurs(s, q);
    if Contains(r, q) {
      var k :| OccursAt(r, q, k);
      ReplaceKeepsAbsenceAt(s, pat, q, k);
    }
  }

  /** After replacing a non-empty, space-free `pat` by a space, `pat` does not occur at `k`. */
  lemma {:induction false} ReplaceRemovesAt(s: string, pat: string, k: int)
    requires pat != [] && SpaceFree(pat)
    ensures !OccursAt(Replace(s, pat, " "), pat, k)
    decreases |s|
  {
    var r := Replace(s, pat, " ");
    if OccursAt(r, pat, k) {
      if |s| < |pat| {
        assert false;
      } else if s[..|pat|] == pat {
        var r' := Replace(s[|pat|..], pat, " ");
        assert r == " " + r';
        assert r[k] == pat[0] by { assert r[k..k + |pat|][0] == r[k]; }
        assert r[0] == ' ' && pat[0] != ' ';
        OccursInRight(" ", r', pat, k);
        ReplaceRemovesAt(s[|pat|..], pat, k - 1);
        assert false;
      } else {
        var r' := Replace(s[1..], pat, " ");
        assert r == [s[0]] + r';
        if k == 0 {
          ReplaceKeepsPrefixOccurrence(s, pat, pat);
          assert false;
        } else {
          OccursInRight([s[0]], r', pat, k);
          ReplaceRemovesAt(s[1..], pat, k - 1);
          assert false;
        }
      }
    }
  }

  /** After replacing a non-empty, space-free `pat` by a space, `pat` no longer occurs. */
  lemma ReplaceRemoves(s: string, pat: string)
    requires pat != [] && SpaceFree(pat)
    ensures !Contains(Replace(s, pat, " "), pat)
  {
    var r := Replace(s, pat, " ");
    ContainsIffOccurs(r, pat);
    forall k ensures !OccursAt(r, pat, k) {
      ReplaceRemovesAt(s, pat, k);
    }
  }

  /** Replacing a string that does not occur changes nothing. */
  lemma {:induction false} ReplaceAbsent(s: string, pat: string, rep: string)
    requires pat != [] && !Contains(s, pat)
    ensures Replace(s, pat, rep) == s
    decreases |s|
  {
    if |s| >= |pat| {
      assert s[..|pat|] != pat by { assert pat <= s ==> Contains(s, pat); }
      assert Contains(s, pat) == Contains(s[1..], pat);
      ReplaceAbsent(s[1..], pat, rep);
      assert s == [s[0]] + s[1..];
    }
  }

  function DigitChar(d: nat): char
    requires d < 10
  {
    ('0' as int + d) as char
  }

  /** Python's `str(n)` for a natural number: its decimal digits. */
  function NatToString(n: nat): (r: string)
  {
    if n < 10 then [DigitChar(n)] else NatToString(n / 10) + [DigitChar(n % 10)]
  }

  /** `str(n)` is a non-empty run of decimal digits. */
  lemma {:induction false} NatToStringDigits(n: nat)
    ensures NatToString(n) != []
    ensures forall i :: 0 <= i < |NatToString(n)| ==> '0' <= NatToString(n)[i] <= '9'
  {
    if n >= 10 {
      NatToStringDigits(n / 10);
    }
  }

  /** Python's `str(i)` for an integer. */
  function IntToString(i: int): (r: string)
  {
    if i < 0 then "-" + NatToString(-i) else NatToString(i)
  }
}
