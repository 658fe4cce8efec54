/**
 * The few Python string primitives the SBML writer relies on, written out
 * over `seq<char>`: `str(int)`, `str.replace`, `in` on strings and
 * `str.strip(chars)`.
 */
module Strings {

  /** True when every character of `s` lies outside `f`. */
  predicate NoneOf(s: string, f: set<char>)
  {
    forall i :: 0 <= i < |s| ==> s[i] !in f
  }

  /** An ASCII decimal digit; other Unicode digits are not recognised. */
  predicate IsDigit(c: char)
  {
    '0' <= c <= '9'
  }

  function DigitChar(d: nat): (c: char)
    requires d < 10
    ensures IsDigit(c)
  {
    "0123456789"[d]
  }

  /** Python's `str(n)` for a non-negative integer. */
  function NatToString(n: nat): (s: string)
    ensures |s| > 0
    ensures forall i :: 0 <= i < |s| ==> IsDigit(s[i])
    decreases n
  {
    if n < 10 then [DigitChar(n)] else NatToString(n / 10) + [DigitChar(n % 10)]
  }

  lemma DigitCharInjective(a: nat, b: nat)
    requires a < 10 && b < 10 && DigitChar(a) == DigitChar(b)
    ensures a == b
  {
  }

  /** Distinct numbers print differently. */
  lemma {:induction false} NatToStringInjective(a: nat, b: nat)
    requires NatToString(a) == NatToString(b)
    ensures a == b
    decreases a
  {
    var sa, sb := NatToString(a), NatToString(b);
    if a < 10 && b < 10 {
      DigitCharInjective(a, b);
    } else if a >= 10 && b >= 10 {
      assert sa[..|sa| - 1] == NatToString(a / 10);
      assert sb[..|sb| - 1] == NatToString(b / 10);
      NatToStringInjective(a / 10, b / 10);
      assert sa[|sa| - 1] == DigitChar(a % 10);
      assert sb[|sb| - 1] == DigitChar(b % 10);
      DigitCharInjective(a % 10, b % 10);
    } else {
      assert false;
    }
  }

  /**
   * Python's `s.replace(pat, rep)` for a nonempty pattern: occurrences are
   * found left to right and never overlap; the scan resumes after each
   * replaced occurrence.
   */
  function ReplaceAll(s: string, pat: string, rep: string): (r: string)
    requires |pat| > 0
    ensures forall c :: c in r ==> c in s || c in rep
    ensures |s| > 0 && |rep| > 0 ==> |r| > 0
    decreases |s|
  {
    if s == [] then []
    else if pat <= s then rep + ReplaceAll(s[|pat|..], pat, rep)
    else [s[0]] + ReplaceAll(s[1..], pat, rep)
  }

  /** Replacing a one-character pattern removes every copy of that character. */
  lemma {:induction false} ReplaceAllRemovesChar(s: string, c: char, rep: string)
    requires c !in rep
    ensures c !in ReplaceAll(s, [c], rep)
    decreases |s|
  {
    if s != [] {
      ReplaceAllRemovesChar(s[1..], c, rep);
    }
  }

  /** A replacement leaves the characters before the first possible match alone. */
  lemma {:induction false} ReplaceAllCopies(s: string, k: nat, pat: string, rep: string)
    requires |pat| > 0 && k <= |s|
    requires forall j :: 0 <= j < k ==> s[j] != pat[0]
    ensures ReplaceAll(s, pat, rep) == s[..k] + ReplaceAll(s[k..], pat, rep)
    decreases k
  {
    if k > 0 {
      assert s[0] != pat[0];
      assert !(pat <= s);
      ReplaceAllCopies(s[1..], k - 1, pat, rep);
      assert s[1..][..k - 1] == s[1..k];
      assert s[1..][k - 1..] == s[k..];
      assert [s[0]] + s[1..k] == s[..k];
    }
  }

  /** A string with no occurrence of the pattern is returned unchanged. */
  lemma {:induction false} ReplaceAllAbsent(s: string, pat: string, rep: string)
    requires |pat| > 0
    requires !IsSubstring(pat, s)
    ensures ReplaceAll(s, pat, rep) == s
    decreases |s|
  {
    if s != [] {
      ReplaceAllAbsent(s[1..], pat, rep);
    }
  }

  /**
   * Text that shares no character with the pattern passes through a
   * replacement untouched, even when it follows other text.
   */
  lemma {:induction false} ReplaceAllAppend(a: string, b: string, pat: string, rep: string)
    requires |pat| > 0
    requires forall i :: 0 <= i < |b| ==> b[i] !in pat
    ensures ReplaceAll(a + b, pat, rep) == ReplaceAll(a, pat, rep) + b
    decreases |a|
  {
    if a == [] {
      assert a + b == b;
      ReplaceAllCopies(b, |b|, pat, rep);
      assert b[..|b|] == b && b[|b|..] == [];
    } else if pat <= a + b {
      if |a| < |pat| {
        PrefixStraddles(a, b, pat);
        assert false;
      }
      assert pat <= a;
      assert (a + b)[|pat|..] == a[|pat|..] + b;
      ReplaceAllAppend(a[|pat|..], b, pat, rep);
    } else {
      assert !(pat <= a);
      assert (a + b)[1..] == a[1..] + b;
      ReplaceAllAppend(a[1..], b, pat, rep);
    }
  }

  /** A prefix of `a + b` longer than `a` takes its next character from `b`. */
  lemma PrefixStraddles(a: string, b: string, pat: string)
    requires pat <= a + b && |a| < |pat|
    ensures |b| > 0 && b[0] in pat
  {
    assert pat[|a|] == b[0];
  }

  /** Python's `sub in s`. */
  predicate IsSubstring(sub: string, s: string)
    decreases |s|
  {
    sub <= s || (|s| > 0 && IsSubstring(sub, s[1..]))
  }

  lemma {:induction false} IsSubstringAt(sub: string, s: string, k: nat)
    requires OccursAt(sub, s, k)
    ensures IsSubstring(sub, s)
    decreases k
  {
    if k > 0 {
      assert s[1..][k - 1..k - 1 + |sub|] == s[k..k + |sub|];
      IsSubstringAt(sub, s[1..], k - 1);
    }
  }

  /** `sub` occurs in `s` starting at position `k`. */
  predicate OccursAt(sub: string, s: string, k: nat)
  {
    k + |sub| <= |s| && s[k..k + |sub|] == sub
  }

  /** `IsSubstring` means what it says: `sub` occurs at some position of `s`. */
  lemma {:induction false} IsSubstringSound(sub: string, s: string)
    requires IsSubstring(sub, s)
    ensures exists k: nat :: OccursAt(sub, s, k)
    decreases |s|
  {
    if sub <= s {
      assert OccursAt(sub, s, 0);
    } else {
      IsSubstringSound(sub, s[1..]);
      var k: nat :| OccursAt(sub, s[1..], k);
      assert s[1..][k..k + |sub|] == s[k + 1..k + 1 + |sub|];
      assert OccursAt(sub, s, k + 1);
    }
  }

  /** The whitespace set of `str.strip(' \t\n\r')`. */
  const Whitespace: set<char> := {' ', '\t', '\n', '\r'}

  /** Drops the leading characters that are in `ws`. */
  function TrimLeft(s: string, ws: set<char>): (r: string)
    ensures |r| <= |s| && r == s[|s| - |r|..]
    ensures forall i :: 0 <= i < |s| - |r| ==> s[i] in ws
    ensures r != [] ==> r[0] !in ws
    decreases |s|
  {
    if s != [] && s[0] in ws then TrimLeft(s[1..], ws) else s
  }

  /** Drops the trailing characters that are in `ws`. */
  function TrimRight(s: string, ws: set<char>): (r: string)
    ensures |r| <= |s| && r == s[..|r|]
    ensures forall i :: |r| <= i < |s| ==> s[i] in ws
    ensures r != [] ==> r[|r| - 1] !in ws
    decreases |s|
  {
    if s != [] && s[|s| - 1] in ws then TrimRight(s[..|s| - 1], ws) else s
  }

  /** Python's `s.strip(chars)`. */
  function Strip(s: string, ws: set<char>): string
  {
    TrimRight(TrimLeft(s, ws), ws)
  }
}
