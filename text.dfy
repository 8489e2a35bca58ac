/** The string operations the views rely on: ASCII lower-casing
    (`toLowerCase`), substring search (`includes`) and the anchored digit
    patterns `^\d{10}$` and `^\d{6}$`. */
module Text {
  import opened Arrays

  /** `toLowerCase` restricted to ASCII: 'A'..'Z' become 'a'..'z'. */
  function LowerChar(c: char): (r: char)
    ensures 'A' <= c <= 'Z' ==> 'a' <= r <= 'z' && r as int - c as int == 32
    ensures !('A' <= c <= 'Z') ==> r == c
  {
    if 'A' <= c <= 'Z' then (c as int + 32) as char else c
  }

  function Lower(s: string): (r: string)
    ensures |r| == |s|
    ensures forall i :: 0 <= i < |s| ==> r[i] == LowerChar(s[i])
  {
    Map(LowerChar, s)
  }

  /** Lower-casing works character by character, so it distributes over
      concatenation. */
  lemma LowerAppend(a: string, b: string)
    ensures Lower(a + b) == Lower(a) + Lower(b)
  {
    var l, r := Lower(a + b), Lower(a) + Lower(b);
    forall i | 0 <= i < |l| ensures l[i] == r[i] {
      if i >= |a| {
        assert (a + b)[i] == b[i - |a|];
      }
    }
  }

  /** `s.includes(sub)`: the search that tries every start position of s. */
  function Contains(s: string, sub: string): bool
    decreases |s|
  {
    if |sub| > |s| then false
    else if s[..|sub|] == sub then true
    else Contains(s[1..], sub)
  }

  /** sub appears in s starting at position i. */
  ghost predicate OccursAt(sub: string, s: string, i: int)
  {
    0 <= i && i + |sub| <= |s| && s[i..i + |sub|] == sub
  }

  /** sub is a substring of s. */
  ghost predicate Occurs(sub: string, s: string)
  {
    exists i :: OccursAt(sub, s, i)
  }

  /** An occurrence in the tail of s is an occurrence in s one place later. */
  lemma OccursAtTail(sub: string, s: string, i: nat)
    requires s != []
    ensures OccursAt(sub, s[1..], i) <==> OccursAt(sub, s, i + 1)
  {
    if i + |sub| <= |s| - 1 {
      assert s[1..][i..i + |sub|] == s[i + 1..i + 1 + |sub|];
    }
  }

  /** The search finds sub exactly when sub is a substring of s. */
  lemma {:induction false} ContainsIffOccurs(s: string, sub: string)
    ensures Contains(s, sub) <==> Occurs(sub, s)
    decreases |s|
  {
    if |sub| > |s| {
      forall i ensures !OccursAt(sub, s, i) { }
    } else if s[..|sub|] == sub {
      assert OccursAt(sub, s, 0);
    } else {
      ContainsIffOccurs(s[1..], sub);
      if Occurs(sub, s[1..]) {
        var i :| OccursAt(sub, s[1..], i);
        OccursAtTail(sub, s, i);
      }
      if Occurs(sub, s) {
        var i :| OccursAt(sub, s, i);
        assert i != 0;
        OccursAtTail(sub, s, i - 1);
      }
    }
  }

  /** A substring of a substring of s is a substring of s. */
  lemma OccursTransitive(u: string, t: string, s: string)
    requires Occurs(u, t) && Occurs(t, s)
    ensures Occurs(u, s)
  {
    var j :| OccursAt(u, t, j);
    var i :| OccursAt(t, s, i);
    assert t == s[i..i + |t|];
    forall k | 0 <= k < |u| ensures s[i + j..i + j + |u|][k] == u[k] {
      assert u[k] == t[j + k];
    }
    assert s[i + j..i + j + |u|] == u;
    assert OccursAt(u, s, i + j);
  }

  /** Every string is a substring of itself extended on the right. */
  lemma OccursInExtension(t: string, more: string)
    ensures Occurs(t, t + more)
  {
    assert (t + more)[0..|t|] == t;
    assert OccursAt(t, t + more, 0);
  }

  /** If t agrees with the start of s up to case, the lower-cased s
      contains the lower-cased t. */
  lemma LowerPrefixContains(t: string, s: string)
    requires |t| <= |s|
    requires forall i :: 0 <= i < |t| ==> LowerChar(s[i]) == LowerChar(t[i])
    ensures Contains(Lower(s), Lower(t))
  {
    var l, q := Lower(s), Lower(t);
    assert l[..|q|] == q;
    assert OccursAt(q, l, 0);
    ContainsIffOccurs(l, q);
  }

  predicate IsDigit(c: char)
  {
    '0' <= c <= '9'
  }

  /** s consists of exactly n ASCII digits. */
  predicate DigitString(s: string, n: nat)
  {
    |s| == n && forall i :: 0 <= i < |s| ==> IsDigit(s[i])
  }

  /** `/^\d{n}$/.test(s)`: the anchored pattern consumes one digit per
      repetition and must reach the end of s after exactly n of them. */
  function MatchesDigits(s: string, n: nat): bool
  {
    if s == [] then n == 0
    else n > 0 && IsDigit(s[0]) && MatchesDigits(s[1..], n - 1)
  }

  /** The pattern accepts exactly the strings of n ASCII digits. */
  lemma {:induction false} MatchesDigitsIff(s: string, n: nat)
    ensures MatchesDigits(s, n) <==> DigitString(s, n)
  {
    if s != [] && n > 0 {
      MatchesDigitsIff(s[1..], n - 1);
      if DigitString(s, n) {
        assert forall i :: 0 <= i < |s| - 1 ==> s[1..][i] == s[i + 1];
      }
      if IsDigit(s[0]) && DigitString(s[1..], n - 1) {
        forall i | 0 < i < |s| ensures IsDigit(s[i]) {
          assert s[i] == s[1..][i - 1];
        }
      }
    }
  }
}
