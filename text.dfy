/** Character-level checks used by validation and by the location filter. */
module Text {

  predicate IsDigit(c: char)
  {
    '0' <= c <= '9'
  }

  /** The mobile-number pattern: exactly ten decimal digits, nothing else. */
  predicate IsTenDigits(s: string)
  {
    |s| == 10 && forall i :: 0 <= i < |s| ==> IsDigit(s[i])
  }

  /** ASCII lower-casing, the case folding the location filter relies on. */
  function Lower(c: char): char
  {
    if 'A' <= c <= 'Z' then (c as int + 32) as char else c
  }

  function LowerString(s: string): (r: string)
    ensures |r| == |s|
    ensures forall i :: 0 <= i < |s| ==> r[i] == Lower(s[i])
  {
    if s == [] then [] else [Lower(s[0])] + LowerString(s[1..])
  }

  /** `t` occurs in `s` at position 0, ignoring case. */
  predicate StartsWithIgnoringCase(s: string, t: string)
  {
    |t| <= |s| && LowerString(s[..|t|]) == LowerString(t)
  }

  /** `t` occurs somewhere in `s`, ignoring case: a case-insensitive
      search for a literal pattern. */
  predicate ContainsIgnoringCase(s: string, t: string)
    decreases |s|
  {
    StartsWithIgnoringCase(s, t) || (|s| > 0 && ContainsIgnoringCase(s[1..], t))
  }

  /** `t` occurs in `s` at position `i`, ignoring case. */
  predicate MatchesAt(s: string, t: string, i: nat)
  {
    i + |t| <= |s| && LowerString(s[i..i + |t|]) == LowerString(t)
  }

  /** The recursive search agrees with "some window of `s` equals `t` up to case". */
  lemma {:induction false} ContainsIgnoringCaseIff(s: string, t: string)
    ensures ContainsIgnoringCase(s, t) <==> exists i: nat :: MatchesAt(s, t, i)
    decreases |s|
  {
    if StartsWithIgnoringCase(s, t) {
      assert s[0..0 + |t|] == s[..|t|];
      assert MatchesAt(s, t, 0);
    } else if |s| == 0 {
      assert |t| > 0;
    } else {
      ContainsIgnoringCaseIff(s[1..], t);
      if ContainsIgnoringCase(s[1..], t) {
        var i: nat :| MatchesAt(s[1..], t, i);
        assert s[1..][i..i + |t|] == s[i + 1..i + 1 + |t|];
        assert MatchesAt(s, t, i + 1);
      } else {
        forall i: nat | i + |t| <= |s|
          ensures !MatchesAt(s, t, i)
        {
          if i == 0 {
            assert s[i..i + |t|] == s[..|t|];
          } else {
            var j: nat := i - 1;
            assert s[1..][j..j + |t|] == s[j + 1..j + 1 + |t|];
            assert !MatchesAt(s[1..], t, j);
          }
        }
      }
    }
  }

  /** A pattern matches regardless of the case it is typed in. */
  lemma {:induction false} ContainsIgnoresPatternCase(s: string, t: string, t': string)
    requires LowerString(t) == LowerString(t')
    ensures ContainsIgnoringCase(s, t) == ContainsIgnoringCase(s, t')
    decreases |s|
  {
    assert |t| == |t'|;
    if |s| > 0 {
      ContainsIgnoresPatternCase(s[1..], t, t');
    }
  }
}
