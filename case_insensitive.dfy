/** Case-insensitive substring matching, as the job list screen does it with
    `value.toLowerCase().includes(fragment.toLowerCase())`.
    Lower-casing is restricted to ASCII: the letters A to Z become a to z and
    every other character is left as it is. */
module CaseInsensitive {

  predicate IsUpper(c: char) {
    'A' <= c <= 'Z'
  }

  function LowerChar(c: char): char {
    if IsUpper(c) then (c as int + 32) as char else c
  }

  /** `s.toLowerCase()` on ASCII text. */
  function Lower(s: string): (r: string)
    ensures |r| == |s|
    ensures forall i :: 0 <= i < |r| ==> !IsUpper(r[i])
    ensures forall i :: 0 <= i < |s| && !IsUpper(s[i]) ==> r[i] == s[i]
    ensures forall i :: 0 <= i < |s| && IsUpper(s[i]) ==> r[i] as int == s[i] as int + 32
  {
    seq(|s|, i requires 0 <= i < |s| => LowerChar(s[i]))
  }

  /** Lower-casing twice is lower-casing once. */
  lemma LowerIdempotent(s: string)
    ensures Lower(Lower(s)) == Lower(s)
  {
    var l := Lower(s);
    assert forall i :: 0 <= i < |l| ==> Lower(l)[i] == l[i];
  }

  /** `s.includes(t)`: t occurs in s as a contiguous block (the empty string
      occurs everywhere). */
  predicate Includes(s: string, t: string)
    decreases |s|
  {
    (|t| <= |s| && s[..|t|] == t) || (|s| > 0 && Includes(s[1..], t))
  }

  /** t occurs in s starting at position i. */
  predicate OccursAt(s: string, t: string, i: int) {
    0 <= i && i + |t| <= |s| && s[i..i + |t|] == t
  }

  /** Includes agrees with the positional definition of a substring. */
  lemma {:induction false} IncludesIff(s: string, t: string)
    decreases |s|
    ensures Includes(s, t) <==> exists i :: OccursAt(s, t, i)
  {
    if |t| <= |s| && s[..|t|] == t {
      assert OccursAt(s, t, 0);
    }
    if |s| > 0 {
      var rest := s[1..];
      IncludesIff(rest, t);
      if Includes(rest, t) {
        var i :| OccursAt(rest, t, i);
        assert s[i + 1..i + 1 + |t|] == t;
        assert OccursAt(s, t, i + 1);
      }
      if exists i :: OccursAt(s, t, i) {
        var i :| OccursAt(s, t, i);
        if i > 0 {
          assert rest[i - 1..i - 1 + |t|] == t;
          assert OccursAt(rest, t, i - 1);
        } else {
          assert s[..|t|] == t;
        }
      }
    } else {
      if exists i :: OccursAt(s, t, i) {
        assert |t| == 0;
      }
    }
  }

  /** `s.toLowerCase().includes(t.toLowerCase())`: the fragment t occurs in s
      when case is ignored. An empty fragment matches every string. */
  function Contains(s: string, t: string): (r: bool)
    ensures t == [] ==> r
    ensures r ==> |t| <= |s|
  {
    IncludesIff(Lower(s), Lower(t));
    Includes(Lower(s), Lower(t))
  }

  /** Contains holds exactly when some block of s equals t up to case. */
  lemma ContainsIff(s: string, t: string)
    ensures Contains(s, t) <==>
            exists i :: OccursAt(Lower(s), Lower(t), i)
  {
    IncludesIff(Lower(s), Lower(t));
  }

  /** Changing the case of either side does not change the outcome. */
  lemma ContainsIgnoresCase(s: string, t: string)
    ensures Contains(Lower(s), t) == Contains(s, t)
    ensures Contains(s, Lower(t)) == Contains(s, t)
  {
    LowerIdempotent(s);
    LowerIdempotent(t);
  }

  /** The matching is reflexive: every string contains itself. */
  lemma ContainsSelf(s: string)
    ensures Contains(s, s)
  {
    assert Lower(s)[..|Lower(s)|] == Lower(s);
  }

  /** A fragment holding a character that s lacks, ignoring case, is not
      contained in s. */
  lemma ContainsNeedsEveryChar(s: string, t: string, k: nat)
    requires k < |t| && Lower(t)[k] !in Lower(s)
    ensures !Contains(s, t)
  {
    ContainsIff(s, t);
  }

  /** t and u have the same length and differ at most in the case of ASCII
      letters. */
  predicate EqualIgnoringCase(t: string, u: string) {
    |t| == |u| &&
    forall i :: 0 <= i < |t| ==>
      t[i] == u[i] ||
      (IsUpper(t[i]) && u[i] as int == t[i] as int + 32) ||
      (IsUpper(u[i]) && t[i] as int == u[i] as int + 32)
  }

  /** Strings that differ only in letter case lower-case to the same string. */
  lemma LowerEqualIgnoringCase(t: string, u: string)
    requires EqualIgnoringCase(t, u)
    ensures Lower(t) == Lower(u)
  {
    forall i | 0 <= i < |t|
      ensures Lower(t)[i] == Lower(u)[i]
    {
      if IsUpper(t[i]) && !IsUpper(u[i]) {
        assert u[i] as int == t[i] as int + 32;
      } else if IsUpper(u[i]) && !IsUpper(t[i]) {
        assert t[i] as int == u[i] as int + 32;
      }
    }
  }

  /** Changing the letter case of the value or of the fragment does not change
      whether the value contains the fragment: typing "ENG" matches exactly
      what typing "eng" matches. */
  lemma ContainsCaseVariants(s1: string, s2: string, t: string, u: string)
    requires EqualIgnoringCase(s1, s2) && EqualIgnoringCase(t, u)
    ensures Contains(s1, t) == Contains(s2, u)
  {
    LowerEqualIgnoringCase(s1, s2);
    LowerEqualIgnoringCase(t, u);
  }
}
