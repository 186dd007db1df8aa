/**
 The two string operations the index and the search rely on: upper-casing
 (PHP's `strtoupper`, ASCII letters only) and literal substring containment
 (what `LIKE '%' || escaped(pattern) || '%'` decides).
 */
module Text {

  /** Upper-cases an ASCII lower-case letter; every other character is unchanged. */
  function UpperChar(c: char): char {
    if 'a' <= c <= 'z' then (c as int - 'a' as int + 'A' as int) as char else c
  }

  function ToUpper(s: string): (u: string)
    ensures |u| == |s|
    ensures forall i :: 0 <= i < |s| ==> u[i] == UpperChar(s[i])
  {
    if |s| == 0 then [] else [UpperChar(s[0])] + ToUpper(s[1..])
  }

  /** The characters that upper-case to the capital letter `u`. */
  lemma UpperCharIs(c: char, u: char)
    requires 'A' <= u <= 'Z'
    ensures UpperChar(c) == u <==> c == u || c == (u as int - 'A' as int + 'a' as int) as char
  {
  }

  /** Upper-casing a string yields "PREF" exactly when it spells "pref" in any mix of cases. */
  lemma ToUpperIsPref(s: string)
    ensures ToUpper(s) == "PREF" <==>
      && |s| == 4
      && (s[0] == 'p' || s[0] == 'P')
      && (s[1] == 'r' || s[1] == 'R')
      && (s[2] == 'e' || s[2] == 'E')
      && (s[3] == 'f' || s[3] == 'F')
  {
    var u := ToUpper(s);
    if |s| == 4 {
      UpperCharIs(s[0], 'P');
      UpperCharIs(s[1], 'R');
      UpperCharIs(s[2], 'E');
      UpperCharIs(s[3], 'F');
      if u == "PREF" {
        assert u[0] == 'P' && u[1] == 'R' && u[2] == 'E' && u[3] == 'F';
      }
      if u[0] == 'P' && u[1] == 'R' && u[2] == 'E' && u[3] == 'F' {
        assert u == "PREF";
      }
    }
  }

  /** `p` occurs in `s` at position `i`. */
  predicate OccursAt(s: string, p: string, i: int) {
    0 <= i && i + |p| <= |s| && s[i..i + |p|] == p
  }

  lemma OccursAtShift(s: string, p: string, i: int)
    requires |s| > 0 && i >= 0
    ensures OccursAt(s, p, i + 1) <==> OccursAt(s[1..], p, i)
  {
    if 0 <= i && i + |p| <= |s[1..]| {
      var a, b := s[i + 1..i + 1 + |p|], s[1..][i..i + |p|];
      assert |a| == |b|;
      forall k | 0 <= k < |a|
        ensures a[k] == b[k]
      {
        assert a[k] == s[i + 1 + k];
      }
      assert a == b;
    }
  }

  /** Decides whether `p` is a substring of `s` by trying each start position
      from the left, as a `LIKE '%p%'` scan does. */
  function Contains(s: string, p: string): (found: bool)
    ensures found <==> exists i :: OccursAt(s, p, i)
    decreases |s|
  {
    if |p| <= |s| && s[..|p|] == p then
      assert OccursAt(s, p, 0);
      true
    else if |s| == 0 then
      false
    else
      var rest := Contains(s[1..], p);
      assert rest ==> exists i :: OccursAt(s, p, i) by {
        if rest {
          var i :| OccursAt(s[1..], p, i);
          OccursAtShift(s, p, i);
        }
      }
      assert (exists i :: OccursAt(s, p, i)) ==> rest by {
        if exists i :: OccursAt(s, p, i) {
          var i :| OccursAt(s, p, i);
          assert i != 0;
          OccursAtShift(s, p, i - 1);
        }
      }
      rest
  }

  /** The empty pattern occurs in every string. */
  lemma ContainsEmpty(s: string)
    ensures Contains(s, "")
  {
    assert OccursAt(s, "", 0);
  }

  /** A pattern longer than the string never occurs in it. */
  lemma ContainsLongPattern(s: string, p: string)
    requires |p| > |s|
    ensures !Contains(s, p)
  {
  }

  /** A pattern holding a character the string lacks does not occur in it. */
  lemma MissingCharNotContained(s: string, p: string, c: char)
    requires c in p && c !in s
    ensures !Contains(s, p)
  {
    var j :| 0 <= j < |p| && p[j] == c;
    forall i
      ensures !OccursAt(s, p, i)
    {
      if 0 <= i && i + |p| <= |s| {
        assert s[i..i + |p|][j] == s[i + j];
        assert s[i + j] in s;
      }
    }
  }
}
