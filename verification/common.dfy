/** Shared vocabulary: an optional value (a DOM lookup that may find nothing,
    an attribute that may be missing) and the three string tests the script
    uses, `startsWith`, `endsWith` and `includes`. */
module Common {

  datatype Option<T> = None | Some(value: T)

  /** `s.startsWith(p)` */
  predicate StartsWith(s: string, p: string)
  {
    |p| <= |s| && s[..|p|] == p
  }

  /** `s.endsWith(p)` */
  predicate EndsWith(s: string, p: string)
  {
    |p| <= |s| && s[|s| - |p|..] == p
  }

  /** `s.includes(p)`: tries every start position from the left. */
  predicate Contains(s: string, p: string)
    decreases |s|
  {
    StartsWith(s, p) || (|s| > 0 && Contains(s[1..], p))
  }

  /** `p` occurs in `s` starting at index `i`. */
  ghost predicate OccursAt(s: string, p: string, i: int)
  {
    0 <= i && i + |p| <= |s| && s[i..i + |p|] == p
  }

  /** The left-to-right search finds `p` exactly when `p` occurs somewhere in `s`. */
  lemma {:induction false} ContainsIffOccurs(s: string, p: string)
    ensures Contains(s, p) <==> exists i :: OccursAt(s, p, i)
    decreases |s|
  {
    if StartsWith(s, p) {
      assert OccursAt(s, p, 0);
    } else if |s| > 0 {
      ContainsIffOccurs(s[1..], p);
      if Contains(s[1..], p) {
        var i :| OccursAt(s[1..], p, i);
        assert s[1..][i..i + |p|] == s[i + 1..i + 1 + |p|];
        assert OccursAt(s, p, i + 1);
      }
      assert !OccursAt(s, p, 0) by {
        assert |p| <= |s| ==> s[0..|p|] == s[..|p|];
      }
      forall i | OccursAt(s, p, i)
        ensures OccursAt(s[1..], p, i - 1)
      {
        assert s[1..][i - 1..i - 1 + |p|] == s[i..i + |p|];
      }
    }
  }

  /** Text in front of `s` never hides an occurrence inside it. */
  lemma ContainsPrefixed(x: string, s: string, p: string)
    requires Contains(s, p)
    ensures Contains(x + s, p)
  {
    ContainsIffOccurs(s, p);
    var i :| OccursAt(s, p, i);
    assert (x + s)[|x| + i..|x| + i + |p|] == s[i..i + |p|];
    assert OccursAt(x + s, p, |x| + i);
    ContainsIffOccurs(x + s, p);
  }

  /** Text in front of `s` keeps every suffix of `s`. */
  lemma EndsWithPrefixed(x: string, s: string, p: string)
    requires EndsWith(s, p)
    ensures EndsWith(x + s, p)
  {
    assert (x + s)[|x + s| - |p|..] == s[|s| - |p|..];
  }
}
