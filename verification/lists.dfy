/** Small facts about lists of strings, used for the genre lists. */
module Lists {

  predicate Distinct(s: seq<string>) {
    forall i, j :: 0 <= i < j < |s| ==> s[i] != s[j]
  }

  /** `s.filter(x => x !== g)`: every occurrence of `g` dropped, the rest
      kept in order. */
  function Without(s: seq<string>, g: string): (r: seq<string>)
    ensures forall x :: x in r <==> x in s && x != g
    ensures |r| <= |s|
  {
    if s == [] then []
    else if s[0] == g then Without(s[1..], g)
    else [s[0]] + Without(s[1..], g)
  }

  /** Dropping a value that does not occur changes nothing. */
  lemma {:induction false} WithoutAbsent(s: seq<string>, g: string)
    requires g !in s
    ensures Without(s, g) == s
  {
    if s != [] {
      WithoutAbsent(s[1..], g);
      assert s == [s[0]] + s[1..];
    }
  }

  /** Dropping a value from a concatenation drops it from both parts. */
  lemma {:induction false} WithoutAppend(s: seq<string>, t: seq<string>, g: string)
    ensures Without(s + t, g) == Without(s, g) + Without(t, g)
  {
    if s != [] {
      WithoutAppend(s[1..], t, g);
      assert (s + t)[1..] == s[1..] + t;
    } else {
      assert s + t == t;
    }
  }

  /** Dropping values keeps a duplicate-free list duplicate-free. */
  lemma {:induction false} WithoutDistinct(s: seq<string>, g: string)
    requires Distinct(s)
    ensures Distinct(Without(s, g))
  {
    if s != [] {
      assert Distinct(s[1..]) by {
        forall i, j | 0 <= i < j < |s[1..]| ensures s[1..][i] != s[1..][j] {
          assert s[1..][i] == s[i + 1] && s[1..][j] == s[j + 1];
        }
      }
      WithoutDistinct(s[1..], g);
      if s[0] != g {
        var t := Without(s[1..], g);
        assert s[0] !in s[1..];
        AppendFresh([s[0]], t);
      }
    }
  }

  /** Putting a value not in a duplicate-free list in front of it keeps
      it duplicate-free; so does appending one at the end. */
  lemma AppendFresh(a: seq<string>, t: seq<string>)
    requires |a| == 1 && a[0] !in t && Distinct(t)
    ensures Distinct(a + t) && Distinct(t + a)
  {
    var r := a + t;
    forall i, j | 0 <= i < j < |r| ensures r[i] != r[j] {
      assert r[j] == t[j - 1];
      if i > 0 { assert r[i] == t[i - 1]; }
    }
    var q := t + a;
    forall i, j | 0 <= i < j < |q| ensures q[i] != q[j] {
      assert q[i] == t[i];
      if j < |t| { assert q[j] == t[j]; }
    }
  }
}
