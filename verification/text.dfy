/** Facts about strings (`seq<char>`) shared by the subject and body models. */
module Text {

  /** `p` and `q` disagree at some position that both of them have. */
  ghost predicate Diverge(p: string, q: string)
  {
    exists k :: 0 <= k < |p| && k < |q| && p[k] != q[k]
  }

  /** A position where `p` and `q` differ witnesses their divergence. */
  lemma DivergeAt(p: string, q: string, k: nat)
    requires k < |p| && k < |q| && p[k] != q[k]
    ensures Diverge(p, q)
  {
  }

  /** Strings that diverge can never be prefixes of extensions of one another. */
  lemma DivergeNoPrefix(p: string, q: string, c: string)
    requires Diverge(p, q)
    ensures !(p <= q + c)
    ensures !(q <= p + c)
  {
    var k :| 0 <= k < |p| && k < |q| && p[k] != q[k];
    assert (q + c)[k] == q[k];
    assert (p + c)[k] == p[k];
  }

  /** Position of the first `ch` in `s`, or `|s|` when `s` has none. */
  function IndexOf(s: string, ch: char): (i: nat)
    ensures i <= |s|
    ensures ch !in s[..i]
    ensures i < |s| ==> s[i] == ch
  {
    if s == [] then 0
    else if s[0] == ch then 0
    else
      var j := IndexOf(s[1..], ch);
      assert s[1..][..j] == s[1..j + 1];
      assert s[..j + 1] == [s[0]] + s[1..j + 1];
      1 + j
  }

  /** The first `ch` in `a + b` is the first one of `b`, when `a` has none. */
  lemma {:induction false} IndexOfAfter(a: string, b: string, ch: char)
    requires ch !in a
    ensures IndexOf(a + b, ch) == |a| + IndexOf(b, ch)
    decreases |a|
  {
    if a == [] {
      assert a + b == b;
    } else {
      assert (a + b)[0] == a[0];
      assert (a + b)[1..] == a[1..] + b;
      IndexOfAfter(a[1..], b, ch);
    }
  }

  /** No element occurs twice. */
  predicate Distinct<T(==)>(s: seq<T>)
  {
    forall i, j :: 0 <= i < j < |s| ==> s[i] != s[j]
  }

  /** A sequence without repetitions has as many distinct elements as it has positions. */
  lemma {:induction false} DistinctCardinality<T>(s: seq<T>)
    requires Distinct(s)
    ensures |set x | x in s| == |s|
  {
    if s != [] {
      var tail := s[1..];
      assert Distinct(tail) by {
        forall i, j | 0 <= i < j < |tail|
          ensures tail[i] != tail[j]
        {
          assert tail[i] == s[i + 1] && tail[j] == s[j + 1];
        }
      }
      DistinctCardinality(tail);
      assert (set x | x in s) == {s[0]} + (set x | x in tail);
      assert s[0] !in tail;
    }
  }
}
