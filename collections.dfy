/** Sequence helpers behind the list comprehensions of the inventory queries. */
module Collections {

  /** `sub` is `s` with some elements dropped and the others kept in their order. */
  predicate IsSubsequence<T(==)>(sub: seq<T>, s: seq<T>)
    decreases |s|
  {
    if sub == [] then true
    else if s == [] then false
    else if sub[0] == s[0] then IsSubsequence(sub[1..], s[1..])
    else IsSubsequence(sub, s[1..])
  }

  /** `[x for x in s if keep(x)]`. */
  function Filter<T(==,!new)>(s: seq<T>, keep: T -> bool): (r: seq<T>)
    ensures |r| <= |s|
    ensures forall x :: x in r <==> x in s && keep(x)
    ensures IsSubsequence(r, s)
  {
    if s == [] then []
    else if keep(s[0]) then [s[0]] + Filter(s[1..], keep)
    else Filter(s[1..], keep)
  }

  /** A filter that keeps everything gives back its input. */
  lemma {:induction false} FilterKeepsAll<T(!new)>(s: seq<T>, keep: T -> bool)
    requires forall x :: x in s ==> keep(x)
    ensures Filter(s, keep) == s
  {
    if s != [] {
      FilterKeepsAll(s[1..], keep);
    }
  }

  /** A filter keeps something exactly when some element passes its test. */
  lemma FilterNonEmpty<T(!new)>(s: seq<T>, keep: T -> bool)
    ensures |Filter(s, keep)| > 0 <==> exists i :: 0 <= i < |s| && keep(s[i])
  {
    var kept := Filter(s, keep);
    if exists i :: 0 <= i < |s| && keep(s[i]) {
      var i :| 0 <= i < |s| && keep(s[i]);
      assert s[i] in kept;
    } else if kept != [] {
      assert kept[0] in s;
    }
  }

  /** Elements at distinct positions of `s` are distinct. */
  ghost predicate Distinct<T>(s: seq<T>) {
    forall i, j :: 0 <= i < j < |s| ==> s[i] != s[j]
  }

  /** A filter keeps the elements of a sequence without repetitions free of repetitions. */
  lemma {:induction false} FilterDistinct<T(!new)>(s: seq<T>, keep: T -> bool)
    requires Distinct(s)
    ensures Distinct(Filter(s, keep))
  {
    if s != [] {
      FilterDistinct(s[1..], keep);
      if keep(s[0]) {
        var rest := Filter(s[1..], keep);
        assert s[0] !in s[1..];
        assert s[0] !in rest;
        var r := [s[0]] + rest;
        forall i, j | 0 <= i < j < |r| ensures r[i] != r[j] {
          if i > 0 {
            assert r[i] == rest[i - 1] && r[j] == rest[j - 1];
          } else {
            assert r[j] == rest[j - 1];
          }
        }
      }
    }
  }

  /** Two filters whose tests never both hold keep, together, at most every element. */
  lemma {:induction false} FilterDisjointSize<T(!new)>(s: seq<T>, a: T -> bool, b: T -> bool)
    requires forall x :: !(a(x) && b(x))
    ensures |Filter(s, a)| + |Filter(s, b)| <= |s|
  {
    if s != [] {
      FilterDisjointSize(s[1..], a, b);
    }
  }

  /** Elements without repetitions are as many as the sequence is long. */
  lemma {:induction false} DistinctCardinality<T>(s: seq<T>)
    requires Distinct(s)
    ensures |set x | x in s| == |s|
  {
    if s != [] {
      DistinctCardinality(s[1..]);
      assert (set x | x in s) == {s[0]} + (set x | x in s[1..]);
      assert s[0] !in s[1..];
    }
  }

  /** A prefix one longer is the shorter prefix and the next element. */
  lemma SlicePrefix<T>(s: seq<T>, i: nat)
    requires 0 < i <= |s|
    ensures s[..i] == s[..i - 1] + [s[i - 1]]
  {
  }

  /** In a sequence without repetitions, an element is not in the prefix before it. */
  lemma DistinctPrefix<T>(s: seq<T>, i: nat)
    requires Distinct(s) && 0 < i <= |s|
    ensures s[i - 1] !in s[..i - 1]
  {
  }

  /** Filters whose tests agree on every element keep the same elements. */
  lemma {:induction false} FilterCongruent<T(!new)>(s: seq<T>, f: T -> bool, g: T -> bool)
    requires forall x :: x in s ==> f(x) == g(x)
    ensures Filter(s, f) == Filter(s, g)
  {
    if s != [] {
      FilterCongruent(s[1..], f, g);
    }
  }
}
