/** The array operations the components use to derive new state from old:
    `Array.prototype.map`, `Array.prototype.filter` and `filter(...).length`. */
module Seqs {

  /** `s.map(f)`: one result per element, in the same order. */
  function Map<A, B>(s: seq<A>, f: A -> B): (r: seq<B>)
    ensures |r| == |s|
    ensures forall i :: 0 <= i < |s| ==> r[i] == f(s[i])
    decreases |s|
  {
    if s == [] then [] else [f(s[0])] + Map(s[1..], f)
  }

  /** `s.filter(p)`: the elements that satisfy `p`, in their original order. */
  function Filter<T>(s: seq<T>, p: T -> bool): (r: seq<T>)
    ensures |r| <= |s|
    ensures forall x :: x in r ==> x in s && p(x)
    decreases |s|
  {
    if s == [] then [] else (if p(s[0]) then [s[0]] else []) + Filter(s[1..], p)
  }

  /** `s.filter(p).length` */
  function Count<T>(s: seq<T>, p: T -> bool): nat {
    |Filter(s, p)|
  }

  /** `r` is `s` with some elements left out and the rest kept in order. */
  predicate Subsequence<T(==)>(r: seq<T>, s: seq<T>)
    decreases |s|
  {
    if r == [] then true
    else if s == [] then false
    else (r[0] == s[0] && Subsequence(r[1..], s[1..])) || Subsequence(r, s[1..])
  }

  /** No value occurs twice. */
  predicate NoDuplicates<T(==)>(s: seq<T>) {
    forall i, j :: 0 <= i < j < |s| ==> s[i] != s[j]
  }

  lemma FilterCons<T>(x: T, s: seq<T>, p: T -> bool)
    ensures Filter([x] + s, p) == (if p(x) then [x] else []) + Filter(s, p)
  {
    assert ([x] + s)[1..] == s;
  }

  lemma MapCons<A, B>(x: A, s: seq<A>, f: A -> B)
    ensures Map([x] + s, f) == [f(x)] + Map(s, f)
  {
    assert ([x] + s)[1..] == s;
  }

  /** Filtering a concatenation filters each part. */
  lemma {:induction false} FilterAppend<T>(s: seq<T>, t: seq<T>, p: T -> bool)
    ensures Filter(s + t, p) == Filter(s, p) + Filter(t, p)
    decreases |s|
  {
    if s != [] {
      FilterAppend(s[1..], t, p);
      assert (s + t)[1..] == s[1..] + t;
    } else {
      assert s + t == t;
    }
  }

  /** Predicates that agree on every element filter alike. */
  lemma {:induction false} FilterAgree<T>(s: seq<T>, p: T -> bool, q: T -> bool)
    requires forall i :: 0 <= i < |s| ==> p(s[i]) == q(s[i])
    ensures Filter(s, p) == Filter(s, q)
    decreases |s|
  {
    if s != [] {
      FilterAgree(s[1..], p, q);
    }
  }

  /** Filtering keeps exactly the elements that satisfy the predicate. */
  lemma {:induction false} FilterMembership<T>(s: seq<T>, p: T -> bool, x: T)
    ensures x in Filter(s, p) <==> x in s && p(x)
    decreases |s|
  {
    if s != [] {
      FilterMembership(s[1..], p, x);
      assert s == [s[0]] + s[1..];
    }
  }

  /** Filtering keeps the relative order of what it keeps. */
  lemma {:induction false} FilterIsSubsequence<T>(s: seq<T>, p: T -> bool)
    ensures Subsequence(Filter(s, p), s)
    decreases |s|
  {
    if s != [] {
      FilterIsSubsequence(s[1..], p);
      var rest := Filter(s[1..], p);
      if p(s[0]) {
        assert Filter(s, p) == [s[0]] + rest;
        assert Filter(s, p)[1..] == rest;
      } else {
        assert Filter(s, p) == rest;
      }
    }
  }

  /** When every element passes, filtering returns its input unchanged. */
  lemma {:induction false} FilterAll<T>(s: seq<T>, p: T -> bool)
    requires forall i :: 0 <= i < |s| ==> p(s[i])
    ensures Filter(s, p) == s
    decreases |s|
  {
    if s != [] {
      FilterAll(s[1..], p);
    }
  }

  /** Filtering keeps every copy of an element that passes and no copy of
      one that fails. */
  lemma {:induction false} FilterMultiplicity<T>(s: seq<T>, p: T -> bool, x: T)
    ensures multiset(Filter(s, p))[x] == if p(x) then multiset(s)[x] else 0
    decreases |s|
  {
    if s != [] {
      FilterMultiplicity(s[1..], p, x);
      assert s == [s[0]] + s[1..];
      assert multiset(s) == multiset{s[0]} + multiset(s[1..]);
      assert Filter(s, p) == (if p(s[0]) then [s[0]] else []) + Filter(s[1..], p);
    }
  }

  /** A predicate and its negation split the sequence between them. */
  lemma {:induction false} CountComplement<T>(s: seq<T>, p: T -> bool, q: T -> bool)
    requires forall i :: 0 <= i < |s| ==> q(s[i]) == !p(s[i])
    ensures Count(s, p) + Count(s, q) == |s|
    decreases |s|
  {
    if s != [] {
      CountComplement(s[1..], p, q);
    }
  }

  /** `filter(p).length` is the number of positions whose element passes. */
  lemma {:induction false} CountIndices<T>(s: seq<T>, p: T -> bool)
    ensures Count(s, p) == |set i | 0 <= i < |s| && p(s[i])|
    decreases |s|
  {
    if s != [] {
      var n := |s| - 1;
      CountIndices(s[..n], p);
      assert s == s[..n] + [s[n]];
      FilterAppend(s[..n], [s[n]], p);
      var before := set i | 0 <= i < n && p(s[..n][i]);
      assert before == set i | 0 <= i < n && p(s[i]);
      if p(s[n]) {
        assert (set i | 0 <= i < |s| && p(s[i])) == before + {n};
      } else {
        assert (set i | 0 <= i < |s| && p(s[i])) == before;
      }
    }
  }

  /** Two predicates that no element satisfies together count at most the
      whole sequence between them. */
  lemma {:induction false} CountDisjoint<T>(s: seq<T>, p: T -> bool, q: T -> bool)
    requires forall i :: 0 <= i < |s| ==> !(p(s[i]) && q(s[i]))
    ensures Count(s, p) + Count(s, q) <= |s|
    decreases |s|
  {
    if s != [] {
      CountDisjoint(s[1..], p, q);
    }
  }

  /** Leaving elements out of a sequence without duplicates cannot create one. */
  lemma {:induction false} SubsequenceNoDuplicates<T>(r: seq<T>, s: seq<T>)
    requires Subsequence(r, s) && NoDuplicates(s)
    ensures NoDuplicates(r)
    decreases |s|
  {
    if r != [] && s != [] {
      assert NoDuplicates(s[1..]) by {
        forall i, j | 0 <= i < j < |s[1..]| ensures s[1..][i] != s[1..][j] {
          assert s[1..][i] == s[i + 1] && s[1..][j] == s[j + 1];
        }
      }
      if r[0] == s[0] && Subsequence(r[1..], s[1..]) {
        SubsequenceNoDuplicates(r[1..], s[1..]);
        SubsequenceMembership(r[1..], s[1..]);
        forall i, j | 0 <= i < j < |r| ensures r[i] != r[j] {
          if i == 0 {
            assert r[j] == r[1..][j - 1];
            assert r[j] in s[1..];
            var k :| 0 <= k < |s[1..]| && s[1..][k] == r[j];
            assert s[k + 1] == r[j];
          } else {
            assert r[i] == r[1..][i - 1] && r[j] == r[1..][j - 1];
          }
        }
      } else {
        SubsequenceNoDuplicates(r, s[1..]);
      }
    }
  }

  /** Every element of a subsequence is an element of the whole. */
  lemma {:induction false} SubsequenceMembership<T>(r: seq<T>, s: seq<T>)
    requires Subsequence(r, s)
    ensures forall x :: x in r ==> x in s
    decreases |s|
  {
    if r != [] && s != [] {
      if r[0] == s[0] && Subsequence(r[1..], s[1..]) {
        SubsequenceMembership(r[1..], s[1..]);
        assert r == [r[0]] + r[1..];
        assert s == [s[0]] + s[1..];
      } else {
        SubsequenceMembership(r, s[1..]);
        assert s == [s[0]] + s[1..];
      }
    }
  }
}
