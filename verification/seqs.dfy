/** Generic sequence utilities shared by every list the application keeps:
    order-preserving filtering, subsequences, duplicate-freedom, counting,
    searching and substring containment. */
module Seqs {
  import opened Wrappers

  /** `a` can be obtained from `b` by deleting elements, i.e. `a` keeps
      the relative order of the elements it takes from `b`. */
  predicate IsSubsequence<T(==)>(a: seq<T>, b: seq<T>)
    decreases |b|
  {
    if |b| == 0 then |a| == 0
    else (|a| > 0 && a[0] == b[0] && IsSubsequence(a[1..], b[1..]))
         || IsSubsequence(a, b[1..])
  }

  /** No element occurs twice. */
  predicate NoDup<T(==)>(s: seq<T>) {
    forall i, j :: 0 <= i < j < |s| ==> s[i] != s[j]
  }

  /** Joining two duplicate-free sequences with no common element
      leaves no duplicate. */
  lemma NoDupAppend<T>(a: seq<T>, b: seq<T>)
    requires NoDup(a) && NoDup(b)
    requires forall x :: x in a ==> x !in b
    ensures NoDup(a + b)
  {
    forall i, j | 0 <= i < j < |a + b| ensures (a + b)[i] != (a + b)[j] {
      if i < |a| <= j {
        assert (a + b)[i] in a && (a + b)[j] in b;
      }
    }
  }

  /** `Array.prototype.filter`: the elements satisfying `p`, in order. */
  function Filter<T(!new)>(s: seq<T>, p: T -> bool): (r: seq<T>)
    ensures |r| <= |s|
    ensures forall x :: x in r <==> x in s && p(x)
    ensures forall x :: multiset(r)[x] == if p(x) then multiset(s)[x] else 0
    ensures IsSubsequence(r, s)
    decreases |s|
  {
    if |s| == 0 then []
    else
      assert s == [s[0]] + s[1..];
      var rest := Filter(s[1..], p);
      if p(s[0]) then
        assert ([s[0]] + rest)[1..] == rest;
        [s[0]] + rest
      else rest
  }

  /** Filtering a duplicate-free sequence leaves it duplicate-free. */
  lemma {:induction false} FilterNoDup<T(!new)>(s: seq<T>, p: T -> bool)
    requires NoDup(s)
    ensures NoDup(Filter(s, p))
    decreases |s|
  {
    if |s| > 0 {
      assert NoDup(s[1..]) by {
        forall i, j | 0 <= i < j < |s[1..]| ensures s[1..][i] != s[1..][j] {
          assert s[1..][i] == s[i + 1] && s[1..][j] == s[j + 1];
        }
      }
      FilterNoDup(s[1..], p);
      if p(s[0]) {
        assert s[0] !in s[1..] by {
          forall k | 0 <= k < |s[1..]| ensures s[1..][k] != s[0] {
            assert s[1..][k] == s[k + 1];
          }
        }
        NoDupAppend([s[0]], Filter(s[1..], p));
      }
    }
  }

  /** Filtering a sequence with a first element: the element is kept
      exactly when it qualifies. */
  lemma FilterCons<T(!new)>(x: T, s: seq<T>, p: T -> bool)
    ensures Filter([x] + s, p) == if p(x) then [x] + Filter(s, p) else Filter(s, p)
  {
    assert ([x] + s)[1..] == s;
  }

  /** `Array.prototype.map`: `f` applied to each element, in order. */
  function Map<T, U>(s: seq<T>, f: T -> U): (r: seq<U>)
    ensures |r| == |s| && forall i :: 0 <= i < |s| ==> r[i] == f(s[i])
  {
    seq(|s|, i requires 0 <= i < |s| => f(s[i]))
  }

  /** Mapping a sequence with a first element maps that element first. */
  lemma MapCons<T, U>(x: T, s: seq<T>, f: T -> U)
    ensures Map([x] + s, f) == [f(x)] + Map(s, f)
  {
    var a := Map([x] + s, f);
    var b := [f(x)] + Map(s, f);
    forall i | 0 <= i < |a| ensures a[i] == b[i] {
      if i > 0 {
        assert ([x] + s)[i] == s[i - 1];
      }
    }
  }

  /** Filtering then mapping keeps at most as many elements, and keeps
      none when nothing qualifies. */
  lemma MapFilterFacts<T(!new), U(!new)>(s: seq<T>, p: T -> bool, f: T -> U)
    ensures |Map(Filter(s, p), f)| <= |s|
    ensures (forall x :: x in s ==> !p(x)) ==> Map(Filter(s, p), f) == []
    ensures forall y :: y in Map(Filter(s, p), f) <==> exists x :: x in s && p(x) && y == f(x)
  {
    var m := Filter(s, p);
    var r := Map(m, f);
    forall y ensures y in r <==> exists x :: x in s && p(x) && y == f(x) {
      if y in r {
        var i :| 0 <= i < |r| && r[i] == y;
        assert m[i] in m;
      }
      if exists x :: x in s && p(x) && y == f(x) {
        var x :| x in s && p(x) && y == f(x);
        assert x in m;
        var i :| 0 <= i < |m| && m[i] == x;
        assert r[i] == y;
      }
    }
  }


  /** One step of filtering then mapping, from the result for the tail. */
  lemma MapFilterStep<T(!new), U>(s: seq<T>, p: T -> bool, f: T -> U, rest: seq<U>)
    requires |s| > 0 && rest == Map(Filter(s[1..], p), f)
    ensures Map(Filter(s, p), f) == if p(s[0]) then [f(s[0])] + rest else rest
  {
    assert s == [s[0]] + s[1..];
    MapFilterCons(s[0], s[1..], p, f);
  }

  /** Filtering then mapping a sequence with a first element: the
      element's image comes first exactly when the element qualifies. */
  lemma MapFilterCons<T(!new), U>(x: T, s: seq<T>, p: T -> bool, f: T -> U)
    ensures Map(Filter([x] + s, p), f)
            == if p(x) then [f(x)] + Map(Filter(s, p), f) else Map(Filter(s, p), f)
  {
    FilterCons(x, s, p);
    if p(x) {
      MapCons(x, Filter(s, p), f);
    }
  }

  /** Filtering with a predicate every element satisfies changes nothing. */
  lemma {:induction false} FilterAll<T(!new)>(s: seq<T>, p: T -> bool)
    requires forall i :: 0 <= i < |s| ==> p(s[i])
    ensures Filter(s, p) == s
    decreases |s|
  {
    if |s| > 0 {
      assert forall i :: 0 <= i < |s[1..]| ==> s[1..][i] == s[i + 1];
      FilterAll(s[1..], p);
      assert p(s[0]);
      assert s == [s[0]] + s[1..];
    }
  }

  /** Filters with predicates that agree on every element coincide. */
  lemma {:induction false} FilterCongruent<T(!new)>(s: seq<T>, p: T -> bool, q: T -> bool)
    requires forall i :: 0 <= i < |s| ==> p(s[i]) == q(s[i])
    ensures Filter(s, p) == Filter(s, q)
    decreases |s|
  {
    if |s| > 0 {
      FilterCongruent(s[1..], p, q);
    }
  }

  /** The conjunction of two predicates. */
  function And<T>(p: T -> bool, q: T -> bool): T -> bool {
    x => p(x) && q(x)
  }

  /** Filtering twice is filtering once by the conjunction. */
  lemma {:induction false} FilterFilter<T(!new)>(s: seq<T>, p: T -> bool, q: T -> bool)
    ensures Filter(Filter(s, p), q) == Filter(s, And(p, q))
    decreases |s|
  {
    if |s| > 0 {
      FilterFilter(s[1..], p, q);
      if p(s[0]) {
        assert Filter(s, p) == [s[0]] + Filter(s[1..], p);
        assert ([s[0]] + Filter(s[1..], p))[1..] == Filter(s[1..], p);
      }
    }
  }

  /** Filtering an appended block none of whose elements qualify. */
  lemma {:induction false} FilterAppendNone<T(!new)>(a: seq<T>, b: seq<T>, p: T -> bool)
    requires forall i :: 0 <= i < |b| ==> !p(b[i])
    ensures Filter(a + b, p) == Filter(a, p)
    decreases |a|
  {
    if |a| == 0 {
      assert a + b == b;
      FilterNone(b, p);
    } else {
      assert (a + b)[1..] == a[1..] + b;
      FilterAppendNone(a[1..], b, p);
    }
  }

  /** Filtering out exactly the appended element gives back the prefix. */
  lemma FilterDropsLast<T(!new)>(a: seq<T>, x: T, p: T -> bool)
    requires forall y :: y in a ==> p(y)
    requires !p(x)
    ensures Filter(a + [x], p) == a
  {
    FilterAppendNone(a, [x], p);
    FilterAll(a, p);
  }

  /** Filtering out exactly the prepended element gives back the rest. */
  lemma FilterDropsFirst<T(!new)>(x: T, a: seq<T>, p: T -> bool)
    requires forall y :: y in a ==> p(y)
    requires !p(x)
    ensures Filter([x] + a, p) == a
  {
    FilterCons(x, a, p);
    FilterAll(a, p);
  }

  lemma {:induction false} FilterNone<T(!new)>(b: seq<T>, p: T -> bool)
    requires forall i :: 0 <= i < |b| ==> !p(b[i])
    ensures Filter(b, p) == []
    decreases |b|
  {
    if |b| > 0 {
      FilterNone(b[1..], p);
    }
  }

  /** Number of elements satisfying `p`. */
  function Count<T(!new)>(s: seq<T>, p: T -> bool): nat {
    |Filter(s, p)|
  }

  lemma {:induction false} CountCons<T(!new)>(x: T, s: seq<T>, p: T -> bool)
    ensures Count([x] + s, p) == (if p(x) then 1 else 0) + Count(s, p)
  {
    assert ([x] + s)[1..] == s;
  }

  /** Filtering with the same predicate keeps sequences with equal
      multisets at equal length: the count does not depend on order. */
  lemma CountPermutation<T(!new)>(a: seq<T>, b: seq<T>, p: T -> bool)
    requires multiset(a) == multiset(b)
    ensures Count(a, p) == Count(b, p)
  {
    var fa, fb := Filter(a, p), Filter(b, p);
    assert multiset(fa) == multiset(fb);
    assert |multiset(fa)| == |multiset(fb)|;
  }

  /** Exactly one of three conditions holds. */
  predicate ExactlyOne(a: bool, b: bool, c: bool) {
    (a && !b && !c) || (!a && b && !c) || (!a && !b && c)
  }

  /** When every element falls in exactly one of three classes, the
      class sizes add up to the length. */
  lemma {:induction false} CountThreeWay<T(!new)>(s: seq<T>, p: T -> bool, q: T -> bool,
                                                  r: T -> bool)
    requires forall i :: 0 <= i < |s| ==> ExactlyOne(p(s[i]), q(s[i]), r(s[i]))
    ensures Count(s, p) + Count(s, q) + Count(s, r) == |s|
    decreases |s|
  {
    if |s| > 0 {
      assert s == [s[0]] + s[1..];
      CountCons(s[0], s[1..], p);
      CountCons(s[0], s[1..], q);
      CountCons(s[0], s[1..], r);
      CountThreeWay(s[1..], p, q, r);
    }
  }

  /** `Array.prototype.find`: the first element satisfying `p`. */
  function Find<T>(s: seq<T>, p: T -> bool): (r: Option<T>)
    ensures r.None? <==> forall i :: 0 <= i < |s| ==> !p(s[i])
    ensures r.Some? ==> exists i :: 0 <= i < |s| && s[i] == r.value && p(s[i])
                                    && forall j :: 0 <= j < i ==> !p(s[j])
    decreases |s|
  {
    if |s| == 0 then None
    else if p(s[0]) then Some(s[0])
    else
      var r := Find(s[1..], p);
      if r.Some? then
        ghost var i :| 0 <= i < |s[1..]| && s[1..][i] == r.value && p(s[1..][i])
                       && forall j :: 0 <= j < i ==> !p(s[1..][j]);
        assert s[i + 1] == r.value;
        assert forall j :: 0 <= j < i + 1 ==> !p(s[j]) by {
          forall j | 0 <= j < i + 1 ensures !p(s[j]) {
            if j > 0 { assert s[j] == s[1..][j - 1]; }
          }
        }
        r
      else
        assert forall i :: 0 <= i < |s| ==> !p(s[i]) by {
          forall i | 0 <= i < |s| ensures !p(s[i]) {
            if i > 0 { assert s[i] == s[1..][i - 1]; }
          }
        }
        r
  }

  /** Finding among the elements that satisfy `p` finds the first
      element satisfying both `p` and `q`. */
  lemma {:induction false} FindFilter<T(!new)>(s: seq<T>, p: T -> bool, q: T -> bool)
    ensures Find(Filter(s, p), q) == Find(s, And(p, q))
    decreases |s|
  {
    if |s| > 0 {
      assert s == [s[0]] + s[1..];
      FilterCons(s[0], s[1..], p);
      FindFilter(s[1..], p, q);
      if p(s[0]) {
        assert ([s[0]] + Filter(s[1..], p))[1..] == Filter(s[1..], p);
      }
    }
  }

  /** When the first element satisfying `p` also satisfies `q`, it is
      the first element satisfying both. */
  lemma {:induction false} FindNarrowed<T>(s: seq<T>, p: T -> bool, q: T -> bool)
    requires Find(s, p).Some? && q(Find(s, p).value)
    ensures Find(s, And(q, p)) == Find(s, p)
    decreases |s|
  {
    if !p(s[0]) {
      FindNarrowed(s[1..], p, q);
    }
  }

  /** When `s` holds the same elements satisfying `k`, in the same order,
      as `base` filtered by `p`, then the first element of `s` satisfying
      `q`, if it satisfies `k`, is the first of `base` satisfying `p`, `k`
      and `q`. */
  lemma FindThroughFilters<T(!new)>(s: seq<T>, base: seq<T>, p: T -> bool, k: T -> bool,
                                    q: T -> bool, x: T)
    requires Filter(s, k) == Filter(Filter(base, p), k)
    requires Find(s, q) == Some(x) && k(x)
    ensures Find(base, And(p, And(k, q))) == Some(x)
  {
    FindNarrowed(s, q, k);
    FindFilter(s, k, q);
    FindFilter(Filter(base, p), k, q);
    FindFilter(base, p, And(k, q));
  }

  /** The first element kept by a filter is the first that qualifies. */
  lemma {:induction false} FilterHeadIsFind<T(!new)>(s: seq<T>, p: T -> bool)
    requires |Filter(s, p)| > 0
    ensures Find(s, p) == Some(Filter(s, p)[0])
    decreases |s|
  {
    assert s == [s[0]] + s[1..];
    FilterCons(s[0], s[1..], p);
    if !p(s[0]) {
      FilterHeadIsFind(s[1..], p);
    }
  }

  /** `s.includes(sub)` on strings: `sub` occurs contiguously in `s`. */
  predicate Contains<T(==)>(s: seq<T>, sub: seq<T>) {
    exists i | 0 <= i <= |s| :: OccursAt(s, sub, i)
  }

  /** `sub` occurs in `s` starting at index `i`. */
  predicate OccursAt<T(==)>(s: seq<T>, sub: seq<T>, i: int) {
    0 <= i && i + |sub| <= |s| && s[i..i + |sub|] == sub
  }

  /** A prefix is contained. */
  lemma PrefixContained<T>(s: seq<T>, pre: seq<T>)
    requires |pre| <= |s| && s[..|pre|] == pre
    ensures Contains(s, pre)
  {
    assert OccursAt(s, pre, 0);
  }

  /** The empty sequence is contained in every sequence. */
  lemma EmptyContained<T>(s: seq<T>)
    ensures Contains(s, [])
  {
    assert OccursAt(s, [], 0);
  }
}
