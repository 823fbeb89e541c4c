/** A stable insertion sort parameterised by a "may precede" relation,
    standing in for `Array.prototype.sort` with a comparator (which is
    stable since ECMAScript 2019). `le(a, b)` holds when the comparator
    does not put `b` strictly before `a`. */
module Sorting {
  import Seqs

  /** The comparator is total and transitive, as a well-behaved JS
      comparator must be. */
  ghost predicate TotalPreorder<T(!new)>(le: (T, T) -> bool) {
    && (forall a, b :: le(a, b) || le(b, a))
    && (forall a, b, c :: le(a, b) && le(b, c) ==> le(a, c))
  }

  /** Every element may precede every later one. */
  predicate SortedBy<T>(s: seq<T>, le: (T, T) -> bool) {
    forall i, j :: 0 <= i < j < |s| ==> le(s[i], s[j])
  }

  /** The elements the comparator cannot tell apart from `x`: those it
      puts neither before nor after `x`. */
  function SameKey<T>(le: (T, T) -> bool, x: T): T -> bool {
    y => le(x, y) && le(y, x)
  }

  /** Places `x` before the first element it may precede, so `x` lands
      ahead of every element with the same key. */
  function Insert<T(!new)>(x: T, s: seq<T>, le: (T, T) -> bool): (r: seq<T>)
    requires TotalPreorder(le)
    requires SortedBy(s, le)
    ensures SortedBy(r, le)
    ensures multiset(r) == multiset(s) + multiset{x}
    ensures |r| == |s| + 1
    ensures forall e :: Seqs.Filter(r, SameKey(le, e)) == Seqs.Filter([x] + s, SameKey(le, e))
    decreases |s|
  {
    if |s| == 0 then [x]
    else if le(x, s[0]) then
      assert forall j :: 0 < j < |s| ==> le(x, s[j]);
      [x] + s
    else
      var rest := Insert(x, s[1..], le);
      InsertBehindHead(x, s, le, rest);
      InsertBehindHeadStable(x, s, le, rest);
      [s[0]] + rest
  }

  /** When `x` goes after the head, the head and `x` have different keys,
      so moving `x` behind the head keeps every key's elements in order. */
  lemma InsertBehindHeadStable<T(!new)>(x: T, s: seq<T>, le: (T, T) -> bool, rest: seq<T>)
    requires TotalPreorder(le)
    requires |s| > 0 && !le(x, s[0])
    requires forall e :: Seqs.Filter(rest, SameKey(le, e)) == Seqs.Filter([x] + s[1..], SameKey(le, e))
    ensures forall e :: Seqs.Filter([s[0]] + rest, SameKey(le, e)) == Seqs.Filter([x] + s, SameKey(le, e))
  {
    assert s == [s[0]] + s[1..];
    forall e ensures Seqs.Filter([s[0]] + rest, SameKey(le, e)) == Seqs.Filter([x] + s, SameKey(le, e)) {
      var p := SameKey(le, e);
      Seqs.FilterCons(s[0], rest, p);
      Seqs.FilterCons(x, s[1..], p);
      Seqs.FilterCons(x, s, p);
      Seqs.FilterCons(s[0], s[1..], p);
      Seqs.FilterCons(s[0], [x] + s[1..], p);
    }
  }

  /** When `x` goes after the head, the head followed by `x` inserted into
      the tail is sorted and holds the same elements. */
  lemma InsertBehindHead<T(!new)>(x: T, s: seq<T>, le: (T, T) -> bool, rest: seq<T>)
    requires TotalPreorder(le)
    requires SortedBy(s, le) && |s| > 0 && !le(x, s[0])
    requires SortedBy(rest, le) && multiset(rest) == multiset(s[1..]) + multiset{x}
    ensures SortedBy([s[0]] + rest, le)
    ensures multiset([s[0]] + rest) == multiset(s) + multiset{x}
  {
    assert s == [s[0]] + s[1..];
    assert le(s[0], x);
    assert forall y :: y in multiset(rest) ==> y == x || y in s[1..];
    forall j | 0 <= j < |rest| ensures le(s[0], rest[j]) {
      assert rest[j] in multiset(rest);
    }
  }

  /** The stable sort of `s` under `le`: sorted, a permutation of `s`,
      and elements with the same key keep their relative order. */
  function SortBy<T(!new)>(s: seq<T>, le: (T, T) -> bool): (r: seq<T>)
    requires TotalPreorder(le)
    ensures SortedBy(r, le)
    ensures multiset(r) == multiset(s)
    ensures |r| == |s|
    ensures forall e :: Seqs.Filter(r, SameKey(le, e)) == Seqs.Filter(s, SameKey(le, e))
    decreases |s|
  {
    if |s| == 0 then []
    else
      assert s == [s[0]] + s[1..];
      var sorted := SortBy(s[1..], le);
      var r := Insert(s[0], sorted, le);
      InsertSortedTailStable(s, sorted, r, le);
      r
  }

  /** Inserting the head into the stably sorted tail sorts the whole
      sequence stably. */
  lemma InsertSortedTailStable<T(!new)>(s: seq<T>, sorted: seq<T>, r: seq<T>, le: (T, T) -> bool)
    requires |s| > 0
    requires forall e :: Seqs.Filter(sorted, SameKey(le, e)) == Seqs.Filter(s[1..], SameKey(le, e))
    requires forall e :: Seqs.Filter(r, SameKey(le, e)) == Seqs.Filter([s[0]] + sorted, SameKey(le, e))
    ensures forall e :: Seqs.Filter(r, SameKey(le, e)) == Seqs.Filter(s, SameKey(le, e))
  {
    assert s == [s[0]] + s[1..];
    forall e ensures Seqs.Filter(r, SameKey(le, e)) == Seqs.Filter(s, SameKey(le, e)) {
      Seqs.FilterCons(s[0], sorted, SameKey(le, e));
      Seqs.FilterCons(s[0], s[1..], SameKey(le, e));
    }
  }

  /** In a sorted sequence, the head may precede every element. */
  lemma HeadPrecedesAll<T(!new)>(s: seq<T>, le: (T, T) -> bool, x: T)
    requires SortedBy(s, le) && |s| > 0
    requires TotalPreorder(le)
    requires x in s
    ensures le(s[0], x)
  {
    var k :| 0 <= k < |s| && s[k] == x;
    if k > 0 {
      assert le(s[0], s[k]);
    }
  }

  /** In a sorted sequence, the first element satisfying `p` may
      precede every element satisfying `p`. */
  lemma FirstSatisfyingLeast<T(!new)>(s: seq<T>, le: (T, T) -> bool, p: T -> bool, i: int)
    requires TotalPreorder(le) && SortedBy(s, le)
    requires 0 <= i < |s| && p(s[i])
    requires forall j :: 0 <= j < i ==> !p(s[j])
    ensures forall x :: x in s && p(x) ==> le(s[i], x)
  {
    forall x | x in s && p(x) ensures le(s[i], x) {
      var k :| 0 <= k < |s| && s[k] == x;
      if k != i {
        assert i < k;
      }
    }
  }

  /** `find` on a sorted sequence returns an element satisfying `p`
      that may precede every other such element; it finds nothing only
      when no element satisfies `p`. */
  lemma FindLeast<T(!new)>(s: seq<T>, le: (T, T) -> bool, p: T -> bool)
    requires TotalPreorder(le) && SortedBy(s, le)
    ensures Seqs.Find(s, p).None? ==> forall x :: x in s ==> !p(x)
    ensures Seqs.Find(s, p).Some? ==>
      && Seqs.Find(s, p).value in s && p(Seqs.Find(s, p).value)
      && forall x :: x in s && p(x) ==> le(Seqs.Find(s, p).value, x)
  {
    var r := Seqs.Find(s, p);
    if r.Some? {
      var i :| 0 <= i < |s| && s[i] == r.value && p(s[i]) && forall j :: 0 <= j < i ==> !p(s[j]);
      FirstSatisfyingLeast(s, le, p, i);
    } else {
      forall x | x in s ensures !p(x) {
        var k :| 0 <= k < |s| && s[k] == x;
      }
    }
  }

  /** Filtering keeps a sequence sorted. */
  lemma SortedFilter<T(!new)>(s: seq<T>, le: (T, T) -> bool, p: T -> bool)
    requires SortedBy(s, le)
    ensures SortedBy(Seqs.Filter(s, p), le)
  {
    SortedSubsequence(Seqs.Filter(s, p), s, le);
  }

  /** A subsequence of a sorted sequence is sorted. */
  lemma {:induction false} SortedSubsequence<T>(a: seq<T>, b: seq<T>, le: (T, T) -> bool)
    requires SortedBy(b, le)
    requires Seqs.IsSubsequence(a, b)
    ensures SortedBy(a, le)
    decreases |b|
  {
    if |b| == 0 {
    } else if |a| > 0 && a[0] == b[0] && Seqs.IsSubsequence(a[1..], b[1..]) {
      SortedSubsequence(a[1..], b[1..], le);
      SubsequenceMembers(a[1..], b[1..]);
      forall i, j | 0 <= i < j < |a| ensures le(a[i], a[j]) {
        if i == 0 {
          assert a[j] == a[1..][j - 1];
          assert a[j] in a[1..];
          assert a[j] in b[1..];
          var k :| 0 <= k < |b[1..]| && b[1..][k] == a[j];
          assert b[k + 1] == a[j];
        } else {
          assert a[i] == a[1..][i - 1] && a[j] == a[1..][j - 1];
        }
      }
    } else {
      SortedSubsequence(a, b[1..], le);
    }
  }

  /** Every element of a subsequence is an element of the sequence. */
  lemma {:induction false} SubsequenceMembers<T>(a: seq<T>, b: seq<T>)
    requires Seqs.IsSubsequence(a, b)
    ensures forall x :: x in a ==> x in b
    decreases |b|
  {
    if |b| == 0 {
    } else if |a| > 0 && a[0] == b[0] && Seqs.IsSubsequence(a[1..], b[1..]) {
      SubsequenceMembers(a[1..], b[1..]);
      assert a == [a[0]] + a[1..];
    } else {
      SubsequenceMembers(a, b[1..]);
    }
  }
}
