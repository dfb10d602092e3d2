/** Filtering, summing and stable sorting of sequences, shared by the models of
    the individual programs. */
module Sequences {

  function Filter<T>(s: seq<T>, p: T -> bool): (r: seq<T>)
  {
    if s == [] then []
    else if p(s[0]) then [s[0]] + Filter(s[1..], p)
    else Filter(s[1..], p)
  }

  lemma {:induction false} FilterConcat<T>(a: seq<T>, b: seq<T>, p: T -> bool)
    ensures Filter(a + b, p) == Filter(a, p) + Filter(b, p)
  {
    if a == [] {
      assert a + b == b;
    } else {
      FilterConcat(a[1..], b, p);
      assert (a + b)[1..] == a[1..] + b;
    }
  }

  lemma {:induction false} FilterMember<T>(s: seq<T>, p: T -> bool, x: T)
    ensures x in Filter(s, p) <==> x in s && p(x)
  {
    if s != [] {
      FilterMember(s[1..], p, x);
      assert s == [s[0]] + s[1..];
    }
  }

  lemma {:induction false} FilterAgree<T>(s: seq<T>, p: T -> bool, q: T -> bool)
    requires forall x :: x in s ==> p(x) == q(x)
    ensures Filter(s, p) == Filter(s, q)
  {
    if s != [] {
      FilterAgree(s[1..], p, q);
    }
  }

  lemma {:induction false} FilterAll<T>(s: seq<T>, p: T -> bool)
    requires forall i :: 0 <= i < |s| ==> p(s[i])
    ensures Filter(s, p) == s
  {
    if s != [] {
      FilterAll(s[1..], p);
    }
  }

  lemma {:induction false} FilterNone<T>(s: seq<T>, p: T -> bool)
    requires forall i :: 0 <= i < |s| ==> !p(s[i])
    ensures Filter(s, p) == []
  {
    if s != [] {
      FilterNone(s[1..], p);
    }
  }

  lemma {:induction false} FilterAtMost<T>(s: seq<T>, p: T -> bool)
    ensures |Filter(s, p)| <= |s|
  {
    if s != [] {
      FilterAtMost(s[1..], p);
    }
  }

  function SumInt(s: seq<int>): int {
    if s == [] then 0 else s[0] + SumInt(s[1..])
  }

  lemma {:induction false} SumIntConcat(a: seq<int>, b: seq<int>)
    ensures SumInt(a + b) == SumInt(a) + SumInt(b)
  {
    if a == [] {
      assert a + b == b;
    } else {
      SumIntConcat(a[1..], b);
      assert (a + b)[1..] == a[1..] + b;
    }
  }

  function SumReal(s: seq<real>): real {
    if s == [] then 0.0 else s[0] + SumReal(s[1..])
  }

  lemma {:induction false} SumNonNegative(s: seq<real>)
    requires forall i :: 0 <= i < |s| ==> 0.0 <= s[i]
    ensures 0.0 <= SumReal(s)
    ensures forall i :: 0 <= i < |s| ==> s[i] <= SumReal(s)
  {
    if s != [] {
      SumNonNegative(s[1..]);
      assert forall i :: 1 <= i < |s| ==> s[i] == s[1..][i - 1];
    }
  }

  function Map<T, U>(f: T -> U, s: seq<T>): (r: seq<U>)
    ensures |r| == |s| && forall i :: 0 <= i < |s| ==> r[i] == f(s[i])
  {
    if s == [] then [] else [f(s[0])] + Map(f, s[1..])
  }

  lemma {:induction false} MapConcat<T, U>(f: T -> U, a: seq<T>, b: seq<T>)
    ensures Map(f, a + b) == Map(f, a) + Map(f, b)
  {
  }

  /* Stable sorting.  The standard library sorts of the source are stable; the
     function below is one stable sort, and StableSortUnique shows that every
     other one returns the same sequence. */

  ghost predicate TotalPreorder<T(!new)>(le: (T, T) -> bool) {
    && (forall x, y :: le(x, y) || le(y, x))
    && (forall x, y, z :: le(x, y) && le(y, z) ==> le(x, z))
  }

  ghost predicate SortedBy<T>(s: seq<T>, le: (T, T) -> bool) {
    forall i, j :: 0 <= i < j < |s| ==> le(s[i], s[j])
  }

  function Insert<T>(x: T, s: seq<T>, le: (T, T) -> bool): (r: seq<T>)
    ensures |r| == |s| + 1
  {
    if s == [] then [x]
    else if le(x, s[0]) then [x] + s
    else [s[0]] + Insert(x, s[1..], le)
  }

  function StableSort<T>(s: seq<T>, le: (T, T) -> bool): (r: seq<T>)
    ensures |r| == |s|
  {
    if s == [] then [] else Insert(s[0], StableSort(s[1..], le), le)
  }

  lemma {:induction false} InsertPermutes<T>(x: T, s: seq<T>, le: (T, T) -> bool)
    ensures multiset(Insert(x, s, le)) == multiset(s) + multiset{x}
  {
    if s != [] && !le(x, s[0]) {
      InsertPermutes(x, s[1..], le);
      assert s == [s[0]] + s[1..];
    }
  }

  lemma {:induction false} StableSortPermutes<T>(s: seq<T>, le: (T, T) -> bool)
    ensures multiset(StableSort(s, le)) == multiset(s)
  {
    if s != [] {
      StableSortPermutes(s[1..], le);
      InsertPermutes(s[0], StableSort(s[1..], le), le);
      assert s == [s[0]] + s[1..];
    }
  }

  lemma {:induction false} InsertMember<T>(x: T, s: seq<T>, le: (T, T) -> bool, y: T)
    ensures y in Insert(x, s, le) <==> y == x || y in s
  {
    if s != [] && !le(x, s[0]) {
      InsertMember(x, s[1..], le, y);
      assert y in s <==> y == s[0] || y in s[1..];
    }
  }

  lemma {:induction false} StableSortMember<T>(s: seq<T>, le: (T, T) -> bool, y: T)
    ensures y in StableSort(s, le) <==> y in s
  {
    if s != [] {
      StableSortMember(s[1..], le, y);
      InsertMember(s[0], StableSort(s[1..], le), le, y);
      assert y in s <==> y == s[0] || y in s[1..];
    }
  }

  lemma {:induction false} InsertSorted<T(!new)>(x: T, s: seq<T>, le: (T, T) -> bool)
    requires TotalPreorder(le) && SortedBy(s, le)
    ensures SortedBy(Insert(x, s, le), le)
  {
    if s != [] && !le(x, s[0]) {
      var t := Insert(x, s[1..], le);
      InsertSorted(x, s[1..], le);
      forall i | 0 <= i < |t| ensures le(s[0], t[i]) {
        InsertMember(x, s[1..], le, t[i]);
      }
    }
  }

  lemma {:induction false} StableSortSorted<T(!new)>(s: seq<T>, le: (T, T) -> bool)
    requires TotalPreorder(le)
    ensures SortedBy(StableSort(s, le), le)
  {
    if s != [] {
      StableSortSorted(s[1..], le);
      InsertSorted(s[0], StableSort(s[1..], le), le);
    }
  }

  lemma {:induction false} FilterCons<T>(x: T, s: seq<T>, p: T -> bool)
    ensures Filter([x] + s, p) == if p(x) then [x] + Filter(s, p) else Filter(s, p)
  {
    assert ([x] + s)[1..] == s;
  }

  lemma {:induction false} InsertFilter<T>(x: T, s: seq<T>, le: (T, T) -> bool, p: T -> bool)
    requires p(x) ==> forall y :: y in Filter(s, p) ==> le(x, y)
    ensures Filter(Insert(x, s, le), p) == if p(x) then [x] + Filter(s, p) else Filter(s, p)
  {
    if s == [] || le(x, s[0]) {
      assert Insert(x, s, le) == [x] + s;
      FilterCons(x, s, p);
    } else {
      var t := s[1..];
      assert p(s[0]) ==> s[0] == Filter(s, p)[0];
      assert p(x) ==> !p(s[0]);
      InsertFilter(x, t, le, p);
      FilterCons(s[0], Insert(x, t, le), p);
    }
  }

  /** A subsequence that is already in order comes out of a stable sort as it
      went in, whatever else is sorted around it. */
  lemma {:induction false} StableSortKeepsSortedPart<T(!new)>(s: seq<T>, le: (T, T) -> bool, p: T -> bool)
    requires SortedBy(Filter(s, p), le)
    ensures Filter(StableSort(s, le), p) == Filter(s, p)
  {
    if s != [] {
      var t, f := s[1..], Filter(s, p);
      assert Filter(t, p) == if p(s[0]) then f[1..] else f;
      StableSortKeepsSortedPart(t, le, p);
      if p(s[0]) {
        forall y | y in Filter(t, p) ensures le(s[0], y) {
          var k :| 0 <= k < |f[1..]| && f[1..][k] == y;
          assert le(f[0], f[k + 1]);
        }
      }
      InsertFilter(s[0], StableSort(t, le), le, p);
    }
  }

  /** The elements that compare equal to x. */
  function Tied<T>(x: T, le: (T, T) -> bool): T -> bool {
    y => le(x, y) && le(y, x)
  }

  /** A result of a stable sort is sorted and keeps the order of tied elements. */
  ghost predicate IsStableSortOf<T(!new)>(t: seq<T>, s: seq<T>, le: (T, T) -> bool) {
    && SortedBy(t, le)
    && forall x :: Filter(t, Tied(x, le)) == Filter(s, Tied(x, le))
  }

  lemma {:induction false} SameClassesSameSequence<T(!new)>(t: seq<T>, u: seq<T>, le: (T, T) -> bool)
    requires TotalPreorder(le) && SortedBy(t, le) && SortedBy(u, le)
    requires forall x :: Filter(t, Tied(x, le)) == Filter(u, Tied(x, le))
    ensures t == u
  {
    if t != [] || u != [] {
      var h := if t != [] then t[0] else u[0];
      assert le(h, h);
      FilterMember(t, Tied(h, le), h);
      FilterMember(u, Tied(h, le), h);
      assert h in t && h in u;
      var x, y := t[0], u[0];
      FilterMember(t, Tied(x, le), x);
      FilterMember(u, Tied(x, le), x);
      FilterMember(t, Tied(y, le), y);
      FilterMember(u, Tied(y, le), y);
      assert le(x, x) && le(y, y);
      assert le(x, y) && le(y, x);
      assert Filter(t, Tied(x, le))[0] == x;
      assert Filter(u, Tied(x, le))[0] == y;
      forall z ensures Filter(t[1..], Tied(z, le)) == Filter(u[1..], Tied(z, le)) {
        var p := Tied(z, le);
        var ft, fu := Filter(t, p), Filter(u, p);
        assert ft == fu;
        assert p(x) ==> ft[1..] == Filter(t[1..], p) && fu[1..] == Filter(u[1..], p);
      }
      SameClassesSameSequence(t[1..], u[1..], le);
    }
  }

  /** Every stable sort returns the sequence StableSort returns. */
  lemma {:induction false} StableSortUnique<T(!new)>(t: seq<T>, s: seq<T>, le: (T, T) -> bool)
    requires TotalPreorder(le)
    ensures IsStableSortOf(t, s, le) <==> t == StableSort(s, le)
  {
    var u := StableSort(s, le);
    StableSortSorted(s, le);
    forall x ensures Filter(u, Tied(x, le)) == Filter(s, Tied(x, le)) {
      var f := Filter(s, Tied(x, le));
      forall i, j | 0 <= i < j < |f| ensures le(f[i], f[j]) {
        FilterMember(s, Tied(x, le), f[i]);
        FilterMember(s, Tied(x, le), f[j]);
      }
      StableSortKeepsSortedPart(s, le, Tied(x, le));
    }
    if IsStableSortOf(t, s, le) {
      SameClassesSameSequence(t, u, le);
    }
  }

  /** Sorting any arrangement of strictly ordered elements gives that order. */
  lemma {:induction false} StableSortOfArrangement<T(!new)>(s: seq<T>, t: seq<T>, le: (T, T) -> bool)
    requires TotalPreorder(le) && multiset(s) == multiset(t)
    requires forall i, j :: 0 <= i < j < |t| ==> le(t[i], t[j]) && !le(t[j], t[i])
    ensures StableSort(s, le) == t
  {
    StableSortSorted(s, le);
    StableSortPermutes(s, le);
    SortedArrangement(StableSort(s, le), t, le);
  }

  lemma {:induction false} SameHead<T(!new)>(u: seq<T>, t: seq<T>, le: (T, T) -> bool)
    requires TotalPreorder(le) && SortedBy(u, le) && multiset(u) == multiset(t) && u != [] && t != []
    requires forall i, j :: 0 <= i < j < |t| ==> le(t[i], t[j]) && !le(t[j], t[i])
    ensures u[0] == t[0]
  {
    assert t[0] in multiset(u) && u[0] in multiset(t);
    var i :| 0 <= i < |u| && u[i] == t[0];
    var j :| 0 <= j < |t| && t[j] == u[0];
    assert le(u[0], u[0]) && le(u[0], u[i]);
  }

  lemma {:induction false} TailMultiset<T>(s: seq<T>)
    requires s != []
    ensures multiset(s[1..]) == multiset(s) - multiset{s[0]}
  {
    assert s == [s[0]] + s[1..];
  }

  lemma {:induction false} SortedArrangement<T(!new)>(u: seq<T>, t: seq<T>, le: (T, T) -> bool)
    requires TotalPreorder(le) && SortedBy(u, le) && multiset(u) == multiset(t)
    requires forall i, j :: 0 <= i < j < |t| ==> le(t[i], t[j]) && !le(t[j], t[i])
    ensures u == t
  {
    assert |multiset(u)| == |u| && |multiset(t)| == |t|;
    if t != [] {
      SameHead(u, t, le);
      TailMultiset(u);
      TailMultiset(t);
      SortedArrangement(u[1..], t[1..], le);
    }
  }

  lemma {:induction false} SumRealInsert<T>(x: T, s: seq<T>, le: (T, T) -> bool, f: T -> real)
    ensures SumReal(Map(f, Insert(x, s, le))) == f(x) + SumReal(Map(f, s))
  {
    if s != [] && !le(x, s[0]) {
      SumRealInsert(x, s[1..], le, f);
      assert Insert(x, s, le)[1..] == Insert(x, s[1..], le);
    } else {
      assert Insert(x, s, le)[1..] == s;
    }
  }

  lemma {:induction false} SumRealSort<T>(s: seq<T>, le: (T, T) -> bool, f: T -> real)
    ensures SumReal(Map(f, StableSort(s, le))) == SumReal(Map(f, s))
  {
    if s != [] {
      SumRealSort(s[1..], le, f);
      SumRealInsert(s[0], StableSort(s[1..], le), le, f);
    }
  }

  lemma {:induction false} SumIntInsert<T>(x: T, s: seq<T>, le: (T, T) -> bool, f: T -> int)
    ensures SumInt(Map(f, Insert(x, s, le))) == f(x) + SumInt(Map(f, s))
  {
    if s != [] && !le(x, s[0]) {
      SumIntInsert(x, s[1..], le, f);
      assert Insert(x, s, le)[1..] == Insert(x, s[1..], le);
    } else {
      assert Insert(x, s, le)[1..] == s;
    }
  }

  lemma {:induction false} SumIntSort<T>(s: seq<T>, le: (T, T) -> bool, f: T -> int)
    ensures SumInt(Map(f, StableSort(s, le))) == SumInt(Map(f, s))
  {
    if s != [] {
      SumIntSort(s[1..], le, f);
      SumIntInsert(s[0], StableSort(s[1..], le), le, f);
    }
  }
}
