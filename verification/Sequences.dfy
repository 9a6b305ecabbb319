/** Sequence vocabulary shared by the models: filtering, stable sorting and sums. */
module Sequences {

  datatype Option<+T> = None | Some(value: T)

  datatype Result<+R, +E> = Ok(value: R) | Err(error: E)

  function Filter<T>(s: seq<T>, p: T -> bool): seq<T> {
    if s == [] then []
    else if p(s[0]) then [s[0]] + Filter(s[1..], p)
    else Filter(s[1..], p)
  }

  lemma {:induction false} FilterMembers<T>(s: seq<T>, p: T -> bool)
    ensures forall x :: x in Filter(s, p) <==> x in s && p(x)
    ensures |Filter(s, p)| <= |s|
  {
    if s != [] { FilterMembers(s[1..], p); }
  }

  lemma {:induction false} FilterAppend<T>(a: seq<T>, b: seq<T>, p: T -> bool)
    ensures Filter(a + b, p) == Filter(a, p) + Filter(b, p)
  {
    if a == [] {
      assert a + b == b;
    } else {
      FilterAppend(a[1..], b, p);
      assert (a + b)[0] == a[0] && (a + b)[1..] == a[1..] + b;
      assert [a[0]] + (Filter(a[1..], p) + Filter(b, p)) == ([a[0]] + Filter(a[1..], p)) + Filter(b, p);
    }
  }

  lemma {:induction false} FilterTwice<T>(s: seq<T>, p: T -> bool, q: T -> bool)
    requires forall x :: x in s && q(x) ==> p(x)
    ensures Filter(Filter(s, p), q) == Filter(s, q)
  {
    if s != [] {
      FilterTwice(s[1..], p, q);
      var f := Filter(s[1..], p);
      assert ([s[0]] + f)[1..] == f;
    }
  }

  lemma {:induction false} FilterNone<T>(s: seq<T>, p: T -> bool)
    requires forall x :: x in s ==> !p(x)
    ensures Filter(s, p) == []
  {
    if s != [] { FilterNone(s[1..], p); }
  }

  lemma {:induction false} FilterAll<T>(s: seq<T>, p: T -> bool)
    requires forall x :: x in s ==> p(x)
    ensures Filter(s, p) == s
  {
    if s != [] {
      assert s[0] in s;
      FilterAll(s[1..], p);
    }
  }

  lemma {:induction false} FilterEqual<T>(s: seq<T>, p: T -> bool, q: T -> bool)
    requires forall x :: x in s ==> p(x) == q(x)
    ensures Filter(s, p) == Filter(s, q)
  {
    if s != [] { FilterEqual(s[1..], p, q); }
  }

  /** How often an element occurs does not change under a filter that keeps it. */
  lemma {:induction false} FilterMultiplicity<T>(s: seq<T>, p: T -> bool, x: T)
    ensures multiset(Filter(s, p))[x] == if p(x) then multiset(s)[x] else 0
  {
    if s != [] {
      FilterMultiplicity(s[1..], p, x);
      assert s == [s[0]] + s[1..];
    }
  }

  lemma LastSplit<T>(s: seq<T>)
    requires s != []
    ensures s == s[..|s| - 1] + [s[|s| - 1]]
  {
  }

  lemma PlusAssociates<T>(a: seq<T>, b: seq<T>, c: seq<T>)
    ensures (a + b) + c == a + (b + c)
  {
  }

  // ----- stable sorting

  ghost predicate TotalPreorder<T(!new)>(leq: (T, T) -> bool) {
    && (forall x, y :: leq(x, y) || leq(y, x))
    && (forall x, y, z :: leq(x, y) && leq(y, z) ==> leq(x, z))
  }

  ghost predicate SortedBy<T>(s: seq<T>, leq: (T, T) -> bool) {
    forall i, j :: 0 <= i < j < |s| ==> leq(s[i], s[j])
  }

  function InsertBy<T>(x: T, s: seq<T>, leq: (T, T) -> bool): seq<T> {
    if s == [] then [x]
    else if leq(x, s[0]) then [x] + s
    else [s[0]] + InsertBy(x, s[1..], leq)
  }

  /** Insertion from the right: equal elements keep their order. */
  function SortBy<T>(s: seq<T>, leq: (T, T) -> bool): seq<T> {
    if s == [] then [] else InsertBy(s[0], SortBy(s[1..], leq), leq)
  }

  lemma {:induction false} InsertPermutes<T>(x: T, s: seq<T>, leq: (T, T) -> bool)
    ensures multiset(InsertBy(x, s, leq)) == multiset(s) + multiset{x}
    ensures |InsertBy(x, s, leq)| == |s| + 1
  {
    if s != [] {
      assert s == [s[0]] + s[1..];
      if !leq(x, s[0]) { InsertPermutes(x, s[1..], leq); }
    }
  }

  lemma {:induction false} SortPermutes<T>(s: seq<T>, leq: (T, T) -> bool)
    ensures multiset(SortBy(s, leq)) == multiset(s)
    ensures |SortBy(s, leq)| == |s|
  {
    if s != [] {
      assert s == [s[0]] + s[1..];
      SortPermutes(s[1..], leq);
      InsertPermutes(s[0], SortBy(s[1..], leq), leq);
    }
  }

  lemma SortMembers<T>(s: seq<T>, leq: (T, T) -> bool)
    ensures forall x :: x in SortBy(s, leq) <==> x in s
    ensures |SortBy(s, leq)| == |s|
  {
    SortPermutes(s, leq);
    forall x ensures x in SortBy(s, leq) <==> x in s {
      assert x in multiset(SortBy(s, leq)) <==> x in multiset(s);
    }
  }

  lemma {:induction false} InsertKeepsSorted<T(!new)>(x: T, s: seq<T>, leq: (T, T) -> bool)
    requires TotalPreorder(leq) && SortedBy(s, leq)
    ensures SortedBy(InsertBy(x, s, leq), leq)
  {
    if s != [] && !leq(x, s[0]) {
      var r := InsertBy(x, s[1..], leq);
      InsertKeepsSorted(x, s[1..], leq);
      InsertPermutes(x, s[1..], leq);
      forall y | y in r ensures leq(s[0], y) {
        assert y in multiset(r);
        assert y == x || y in s[1..];
      }
    }
  }

  lemma {:induction false} SortByIsSorted<T(!new)>(s: seq<T>, leq: (T, T) -> bool)
    requires TotalPreorder(leq)
    ensures SortedBy(SortBy(s, leq), leq)
  {
    if s != [] {
      SortByIsSorted(s[1..], leq);
      InsertKeepsSorted(s[0], SortBy(s[1..], leq), leq);
    }
  }

  lemma FilterCons<T>(x: T, s: seq<T>, p: T -> bool)
    ensures Filter([x] + s, p) == if p(x) then [x] + Filter(s, p) else Filter(s, p)
  {
    assert ([x] + s)[1..] == s;
  }

  lemma InsertFirst<T>(x: T, s: seq<T>, leq: (T, T) -> bool)
    requires forall y :: y in s ==> leq(x, y)
    ensures InsertBy(x, s, leq) == [x] + s
  {
  }

  lemma {:induction false} FilterInsert<T(!new)>(x: T, s: seq<T>, leq: (T, T) -> bool, p: T -> bool)
    requires TotalPreorder(leq) && SortedBy(s, leq)
    ensures Filter(InsertBy(x, s, leq), p) == if p(x) then InsertBy(x, Filter(s, p), leq) else Filter(s, p)
  {
    if s == [] {
    } else if leq(x, s[0]) {
      FilterCons(x, s, p);
      forall y | y in s ensures leq(x, y) { assert leq(s[0], y); }
      FilterMembers(s, p);
      InsertFirst(x, Filter(s, p), leq);
    } else {
      var t := s[1..];
      FilterInsert(x, t, leq, p);
      FilterCons(s[0], InsertBy(x, t, leq), p);
      if p(s[0]) && p(x) {
        var f := Filter(s, p);
        assert f[0] == s[0] && f[1..] == Filter(t, p);
      }
    }
  }

  /** A stable sort commutes with every filter. */
  lemma {:induction false} FilterSort<T(!new)>(s: seq<T>, leq: (T, T) -> bool, p: T -> bool)
    requires TotalPreorder(leq)
    ensures Filter(SortBy(s, leq), p) == SortBy(Filter(s, p), leq)
  {
    if s != [] {
      FilterSort(s[1..], leq, p);
      SortByIsSorted(s[1..], leq);
      FilterInsert(s[0], SortBy(s[1..], leq), leq, p);
      if p(s[0]) {
        var f := Filter(s, p);
        assert f[0] == s[0] && f[1..] == Filter(s[1..], p);
      }
    }
  }

  // ----- sums

  function Sum<T>(s: seq<T>, f: T -> int): int {
    if s == [] then 0 else f(s[0]) + Sum(s[1..], f)
  }

  lemma {:induction false} SumAppend<T>(a: seq<T>, b: seq<T>, f: T -> int)
    ensures Sum(a + b, f) == Sum(a, f) + Sum(b, f)
  {
    if a == [] {
      assert a + b == b;
    } else {
      SumAppend(a[1..], b, f);
      assert (a + b)[1..] == a[1..] + b;
    }
  }

  function RealSum<T>(s: seq<T>, f: T -> real): real {
    if s == [] then 0.0 else f(s[0]) + RealSum(s[1..], f)
  }

  lemma {:induction false} RealSumAppend<T>(a: seq<T>, b: seq<T>, f: T -> real)
    ensures RealSum(a + b, f) == RealSum(a, f) + RealSum(b, f)
  {
    if a == [] {
      assert a + b == b;
    } else {
      RealSumAppend(a[1..], b, f);
      assert (a + b)[1..] == a[1..] + b;
    }
  }

  lemma {:induction false} InsertSum<T>(x: T, s: seq<T>, leq: (T, T) -> bool, f: T -> int, g: T -> real)
    ensures Sum(InsertBy(x, s, leq), f) == f(x) + Sum(s, f)
    ensures RealSum(InsertBy(x, s, leq), g) == g(x) + RealSum(s, g)
  {
    if s == [] {
    } else if leq(x, s[0]) {
      assert ([x] + s)[1..] == s;
    } else {
      InsertSum(x, s[1..], leq, f, g);
      var r := InsertBy(x, s[1..], leq);
      assert ([s[0]] + r)[1..] == r;
    }
  }

  /** Sorting changes no sum. */
  lemma {:induction false} SortSum<T>(s: seq<T>, leq: (T, T) -> bool, f: T -> int, g: T -> real)
    ensures Sum(SortBy(s, leq), f) == Sum(s, f)
    ensures RealSum(SortBy(s, leq), g) == RealSum(s, g)
  {
    if s != [] {
      SortSum(s[1..], leq, f, g);
      InsertSum(s[0], SortBy(s[1..], leq), leq, f, g);
    }
  }

  /** A sum in which some elements count and the others count zero is the sum over those that count. */
  lemma {:induction false} SumOfSelected<T>(s: seq<T>, p: T -> bool, f: T -> int, g: T -> int)
    requires forall x :: x in s ==> f(x) == if p(x) then g(x) else 0
    ensures Sum(s, f) == Sum(Filter(s, p), g)
  {
    if s != [] {
      SumOfSelected(s[1..], p, f, g);
      var r := Filter(s[1..], p);
      assert ([s[0]] + r)[1..] == r;
    }
  }

  /** One more element counts once, if it is selected. */
  lemma SelectedSnoc<T>(s: seq<T>, x: T, p: T -> bool, f: T -> int)
    ensures |Filter(s + [x], p)| == |Filter(s, p)| + if p(x) then 1 else 0
    ensures Sum(Filter(s + [x], p), f) == Sum(Filter(s, p), f) + if p(x) then f(x) else 0
  {
    FilterAppend(s, [x], p);
    assert [x][1..] == [];
    SumAppend(Filter(s, p), Filter([x], p), f);
  }

  lemma {:induction false} SumOfOnes<T>(s: seq<T>, one: T -> int)
    requires forall x :: x in s ==> one(x) == 1
    ensures Sum(s, one) == |s|
  {
    if s != [] { SumOfOnes(s[1..], one); }
  }

  lemma {:induction false} SumEqual<T>(s: seq<T>, f: T -> int, g: T -> int)
    requires forall x :: x in s ==> f(x) == g(x)
    ensures Sum(s, f) == Sum(s, g)
  {
    if s != [] { SumEqual(s[1..], f, g); }
  }

  lemma {:induction false} RealSumEqual<T>(s: seq<T>, f: T -> real, g: T -> real)
    requires forall x :: x in s ==> f(x) == g(x)
    ensures RealSum(s, f) == RealSum(s, g)
  {
    if s != [] { RealSumEqual(s[1..], f, g); }
  }

  // ----- concatenation

  function Concat<T>(ss: seq<seq<T>>): seq<T> {
    if ss == [] then [] else ss[0] + Concat(ss[1..])
  }

  lemma {:induction false} ConcatAppend<T>(a: seq<seq<T>>, b: seq<seq<T>>)
    ensures Concat(a + b) == Concat(a) + Concat(b)
  {
    if a == [] {
      assert a + b == b;
    } else {
      ConcatAppend(a[1..], b);
      assert (a + b)[0] == a[0] && (a + b)[1..] == a[1..] + b;
      PlusAssociates(a[0], Concat(a[1..]), Concat(b));
    }
  }

  lemma ConcatSnoc<T>(a: seq<seq<T>>, x: seq<T>)
    ensures Concat(a + [x]) == Concat(a) + x
  {
    ConcatAppend(a, [x]);
    assert Concat([x]) == x + Concat([]);
  }

  // ----- sets of integers in ascending order

  lemma EmptyWhenMemberless<T>(s: set<T>)
    requires forall y :: y !in s
    ensures s == {}
  {
  }

  lemma Member<T>(s: set<T>) returns (x: T)
    requires s != {}
    ensures x in s
  {
    if forall y :: y !in s {
      EmptyWhenMemberless(s);
      assert false;
    }
    x :| x in s;
  }

  ghost predicate IsLeast(s: set<int>, m: int) {
    m in s && forall y :: y in s ==> m <= y
  }

  lemma {:induction false} LeastExists(s: set<int>)
    requires s != {}
    ensures exists m :: IsLeast(s, m)
  {
    var x := Member(s);
    if s == {x} {
      assert IsLeast(s, x);
    } else {
      assert s == {x} + (s - {x});
      LeastExists(s - {x});
      var m :| IsLeast(s - {x}, m);
      assert IsLeast(s, if x < m then x else m);
    }
  }

  function Least(s: set<int>): (m: int)
    requires s != {}
    ensures m in s && forall y :: y in s ==> m <= y
  {
    LeastExists(s);
    assert exists m :: m in s && forall y :: y in s ==> m <= y by {
      var k :| IsLeast(s, k);
      assert k in s && forall y :: y in s ==> k <= y;
    }
    var m :| m in s && forall y :: y in s ==> m <= y;
    m
  }

  ghost predicate Ascending(s: seq<int>) {
    forall i, j :: 0 <= i < j < |s| ==> s[i] < s[j]
  }

  function AscendingOf(s: set<int>): (r: seq<int>)
    ensures Ascending(r)
    ensures forall x :: x in r <==> x in s
  {
    if s == {} then []
    else
      var rest := AscendingOf(s - {Least(s)});
      assert forall i :: 0 <= i < |rest| ==> rest[i] in rest;
      [Least(s)] + rest
  }

  lemma FirstIsMember<T>(s: seq<T>)
    requires s != []
    ensures s[0] in s
  {
  }

  lemma {:induction false} AscendingUnique(a: seq<int>, b: seq<int>)
    requires Ascending(a) && Ascending(b)
    requires forall x :: x in a <==> x in b
    ensures a == b
  {
    if a == [] {
      if b != [] {
        FirstIsMember(b);
        assert false;
      }
    } else {
      assert a[0] in b && b != [] && b[0] in a;
      assert a[0] == b[0];
      forall x ensures x in a[1..] <==> x in b[1..] {
        assert x in a[1..] <==> x in a && x != a[0];
        assert x in b[1..] <==> x in b && x != b[0];
      }
      AscendingUnique(a[1..], b[1..]);
      assert a == [a[0]] + a[1..] && b == [b[0]] + b[1..];
    }
  }

  // ----- lexicographic order on strings

  predicate StringLeq(a: string, b: string) {
    a == [] || (b != [] && (a[0] < b[0] || (a[0] == b[0] && StringLeq(a[1..], b[1..]))))
  }

  lemma {:induction false} StringLeqTotal(a: string, b: string)
    ensures StringLeq(a, b) || StringLeq(b, a)
    ensures StringLeq(a, b) && StringLeq(b, a) ==> a == b
  {
    if a != [] && b != [] {
      StringLeqTotal(a[1..], b[1..]);
      assert a == [a[0]] + a[1..] && b == [b[0]] + b[1..];
    }
  }

  /** a comes before b in a dictionary: it is a proper prefix, or smaller at the first difference. */
  ghost predicate Precedes(a: string, b: string) {
    exists k :: 0 <= k <= |a| && k < |b| && PrecedesAt(a, b, k)
  }

  ghost predicate PrecedesAt(a: string, b: string, k: nat)
    requires k <= |a| && k < |b|
  {
    a[..k] == b[..k] && (k == |a| || a[k] < b[k])
  }

  lemma {:induction false} StringLeqIsDictionary(a: string, b: string)
    ensures StringLeq(a, b) <==> a == b || Precedes(a, b)
  {
    if a == [] {
      if b != [] { assert PrecedesAt(a, b, 0); }
    } else if b != [] {
      StringLeqIsDictionary(a[1..], b[1..]);
      if k :| 0 <= k <= |a| && k < |b| && PrecedesAt(a, b, k) {
        if k > 0 {
          assert a[..k][0] == a[0] && b[..k][0] == b[0];
          assert a[1..][..k - 1] == a[..k][1..] && b[1..][..k - 1] == b[..k][1..];
          assert PrecedesAt(a[1..], b[1..], k - 1);
        }
      }
      if a[0] < b[0] { assert PrecedesAt(a, b, 0); }
      if a[0] == b[0] {
        assert a == [a[0]] + a[1..] && b == [b[0]] + b[1..];
        if k :| 0 <= k <= |a[1..]| && k < |b[1..]| && PrecedesAt(a[1..], b[1..], k) {
          assert a[..k + 1] == [a[0]] + a[1..][..k] && b[..k + 1] == [b[0]] + b[1..][..k];
          assert PrecedesAt(a, b, k + 1);
        }
      }
    }
  }

  lemma {:induction false} StringLeqTransitive(a: string, b: string, c: string)
    requires StringLeq(a, b) && StringLeq(b, c)
    ensures StringLeq(a, c)
  {
    if a != [] && a[0] == b[0] == c[0] { StringLeqTransitive(a[1..], b[1..], c[1..]); }
  }

  ghost predicate JoinsParts<T(!new), R(!new)>(part: T -> seq<R>, whole: seq<T> -> seq<R>) {
    whole([]) == [] && forall xs: seq<T> :: xs != [] ==> whole(xs) == part(xs[0]) + whole(xs[1..])
  }

  /** A member of a whole that is put together part by part comes from one of the parts. */
  lemma {:induction false} PartOfMember<T(!new), R(!new)>(xs: seq<T>, part: T -> seq<R>, whole: seq<T> -> seq<R>, r: R) returns (k: nat)
    requires JoinsParts(part, whole) && r in whole(xs)
    ensures k < |xs| && r in part(xs[k])
  {
    k := 0;
    if r !in part(xs[0]) {
      var j := PartOfMember(xs[1..], part, whole, r);
      k := j + 1;
    }
  }
}
