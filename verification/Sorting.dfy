/** Sorting by a total preorder: the result is determined wherever the order tells elements apart. */
module Sorting {

  ghost predicate TotalPreorder<T(!new)>(le: (T, T) -> bool) {
    && (forall x, y :: le(x, y) || le(y, x))
    && (forall x, y, z :: le(x, y) && le(y, z) ==> le(x, z))
  }

  ghost predicate Sorted<T(!new)>(s: seq<T>, le: (T, T) -> bool) {
    forall i, j | 0 <= i < j < |s| :: le(s[i], s[j])
  }

  /** Elements the order cannot tell apart are equal. */
  ghost predicate Separates<T(!new)>(s: seq<T>, le: (T, T) -> bool) {
    forall x, y | x in s && y in s && le(x, y) && le(y, x) :: x == y
  }

  function Insert<T>(x: T, s: seq<T>, le: (T, T) -> bool): seq<T> {
    if s == [] then [x]
    else if le(x, s[0]) then [x] + s
    else [s[0]] + Insert(x, s[1..], le)
  }

  function Sort<T>(s: seq<T>, le: (T, T) -> bool): seq<T> {
    if s == [] then [] else Insert(s[0], Sort(s[1..], le), le)
  }

  lemma {:induction false} InsertMembers<T(!new)>(x: T, s: seq<T>, le: (T, T) -> bool)
    ensures multiset(Insert(x, s, le)) == multiset(s) + multiset{x}
    ensures forall y :: y in Insert(x, s, le) <==> y == x || y in s
  {
    if s != [] && !le(x, s[0]) {
      InsertMembers(x, s[1..], le);
      assert s == [s[0]] + s[1..];
    }
  }

  lemma SortedCons<T(!new)>(x: T, s: seq<T>, le: (T, T) -> bool)
    requires Sorted(s, le) && forall y | y in s :: le(x, y)
    ensures Sorted([x] + s, le)
  {
    var t := [x] + s;
    forall i, j | 0 <= i < j < |t| ensures le(t[i], t[j]) {
      assert t[j] == s[j - 1];
      assert i > 0 ==> t[i] == s[i - 1];
    }
  }

  lemma {:induction false} InsertSorted<T(!new)>(x: T, s: seq<T>, le: (T, T) -> bool)
    requires TotalPreorder(le) && Sorted(s, le)
    ensures Sorted(Insert(x, s, le), le)
  {
    if s != [] {
      if le(x, s[0]) {
        assert forall j | 0 <= j < |s| :: le(s[0], s[0]) && le(s[0], s[j]);
        SortedCons(x, s, le);
      } else {
        InsertSorted(x, s[1..], le);
        InsertMembers(x, s[1..], le);
        SortedCons(s[0], Insert(x, s[1..], le), le);
      }
    }
  }

  lemma {:induction false} SortSorts<T(!new)>(s: seq<T>, le: (T, T) -> bool)
    requires TotalPreorder(le)
    ensures Sorted(Sort(s, le), le)
    ensures multiset(Sort(s, le)) == multiset(s)
    ensures |Sort(s, le)| == |s|
  {
    if s != [] {
      SortSorts(s[1..], le);
      InsertSorted(s[0], Sort(s[1..], le), le);
      InsertMembers(s[0], Sort(s[1..], le), le);
      assert s == [s[0]] + s[1..];
    }
    SameLength(Sort(s, le), s);
  }

  lemma SortedTail<T(!new)>(s: seq<T>, le: (T, T) -> bool)
    requires s != [] && Sorted(s, le)
    ensures Sorted(s[1..], le)
    ensures Separates(s, le) ==> Separates(s[1..], le)
  {
    assert forall x | x in s[1..] :: x in s;
  }

  lemma SameTails<T(!new)>(a: seq<T>, b: seq<T>)
    requires a != [] && b != [] && a[0] == b[0] && multiset(a) == multiset(b)
    ensures multiset(a[1..]) == multiset(b[1..])
    ensures a[1..] == b[1..] ==> a == b
  {
    assert a == [a[0]] + a[1..] && b == [b[0]] + b[1..];
    assert multiset(a[1..]) == multiset(a) - multiset{a[0]};
    assert multiset(b[1..]) == multiset(b) - multiset{b[0]};
  }

  lemma SameLength<T(!new)>(a: seq<T>, b: seq<T>)
    requires multiset(a) == multiset(b)
    ensures |a| == |b|
  {
    assert |a| == |multiset(a)| && |b| == |multiset(b)|;
  }

  lemma HeadsAgree<T(!new)>(a: seq<T>, b: seq<T>, le: (T, T) -> bool)
    requires TotalPreorder(le) && Sorted(a, le) && Sorted(b, le)
    requires a != [] && b != [] && multiset(a) == multiset(b) && Separates(a, le)
    ensures a[0] == b[0]
  {
    assert a[0] in multiset(b) && b[0] in multiset(a);
    assert le(b[0], b[0]) && le(a[0], a[0]);
    assert le(a[0], b[0]) && le(b[0], a[0]);
  }

  /** Two sorted arrangements of the same elements are the same sequence. */
  lemma {:induction false} SortedUnique<T(!new)>(a: seq<T>, b: seq<T>, le: (T, T) -> bool)
    requires TotalPreorder(le) && Sorted(a, le) && Sorted(b, le)
    requires multiset(a) == multiset(b) && Separates(a, le)
    ensures a == b
    decreases |a|
  {
    SameLength(a, b);
    if a != [] {
      HeadsAgree(a, b, le);
      SameTails(a, b);
      SortedTail(a, le);
      SortedTail(b, le);
      SortedUnique(a[1..], b[1..], le);
    }
  }

  lemma SameMembers<T(!new)>(a: seq<T>, b: seq<T>)
    requires multiset(a) == multiset(b)
    ensures forall x :: x in a <==> x in b
  {
    forall x ensures x in a <==> x in b {
      assert x in a <==> x in multiset(a);
    }
  }

  // ----- sequences without repetition

  ghost predicate Distinct<T(!new)>(s: seq<T>) {
    forall i, j | 0 <= i < j < |s| :: s[i] != s[j]
  }

  lemma {:induction false} DistinctCount<T(!new)>(s: seq<T>, x: T)
    requires Distinct(s)
    ensures multiset(s)[x] == if x in s then 1 else 0
  {
    if s != [] {
      assert s == [s[0]] + s[1..];
      DistinctCount(s[1..], x);
    }
  }

  lemma TwiceCount<T(!new)>(s: seq<T>, i: nat, j: nat)
    requires i < j < |s| && s[i] == s[j]
    ensures multiset(s)[s[i]] >= 2
  {
    assert s == s[..j] + s[j..];
    assert s[i] in s[..j] && s[j] in s[j..];
  }

  lemma DistinctMultiset<T(!new)>(a: seq<T>, b: seq<T>)
    requires Distinct(a) && Distinct(b) && forall x :: x in a <==> x in b
    ensures multiset(a) == multiset(b)
  {
    forall x: T ensures multiset(a)[x] == multiset(b)[x] {
      DistinctCount(a, x);
      DistinctCount(b, x);
    }
  }

  lemma DistinctRearranged<T(!new)>(a: seq<T>, b: seq<T>)
    requires Distinct(a) && multiset(a) == multiset(b)
    ensures Distinct(b)
  {
    forall i, j | 0 <= i < j < |b| ensures b[i] != b[j] {
      if b[i] == b[j] {
        TwiceCount(b, i, j);
        DistinctCount(a, b[i]);
      }
    }
  }

  // ----- rearranging and mapping

  function Mapped<A, B>(s: seq<A>, f: A -> B): seq<B> {
    seq(|s|, i requires 0 <= i < |s| => f(s[i]))
  }

  lemma MappedSplit<A(!new), B(!new)>(s: seq<A>, k: nat, f: A -> B)
    requires k < |s|
    ensures multiset(s) == multiset(s[..k] + s[k + 1..]) + multiset{s[k]}
    ensures multiset(Mapped(s, f)) == multiset(Mapped(s[..k] + s[k + 1..], f)) + multiset{f(s[k])}
  {
    var all := Mapped(s, f);
    assert s == s[..k] + [s[k]] + s[k + 1..];
    assert all == all[..k] + [all[k]] + all[k + 1..];
    assert Mapped(s[..k] + s[k + 1..], f) == all[..k] + all[k + 1..];
  }

  lemma Without<T(!new)>(a: multiset<T>, b: multiset<T>, restA: multiset<T>, restB: multiset<T>, x: T)
    requires a == restA + multiset{x} && b == restB + multiset{x}
    ensures a == b <==> restA == restB
  {
    assert a - multiset{x} == restA && b - multiset{x} == restB;
  }

  /** Rearranging the arguments rearranges the results. */
  lemma {:induction false} MappedRearranged<A(!new), B(!new)>(a: seq<A>, b: seq<A>, f: A -> B)
    requires multiset(a) == multiset(b)
    ensures multiset(Mapped(a, f)) == multiset(Mapped(b, f))
    decreases |a|
  {
    SameLength(a, b);
    if a == [] {
      assert Mapped(a, f) == [] == Mapped(b, f);
    } else {
      SameMembers(a, b);
      assert a[0] in b;
      var k :| 0 <= k < |b| && b[k] == a[0];
      hide Mapped;
      var restA, restB := a[..0] + a[0 + 1..], b[..k] + b[k + 1..];
      MappedSplit(a, 0, f);
      MappedSplit(b, k, f);
      Without(multiset(a), multiset(b), multiset(restA), multiset(restB), a[0]);
      MappedRearranged(restA, restB, f);
    }
  }
}
