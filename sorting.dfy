/** Python's `sorted`, which is stable: modelled as an insertion sort under a total
    preorder `le` ("may come before"). Besides being sorted and a permutation, the
    result keeps every class of mutually equivalent elements in input order, and
    those facts determine it: any stable sort gives this same sequence. */
module Sorting {

  /** Any two elements compare, and comparison chains. */
  ghost predicate TotalPreorder<T(!new)>(le: (T, T) -> bool) {
    && (forall a, b :: le(a, b) || le(b, a))
    && (forall a, b, c :: le(a, b) && le(b, c) ==> le(a, c))
  }

  predicate Equiv<T>(le: (T, T) -> bool, a: T, b: T) {
    le(a, b) && le(b, a)
  }

  predicate Sorted<T>(s: seq<T>, le: (T, T) -> bool) {
    forall i, j :: 0 <= i < j < |s| ==> le(s[i], s[j])
  }

  /** The elements of `s` equivalent to `c`, in their order in `s`. */
  function Class<T>(s: seq<T>, le: (T, T) -> bool, c: T): seq<T> {
    if s == [] then []
    else (if Equiv(le, s[0], c) then [s[0]] else []) + Class(s[1..], le, c)
  }

  /** Places `x` after the leading elements that may come before it. */
  function Insert<T>(x: T, s: seq<T>, le: (T, T) -> bool): (r: seq<T>)
    ensures multiset(r) == multiset(s) + multiset{x}
  {
    if s == [] then [x]
    else if le(s[0], x) then
      assert s == [s[0]] + s[1..];
      [s[0]] + Insert(x, s[1..], le)
    else [x] + s
  }

  /** Inserts the input's elements one at a time, first to last. */
  function Sort<T>(s: seq<T>, le: (T, T) -> bool): (r: seq<T>)
    ensures multiset(r) == multiset(s)
  {
    if s == [] then []
    else
      assert s == s[..|s| - 1] + [s[|s| - 1]];
      Insert(s[|s| - 1], Sort(s[..|s| - 1], le), le)
  }

  lemma {:induction false} InsertSorted<T(!new)>(x: T, s: seq<T>, le: (T, T) -> bool)
    requires TotalPreorder(le) && Sorted(s, le)
    ensures Sorted(Insert(x, s, le), le)
  {
    if s != [] {
      if le(s[0], x) {
        var t := Insert(x, s[1..], le);
        InsertSorted(x, s[1..], le);
        forall k | 0 <= k < |t| ensures le(s[0], t[k]) {
          assert t[k] in multiset(t);
          assert t[k] == x || t[k] in multiset(s[1..]);
        }
      }
    }
  }

  lemma {:induction false} ClassAppend<T>(a: seq<T>, b: seq<T>, le: (T, T) -> bool, c: T)
    ensures Class(a + b, le, c) == Class(a, le, c) + Class(b, le, c)
  {
    if a != [] {
      ClassAppend(a[1..], b, le, c);
      var p := if Equiv(le, a[0], c) then [a[0]] else [];
      assert (a + b)[0] == a[0] && (a + b)[1..] == a[1..] + b;
      calc {
        Class(a + b, le, c);
        p + Class(a[1..] + b, le, c);
        p + (Class(a[1..], le, c) + Class(b, le, c));
        (p + Class(a[1..], le, c)) + Class(b, le, c);
      }
    } else {
      assert a + b == b;
    }
  }

  lemma {:induction false} ClassEmpty<T>(s: seq<T>, le: (T, T) -> bool, c: T)
    requires forall k :: 0 <= k < |s| ==> !Equiv(le, s[k], c)
    ensures Class(s, le, c) == []
  {
    if s != [] {
      ClassEmpty(s[1..], le, c);
    }
  }

  /** Every member of a class is an element of the sequence and equivalent to `c`. */
  lemma {:induction false} ClassMembers<T>(s: seq<T>, le: (T, T) -> bool, c: T)
    ensures forall y :: y in Class(s, le, c) ==> y in s && Equiv(le, y, c)
  {
    if s != [] {
      ClassMembers(s[1..], le, c);
    }
  }

  /** The class of `c` in a sequence that starts with `a`. */
  lemma ClassCons<T>(a: T, t: seq<T>, le: (T, T) -> bool, c: T)
    ensures Class([a] + t, le, c) == (if Equiv(le, a, c) then [a] else []) + Class(t, le, c)
  {
    assert ([a] + t)[1..] == t;
  }

  /** When `x` goes in front of a sorted sequence, nothing in it is equivalent to `x`. */
  lemma NoneBefore<T(!new)>(x: T, s: seq<T>, le: (T, T) -> bool, c: T)
    requires TotalPreorder(le) && Sorted(s, le)
    requires s != [] && !le(s[0], x) && Equiv(le, x, c)
    ensures Class(s, le, c) == []
  {
    forall k | 0 <= k < |s| ensures !Equiv(le, s[k], c) {
      assert k == 0 || le(s[0], s[k]);
    }
    ClassEmpty(s, le, c);
  }

  lemma SortedTail<T>(s: seq<T>, le: (T, T) -> bool)
    requires s != [] && Sorted(s, le)
    ensures Sorted(s[1..], le)
  {
    assert forall i :: 0 <= i < |s[1..]| ==> s[1..][i] == s[i + 1];
  }

  /** Inserting `x` appends it to its own class and leaves every other class alone. */
  lemma {:induction false} InsertClass<T(!new)>(x: T, s: seq<T>, le: (T, T) -> bool, c: T)
    requires TotalPreorder(le) && Sorted(s, le)
    ensures Class(Insert(x, s, le), le, c) == Class(s, le, c) + (if Equiv(le, x, c) then [x] else [])
  {
    if s != [] {
      if le(s[0], x) {
        SortedTail(s, le);
        InsertClass(x, s[1..], le, c);
        ClassCons(s[0], Insert(x, s[1..], le), le, c);
        assert s == [s[0]] + s[1..];
        ClassCons(s[0], s[1..], le, c);
      } else {
        ClassCons(x, s, le, c);
        if Equiv(le, x, c) {
          NoneBefore(x, s, le, c);
        }
      }
    }
  }

  /** The result of Sort is sorted. */
  lemma {:induction false} SortSorted<T(!new)>(s: seq<T>, le: (T, T) -> bool)
    requires TotalPreorder(le)
    ensures Sorted(Sort(s, le), le)
  {
    if s != [] {
      SortSorted(s[..|s| - 1], le);
      InsertSorted(s[|s| - 1], Sort(s[..|s| - 1], le), le);
    }
  }

  /** Sort is stable: each class of equivalent elements keeps its input order. */
  lemma {:induction false} SortStable<T(!new)>(s: seq<T>, le: (T, T) -> bool, c: T)
    requires TotalPreorder(le)
    ensures Class(Sort(s, le), le, c) == Class(s, le, c)
  {
    if s != [] {
      var init, last := s[..|s| - 1], s[|s| - 1];
      var q := if Equiv(le, last, c) then [last] else [];
      SortSorted(init, le);
      assert s == init + [last];
      calc {
        Class(Sort(s, le), le, c);
        Class(Insert(last, Sort(init, le), le), le, c);
        { InsertClass(last, Sort(init, le), le, c); }
        Class(Sort(init, le), le, c) + q;
        { SortStable(init, le, c); }
        Class(init, le, c) + q;
        { ClassCons(last, [], le, c); assert [last] + [] == [last]; }
        Class(init, le, c) + Class([last], le, c);
        { ClassAppend(init, [last], le, c); }
        Class(s, le, c);
      }
    }
  }

  /** Sequences whose classes agree are empty together. */
  lemma ClassesAgreeOnEmpty<T(!new)>(t1: seq<T>, t2: seq<T>, le: (T, T) -> bool)
    requires TotalPreorder(le)
    requires forall c :: Class(t1, le, c) == Class(t2, le, c)
    ensures t1 == [] <==> t2 == []
  {
    if t1 != [] {
      assert Class(t1, le, t1[0]) != [];
      assert Class(t2, le, t1[0]) != [];
    }
    if t2 != [] {
      assert Class(t2, le, t2[0]) != [];
      assert Class(t1, le, t2[0]) != [];
    }
  }

  /** Two sorted sequences whose classes agree are equal. */
  lemma {:induction false} SortedClassesDetermine<T(!new)>(t1: seq<T>, t2: seq<T>, le: (T, T) -> bool)
    requires TotalPreorder(le) && Sorted(t1, le) && Sorted(t2, le)
    requires forall c :: Class(t1, le, c) == Class(t2, le, c)
    ensures t1 == t2
    decreases |t1|
  {
    ClassesAgreeOnEmpty(t1, t2, le);
    if t1 != [] {
      var a, b := t1[0], t2[0];
      assert Class(t1, le, a)[0] == a;
      ClassMembers(t2, le, a);
      assert a in Class(t2, le, a);
      assert le(b, a) by {
        var k :| 0 <= k < |t2| && t2[k] == a;
        assert k == 0 || le(t2[0], t2[k]);
      }
      ClassMembers(t1, le, b);
      assert Class(t2, le, b)[0] == b;
      assert b in Class(t1, le, b);
      assert le(a, b) by {
        var k :| 0 <= k < |t1| && t1[k] == b;
        assert k == 0 || le(t1[0], t1[k]);
      }
      assert Class(t2, le, a)[0] == b;
      forall c ensures Class(t1[1..], le, c) == Class(t2[1..], le, c) {
        var p := if Equiv(le, a, c) then [a] else [];
        assert Class(t1, le, c) == p + Class(t1[1..], le, c);
        assert Class(t2, le, c) == p + Class(t2[1..], le, c);
        assert (p + Class(t1[1..], le, c))[|p|..] == Class(t1[1..], le, c);
        assert (p + Class(t2[1..], le, c))[|p|..] == Class(t2[1..], le, c);
      }
      SortedClassesDetermine(t1[1..], t2[1..], le);
      assert t1 == [a] + t1[1..] && t2 == [b] + t2[1..];
    }
  }

  /** Sort is the only sorted arrangement that keeps every class in input order, so it is
      what any stable sort, Python's `sorted` included, returns. */
  lemma SortUnique<T(!new)>(s: seq<T>, t: seq<T>, le: (T, T) -> bool)
    requires TotalPreorder(le) && Sorted(t, le)
    requires forall c :: Class(t, le, c) == Class(s, le, c)
    ensures t == Sort(s, le)
  {
    SortSorted(s, le);
    forall c ensures Class(t, le, c) == Class(Sort(s, le), le, c) {
      SortStable(s, le, c);
    }
    SortedClassesDetermine(t, Sort(s, le), le);
  }

  /** When no two elements are strictly ordered, sorting keeps the input order. */
  lemma SortAllEquivalent<T(!new)>(s: seq<T>, le: (T, T) -> bool)
    requires TotalPreorder(le)
    requires forall i, j :: 0 <= i < |s| && 0 <= j < |s| ==> le(s[i], s[j])
    ensures Sort(s, le) == s
  {
    SortUnique(s, s, le);
  }

  /** No element occurs twice. */
  predicate Distinct<T(==)>(s: seq<T>) {
    forall i, j :: 0 <= i < j < |s| ==> s[i] != s[j]
  }

  /** Only equal elements compare both ways: `le` is a total order. */
  ghost predicate Antisymmetric<T(!new)>(le: (T, T) -> bool) {
    forall a, b :: le(a, b) && le(b, a) ==> a == b
  }

  /** Under a total order, the class of `c` in a distinct sequence is `c` alone when it
      occurs, and empty otherwise. */
  lemma {:induction false} ClassOfDistinct<T(!new)>(s: seq<T>, le: (T, T) -> bool, c: T)
    requires TotalPreorder(le) && Antisymmetric(le) && Distinct(s)
    ensures Class(s, le, c) == if c in s then [c] else []
  {
    if s != [] {
      ClassOfDistinct(s[1..], le, c);
      assert c in s <==> c == s[0] || c in s[1..];
      assert Equiv(le, s[0], c) <==> s[0] == c;
    }
  }

  /** A distinct sequence holds each element at most once. */
  lemma {:induction false} DistinctFew<T>(s: seq<T>)
    requires Distinct(s)
    ensures forall x :: multiset(s)[x] <= 1
  {
    if s != [] {
      DistinctFew(s[1..]);
      assert s == [s[0]] + s[1..];
      assert s[0] !in s[1..];
    }
  }

  /** A sequence holding each element at most once is distinct. */
  lemma FewDistinct<T>(s: seq<T>)
    requires forall x :: multiset(s)[x] <= 1
    ensures Distinct(s)
  {
    forall i, j | 0 <= i < j < |s| ensures s[i] != s[j] {
      var a, b := s[..j], s[j..];
      assert s == a + b;
      assert a[i] == s[i] && b[0] == s[j];
      assert multiset(s)[s[j]] == multiset(a)[s[j]] + multiset(b)[s[j]];
      assert multiset(a)[s[i]] >= 1 && multiset(b)[s[j]] >= 1;
    }
  }

  /** Sorting distinct elements under a total order gives each of them once, and the same
      sequence whatever order they came in. */
  lemma SortDistinct<T(!new)>(s: seq<T>, other: seq<T>, le: (T, T) -> bool)
    requires TotalPreorder(le) && Antisymmetric(le)
    requires Distinct(s) && Distinct(other)
    requires forall x :: x in s <==> x in other
    ensures Distinct(Sort(s, le))
    ensures forall x :: x in Sort(s, le) <==> x in s
    ensures Sort(s, le) == Sort(other, le)
  {
    DistinctFew(s);
    FewDistinct(Sort(s, le));
    assert forall x :: x in Sort(s, le) <==> x in multiset(s);
    SortSorted(other, le);
    forall c ensures Class(Sort(other, le), le, c) == Class(s, le, c) {
      SortStable(other, le, c);
      ClassOfDistinct(other, le, c);
      ClassOfDistinct(s, le, c);
    }
    SortUnique(s, Sort(other, le), le);
  }
}
