/** Lexicographic order on strings, and a stable insertion sort. */
module Ordering {

  predicate StringLess(a: string, b: string) {
    b != "" && (a == "" || a[0] < b[0] || (a[0] == b[0] && StringLess(a[1..], b[1..])))
  }

  lemma {:induction false} StringLessTrichotomy(a: string, b: string)
    ensures !StringLess(a, a)
    ensures StringLess(a, b) ==> !StringLess(b, a)
    ensures a == b || StringLess(a, b) || StringLess(b, a)
  {
    if a != "" {
      StringLessTrichotomy(a[1..], a[1..]);
      if b != "" {
        StringLessTrichotomy(a[1..], b[1..]);
        assert a == [a[0]] + a[1..] && b == [b[0]] + b[1..];
      }
    }
  }

  lemma {:induction false} StringLessTransitive(a: string, b: string, c: string)
    requires StringLess(a, b) && StringLess(b, c)
    ensures StringLess(a, c)
  {
    if a != "" && a[0] == b[0] && b[0] == c[0] {
      StringLessTransitive(a[1..], b[1..], c[1..]);
    }
  }

  ghost predicate TotalPreorder<T(!new)>(le: (T, T) -> bool) {
    && (forall a, b :: le(a, b) || le(b, a))
    && (forall a, b, c :: le(a, b) && le(b, c) ==> le(a, c))
  }

  ghost predicate Sorted<T>(s: seq<T>, le: (T, T) -> bool) {
    forall i, j :: 0 <= i < j < |s| ==> le(s[i], s[j])
  }

  function Insert<T>(x: T, s: seq<T>, le: (T, T) -> bool): seq<T> {
    if s == [] || le(x, s[0]) then [x] + s else [s[0]] + Insert(x, s[1..], le)
  }

  /** Stable: an element goes before the equal ones that followed it. */
  function Sort<T>(s: seq<T>, le: (T, T) -> bool): seq<T> {
    if s == [] then [] else Insert(s[0], Sort(s[1..], le), le)
  }

  lemma {:induction false} InsertCorrect<T(!new)>(x: T, s: seq<T>, le: (T, T) -> bool)
    requires TotalPreorder(le) && Sorted(s, le)
    ensures Sorted(Insert(x, s, le), le)
    ensures multiset(Insert(x, s, le)) == multiset{x} + multiset(s)
  {
    if s != [] && !le(x, s[0]) {
      InsertCorrect(x, s[1..], le);
      var rest := Insert(x, s[1..], le);
      assert s == [s[0]] + s[1..];
      forall k | 0 <= k < |rest| ensures le(s[0], rest[k]) {
        assert rest[k] in multiset(rest);
        assert rest[k] == x || rest[k] in s[1..];
      }
    }
  }

  lemma {:induction false} SortCorrect<T(!new)>(s: seq<T>, le: (T, T) -> bool)
    requires TotalPreorder(le)
    ensures Sorted(Sort(s, le), le)
    ensures multiset(Sort(s, le)) == multiset(s)
  {
    if s != [] {
      SortCorrect(s[1..], le);
      InsertCorrect(s[0], Sort(s[1..], le), le);
      assert s == [s[0]] + s[1..];
    }
  }

  lemma SameMembers<T>(s: seq<T>, t: seq<T>)
    requires multiset(s) == multiset(t)
    ensures |s| == |t|
    ensures forall x :: x in s <==> x in t
  {
    assert |multiset(s)| == |s| && |multiset(t)| == |t|;
    forall x ensures x in s <==> x in t {
      assert x in s <==> x in multiset(s);
      assert x in t <==> x in multiset(t);
    }
  }

  /** Sorting a sorted sequence changes nothing. */
  lemma {:induction false} SortSorted<T(!new)>(s: seq<T>, le: (T, T) -> bool)
    requires Sorted(s, le)
    ensures Sort(s, le) == s
  {
    if s != [] {
      SortSorted(s[1..], le);
      assert s == [s[0]] + s[1..];
      if |s| > 1 { assert le(s[0], s[1]); }
    }
  }

  ghost predicate Asymmetric<T(!new)>(less: (T, T) -> bool) {
    forall a, b :: less(a, b) ==> !less(b, a)
  }

  lemma StrictHeads<T(!new)>(s: seq<T>, t: seq<T>, less: (T, T) -> bool)
    requires Asymmetric(less)
    requires Sorted(s, less) && Sorted(t, less)
    requires multiset(s) == multiset(t) && s != [] && t != []
    ensures s[0] == t[0]
  {
    SameMembers(s, t);
    assert s[0] in t && t[0] in s;
    var i :| 0 <= i < |t| && t[i] == s[0];
    var j :| 0 <= j < |s| && s[j] == t[0];
    assert i > 0 ==> less(t[0], s[0]);
    assert j > 0 ==> less(s[0], t[0]);
  }

  /** Two arrangements of the same elements, both in strict order, are the same arrangement. */
  lemma {:induction false} StrictOrderUnique<T(!new)>(s: seq<T>, t: seq<T>, less: (T, T) -> bool)
    requires Asymmetric(less)
    requires Sorted(s, less) && Sorted(t, less)
    requires multiset(s) == multiset(t)
    ensures s == t
  {
    SameMembers(s, t);
    if s != [] {
      StrictHeads(s, t, less);
      assert s == [s[0]] + s[1..] && t == [t[0]] + t[1..];
      assert multiset(s[1..]) == multiset(s) - multiset{s[0]};
      assert multiset(t[1..]) == multiset(t) - multiset{t[0]};
      StrictOrderUnique(s[1..], t[1..], less);
    }
  }

  // ---------------------------------------------------------------- stability

  /** In order, and among equals by position. */
  function Precedes<T>(le: (T, T) -> bool, pos: T -> int): (T, T) -> bool {
    (a, b) => le(a, b) && (le(b, a) ==> pos(a) < pos(b))
  }

  lemma {:induction false} InsertStable<T(!new)>(x: T, s: seq<T>, le: (T, T) -> bool, pos: T -> int)
    requires TotalPreorder(le) && Sorted(s, Precedes(le, pos))
    requires forall y :: y in s ==> pos(x) < pos(y)
    ensures Sorted(Insert(x, s, le), Precedes(le, pos))
    ensures multiset(Insert(x, s, le)) == multiset{x} + multiset(s)
  {
    if s == [] {
    } else if le(x, s[0]) {
      assert forall k :: 0 < k < |s| ==> le(s[0], s[k]) && le(x, s[k]);
    } else {
      InsertStable(x, s[1..], le, pos);
      var rest := Insert(x, s[1..], le);
      assert s == [s[0]] + s[1..];
      forall k | 0 <= k < |rest| ensures Precedes(le, pos)(s[0], rest[k]) {
        assert rest[k] in multiset(rest);
        assert rest[k] == x || rest[k] in s[1..];
      }
    }
  }

  /** Sorting keeps equal elements in the order they had. */
  lemma {:induction false} SortStable<T(!new)>(s: seq<T>, le: (T, T) -> bool, pos: T -> int)
    requires TotalPreorder(le)
    requires forall i, j :: 0 <= i < j < |s| ==> pos(s[i]) < pos(s[j])
    ensures Sorted(Sort(s, le), Precedes(le, pos))
  {
    if s != [] {
      SortStable(s[1..], le, pos);
      SortCorrect(s[1..], le);
      SameMembers(Sort(s[1..], le), s[1..]);
      InsertStable(s[0], Sort(s[1..], le), le, pos);
    }
  }

  /** Two stable arrangements of the same elements are the same exactly when ties keep their order. */
  lemma SameArrangementIff<T(!new)>(
    s: seq<T>, t: seq<T>, le: (T, T) -> bool, pos: T -> int, pos': T -> int)
    requires Sorted(s, Precedes(le, pos)) && Sorted(t, Precedes(le, pos'))
    requires multiset(s) == multiset(t)
    ensures s == t <==> forall a, b ::
      a in s && b in s && le(a, b) && le(b, a) && pos(a) < pos(b) ==> pos'(a) < pos'(b)
  {
    if forall a, b :: a in s && b in s && le(a, b) && le(b, a) && pos(a) < pos(b) ==> pos'(a) < pos'(b) {
      assert Asymmetric(Precedes(le, pos'));
      StrictOrderUnique(s, t, Precedes(le, pos'));
    } else {
      var a, b :| a in s && b in s && le(a, b) && le(b, a) && pos(a) < pos(b) && !(pos'(a) < pos'(b));
      var i :| 0 <= i < |s| && s[i] == a;
      var j :| 0 <= j < |s| && s[j] == b;
      assert !Precedes(le, pos)(s[j], s[i]) && !Precedes(le, pos')(s[i], s[j]);
    }
  }

  // ---------------------------------------------------------------- distinct keys

  ghost predicate KeysDistinct<T, K>(s: seq<T>, key: T -> K) {
    forall i, j :: 0 <= i < j < |s| ==> key(s[i]) != key(s[j])
  }

  lemma {:induction false} DistinctCountsOnce<T(!new), K>(s: seq<T>, key: T -> K)
    requires KeysDistinct(s, key)
    ensures forall x :: multiset(s)[x] <= 1
  {
    if s != [] {
      var n := |s| - 1;
      DistinctCountsOnce(s[..n], key);
      assert s == s[..n] + [s[n]];
      assert s[n] !in s[..n];
    }
  }

  lemma {:induction false} CountedOnceDistinct<T(!new)>(s: seq<T>)
    requires forall x :: multiset(s)[x] <= 1
    ensures forall i, j :: 0 <= i < j < |s| ==> s[i] != s[j]
  {
    if s != [] {
      var n := |s| - 1;
      assert s == s[..n] + [s[n]];
      assert multiset(s) == multiset(s[..n]) + multiset{s[n]};
      forall x ensures multiset(s[..n])[x] <= 1 { assert multiset(s)[x] <= 1; }
      CountedOnceDistinct(s[..n]);
      assert multiset(s)[s[n]] == multiset(s[..n])[s[n]] + 1;
      assert s[n] !in multiset(s[..n]);
    }
  }

  /** Rearranging a sequence keeps its keys distinct. */
  lemma PermutedKeysDistinct<T(!new), K>(s: seq<T>, t: seq<T>, key: T -> K)
    requires KeysDistinct(s, key) && multiset(s) == multiset(t)
    ensures KeysDistinct(t, key)
  {
    DistinctCountsOnce(s, key);
    CountedOnceDistinct(t);
    SameMembers(t, s);
    forall i, j | 0 <= i < j < |t| ensures key(t[i]) != key(t[j]) {
      assert t[i] in s && t[j] in s;
    }
  }

  // ---------------------------------------------------------------- tuples of strings

  predicate TupleLess(a: seq<string>, b: seq<string>) {
    b != [] && (a == [] || StringLess(a[0], b[0]) || (a[0] == b[0] && TupleLess(a[1..], b[1..])))
  }

  lemma {:induction false} TupleLessTrichotomy(a: seq<string>, b: seq<string>)
    ensures TupleLess(a, b) ==> !TupleLess(b, a)
    ensures a == b || TupleLess(a, b) || TupleLess(b, a)
  {
    if a != [] && b != [] {
      StringLessTrichotomy(a[0], b[0]);
      TupleLessTrichotomy(a[1..], b[1..]);
      assert a == [a[0]] + a[1..] && b == [b[0]] + b[1..];
    }
  }

  lemma {:induction false} TupleLessTransitive(a: seq<string>, b: seq<string>, c: seq<string>)
    requires TupleLess(a, b) && TupleLess(b, c)
    ensures TupleLess(a, c)
  {
    if a != [] {
      if StringLess(a[0], b[0]) && StringLess(b[0], c[0]) {
        StringLessTransitive(a[0], b[0], c[0]);
      } else if a[0] == b[0] && b[0] == c[0] {
        TupleLessTransitive(a[1..], b[1..], c[1..]);
      }
    }
  }
}
