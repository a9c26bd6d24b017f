/** Python's `sorted`: a stable sort, specified by insertion and characterised by its result
    being an ordered permutation that keeps the order of equal elements. */
module Sorting {

  ghost predicate TotalPreorder<T(!new)>(le: (T, T) -> bool) {
    && (forall x, y :: le(x, y) || le(y, x))
    && (forall x, y, z :: le(x, y) && le(y, z) ==> le(x, z))
  }

  ghost predicate SortedBy<T>(s: seq<T>, le: (T, T) -> bool) {
    forall i, j | 0 <= i < j < |s| :: le(s[i], s[j])
  }

  /** Inserts `x` before the first element that is not smaller than it. */
  function Insert<T>(x: T, s: seq<T>, le: (T, T) -> bool): seq<T> {
    if s == [] || le(x, s[0]) then [x] + s else [s[0]] + Insert(x, s[1..], le)
  }

  function Sort<T>(s: seq<T>, le: (T, T) -> bool): seq<T> {
    if s == [] then [] else Insert(s[0], Sort(s[1..], le), le)
  }

  lemma {:induction false} InsertKeeps<T>(x: T, s: seq<T>, le: (T, T) -> bool)
    ensures multiset(Insert(x, s, le)) == multiset{x} + multiset(s)
    ensures |Insert(x, s, le)| == |s| + 1
  {
    if s != [] && !le(x, s[0]) {
      InsertKeeps(x, s[1..], le);
      assert s == [s[0]] + s[1..];
    }
  }

  lemma {:induction false} InsertSorted<T(!new)>(x: T, s: seq<T>, le: (T, T) -> bool)
    requires TotalPreorder(le) && SortedBy(s, le)
    ensures SortedBy(Insert(x, s, le), le)
  {
    if s == [] {
    } else if le(x, s[0]) {
      var r := [x] + s;
      forall i, j | 0 <= i < j < |r| ensures le(r[i], r[j]) {
        if i == 0 { assert le(s[0], r[j]) by { if j == 1 { assert le(s[0], s[0]); } } }
      }
    } else {
      InsertSorted(x, s[1..], le);
      InsertKeeps(x, s[1..], le);
      var t := Insert(x, s[1..], le);
      forall y | y in t ensures le(s[0], y) {
        assert y in multiset(t);
        if y != x { assert y in multiset(s[1..]); }
      }
    }
  }

  /** `sorted` returns an ordered permutation of its input. */
  lemma {:induction false} SortIsOrderedPermutation<T(!new)>(s: seq<T>, le: (T, T) -> bool)
    requires TotalPreorder(le)
    ensures SortedBy(Sort(s, le), le)
    ensures multiset(Sort(s, le)) == multiset(s)
    ensures |Sort(s, le)| == |s|
  {
    if s == [] {
    } else {
      SortIsOrderedPermutation(s[1..], le);
      InsertSorted(s[0], Sort(s[1..], le), le);
      InsertKeeps(s[0], Sort(s[1..], le), le);
      assert s == [s[0]] + s[1..];
    }
  }

  /** The elements of `s` that are equivalent to `k` under `le`, in order. */
  function Equivalent<T>(s: seq<T>, k: T, le: (T, T) -> bool): seq<T> {
    if s == [] then []
    else (if le(s[0], k) && le(k, s[0]) then [s[0]] else []) + Equivalent(s[1..], k, le)
  }

  /** It keeps each of them as often as it occurs. */
  lemma {:induction false} EquivalentCounts<T>(s: seq<T>, k: T, le: (T, T) -> bool, x: T)
    ensures multiset(Equivalent(s, k, le))[x] == if le(x, k) && le(k, x) then multiset(s)[x] else 0
  {
    if s == [] {
    } else {
      EquivalentCounts(s[1..], k, le, x);
      assert s == [s[0]] + s[1..];
      var first := if le(s[0], k) && le(k, s[0]) then [s[0]] else [];
      assert multiset(Equivalent(s, k, le)) == multiset(first) + multiset(Equivalent(s[1..], k, le));
    }
  }

  lemma {:induction false} InsertStable<T(!new)>(x: T, s: seq<T>, k: T, le: (T, T) -> bool)
    requires TotalPreorder(le)
    ensures Equivalent(Insert(x, s, le), k, le) == Equivalent([x] + s, k, le)
  {
    assert ([x] + s)[1..] == s;
    if s != [] && !le(x, s[0]) {
      InsertStable(x, s[1..], k, le);
      assert ([x] + s[1..])[1..] == s[1..];
      var r := [s[0]] + Insert(x, s[1..], le);
      assert r[1..] == Insert(x, s[1..], le);
    }
  }

  /** `sorted` is stable: equivalent elements keep their order. */
  lemma {:induction false} SortIsStable<T(!new)>(s: seq<T>, k: T, le: (T, T) -> bool)
    requires TotalPreorder(le)
    ensures Equivalent(Sort(s, le), k, le) == Equivalent(s, k, le)
  {
    if s == [] {
    } else {
      SortIsStable(s[1..], k, le);
      var t := Sort(s[1..], le);
      InsertStable(s[0], t, k, le);
      assert ([s[0]] + t)[1..] == t;
    }
  }
}
