/** The ordering core of `order_records_with_children`: Kahn's algorithm over page indices with a
    min-queue, and the fallback for pages that a cycle blocks.  A page is named by its position in
    the input; an edge `(p, c)` says that page `p` declares page `c` as a child. */
module NavGraph {
  import opened Wrappers
  import Sorting

  type Edges = set<(nat, nat)>

  ghost predicate WellFormed(n: nat, E: Edges) {
    forall e | e in E :: e.0 < n && e.1 < n && e.0 != e.1
  }

  // ----- What an order has to satisfy -----

  function Elements(q: seq<nat>): set<nat> { set v | v in q }

  ghost predicate Distinct(q: seq<nat>) {
    forall i, j | 0 <= i < j < |q| :: q[i] != q[j]
  }

  ghost predicate IsPermutation(n: nat, q: seq<nat>) {
    |q| == n && Distinct(q) && forall v | v in q :: v < n
  }

  /** Every edge into the page at position `i` comes from a page at an earlier position. */
  ghost predicate ParentsFirst(E: Edges, q: seq<nat>) {
    forall i, p: nat | 0 <= i < |q| && (p, q[i]) in E :: p in q[..i]
  }

  ghost predicate LexLeq(a: seq<nat>, b: seq<nat>) {
    a == [] || (b != [] && (a[0] < b[0] || (a[0] == b[0] && LexLeq(a[1..], b[1..]))))
  }

  /** `a` is smaller where they first differ. */
  ghost predicate SmallerAt(a: seq<nat>, b: seq<nat>, k: nat) {
    k < |a| && k < |b| && a[..k] == b[..k] && a[k] < b[k]
  }

  /** So a list comes before another of its length exactly if they are equal or it is smaller where they first
      differ. */
  lemma {:induction false} LexLeqMeans(a: seq<nat>, b: seq<nat>)
    requires |a| == |b|
    ensures LexLeq(a, b) <==> a == b || exists k: nat :: SmallerAt(a, b, k)
  {
    if a == [] {
    } else if a[0] == b[0] {
      LexLeqMeans(a[1..], b[1..]);
      assert a == [a[0]] + a[1..] && b == [b[0]] + b[1..];
      forall k: nat ensures SmallerAt(a, b, k) <==> k > 0 && SmallerAt(a[1..], b[1..], k - 1) {
        SmallerLater(a, b, k);
      }
      if k: nat :| SmallerAt(a[1..], b[1..], k) { assert SmallerAt(a, b, k + 1); }
    } else {
      forall k: nat ensures SmallerAt(a, b, k) <==> k == 0 && a[0] < b[0] {
        if 0 < k < |a| { assert a[..k][0] == a[0] && b[..k][0] == b[0]; }
      }
      assert a[0] < b[0] ==> SmallerAt(a, b, 0);
    }
  }

  lemma SmallerLater(a: seq<nat>, b: seq<nat>, k: nat)
    requires a != [] && b != [] && a[0] == b[0]
    ensures SmallerAt(a, b, k) <==> k > 0 && SmallerAt(a[1..], b[1..], k - 1)
  {
    if 0 < k < |a| && k < |b| {
      assert a[..k] == [a[0]] + a[1..][..k - 1] && b[..k] == [b[0]] + b[1..][..k - 1];
      assert a[..k][1..] == a[1..][..k - 1] && b[..k][1..] == b[1..][..k - 1];
    }
  }

  /** A walk along edges, from its first to its last page. */
  ghost predicate IsWalk(E: Edges, w: seq<nat>) {
    |w| >= 1 && forall i | 0 <= i < |w| - 1 :: (w[i], w[i + 1]) in E
  }

  ghost predicate IsCycle(E: Edges, w: seq<nat>) {
    IsWalk(E, w) && |w| >= 2 && w[0] == w[|w| - 1]
  }

  ghost predicate HasCycle(E: Edges) {
    exists w :: IsCycle(E, w)
  }

  /** A page is blocked when it lies on a cycle or can be reached from one. */
  ghost predicate Blocked(E: Edges, v: nat) {
    exists c, w :: IsCycle(E, c) && IsWalk(E, w) && w[0] == c[0] && w[|w| - 1] == v
  }

  // ----- The order the algorithm computes -----

  ghost function Nodes(n: nat): (r: set<nat>)
    ensures forall v: nat :: v in r <==> v < n
    ensures |r| == n
  {
    if n == 0 then {} else Nodes(n - 1) + {n - 1}
  }

  ghost function Parents(E: Edges, v: nat): set<nat> { set e | e in E && e.1 == v :: e.0 }

  /** The pages that may come next once `seen` has been placed. */
  ghost function Ready(n: nat, E: Edges, seen: set<nat>): set<nat> {
    set v | v in Nodes(n) && v !in seen && Parents(E, v) <= seen
  }

  ghost function Least(s: set<nat>): (m: nat)
    requires s != {}
    ensures m in s && forall x | x in s :: m <= x
    decreases |s|
  {
    var x :| x in s;
    var rest := s - {x};
    assert forall y | y in s :: y == x || y in rest;
    if rest == {} then x
    else if x <= Least(rest) then x else Least(rest)
  }

  /** The heap phase: repeatedly place the least ready page. */
  ghost function Emit(n: nat, E: Edges, seen: set<nat>): seq<nat>
    decreases Nodes(n) - seen
  {
    var ready := Ready(n, E, seen);
    if ready == {} then []
    else [Least(ready)] + Emit(n, E, seen + {Least(ready)})
  }

  /** The pages from `from` on that `seen` lacks, in input order. */
  ghost function Remaining(n: nat, seen: set<nat>, from: nat): seq<nat>
    decreases n - from
  {
    if from >= n then []
    else (if from in seen then [] else [from]) + Remaining(n, seen, from + 1)
  }

  ghost function Emitted(n: nat, E: Edges): seq<nat> { Emit(n, E, {}) }

  ghost function Order(n: nat, E: Edges): seq<nat> {
    Emitted(n, E) + Remaining(n, Elements(Emitted(n, E)), 0)
  }

  // ----- The heap phase places pages legally, and stops only when nothing is ready -----

  /** `q` places pages one at a time, each one ready when its turn comes. */
  ghost predicate Legal(n: nat, E: Edges, seen: set<nat>, q: seq<nat>)
    decreases |q|
  {
    q == [] || (q[0] in Ready(n, E, seen) && Legal(n, E, seen + {q[0]}, q[1..]))
  }

  lemma {:induction false} EmitIsLegal(n: nat, E: Edges, seen: set<nat>)
    ensures Legal(n, E, seen, Emit(n, E, seen))
    ensures Ready(n, E, seen + Elements(Emit(n, E, seen))) == {}
    decreases Nodes(n) - seen
  {
    var ready := Ready(n, E, seen);
    var q := Emit(n, E, seen);
    if ready == {} {
      assert seen + Elements(q) == seen;
    } else {
      var m := Least(ready);
      EmitIsLegal(n, E, seen + {m});
      assert q[1..] == Emit(n, E, seen + {m});
      assert seen + Elements(q) == (seen + {m}) + Elements(q[1..]);
    }
  }

  /** Positions in a legal sequence: what is there was ready after its predecessors. */
  lemma {:induction false} LegalAt(n: nat, E: Edges, seen: set<nat>, q: seq<nat>, i: nat)
    requires Legal(n, E, seen, q) && i < |q|
    ensures q[i] in Ready(n, E, seen + Elements(q[..i]))
    decreases |q|
  {
    if i == 0 {
      assert seen + Elements(q[..0]) == seen;
    } else {
      LegalAt(n, E, seen + {q[0]}, q[1..], i - 1);
      assert q[..i] == [q[0]] + q[1..][..i - 1];
      assert seen + Elements(q[..i]) == (seen + {q[0]}) + Elements(q[1..][..i - 1]);
    }
  }

  lemma LegalIsOrdered(n: nat, E: Edges, q: seq<nat>)
    requires Legal(n, E, {}, q)
    ensures Distinct(q) && ParentsFirst(E, q) && forall v | v in q :: v < n
  {
    forall i | 0 <= i < |q|
      ensures q[i] < n && q[i] !in q[..i] && Parents(E, q[i]) <= Elements(q[..i])
    {
      LegalAt(n, E, {}, q, i);
      assert {} + Elements(q[..i]) == Elements(q[..i]);
    }
    forall i, j | 0 <= i < j < |q| ensures q[i] != q[j] {
      assert q[i] == q[..j][i];
    }
    forall i, p: nat | 0 <= i < |q| && (p, q[i]) in E ensures p in q[..i] {
      assert p in Parents(E, q[i]);
    }
  }

  /** Conversely, an ordered sequence is legal. */
  lemma {:induction false} OrderedIsLegal(n: nat, E: Edges, q: seq<nat>, k: nat)
    requires Distinct(q) && ParentsFirst(E, q) && forall v | v in q :: v < n
    requires k <= |q|
    ensures Legal(n, E, Elements(q[..k]), q[k..])
    decreases |q| - k
  {
    if k < |q| {
      OrderedIsLegal(n, E, q, k + 1);
      assert q[..k + 1] == q[..k] + [q[k]];
      assert Elements(q[..k + 1]) == Elements(q[..k]) + {q[k]};
      assert q[k..][1..] == q[k + 1..];
      assert q[k] !in Elements(q[..k]);
      forall p | p in Parents(E, q[k]) ensures p in Elements(q[..k]) {
        assert (p, q[k]) in E;
      }
      assert q[k] in q;
    }
  }

  // ----- Lexicographic minimality -----

  /** Of all legal continuations of a prefix, the heap phase is the lexicographically least, and
      it places everything any of them places. */
  lemma {:induction false} EmitIsLeast(n: nat, E: Edges, seen: set<nat>, q: seq<nat>)
    requires Legal(n, E, seen, q)
    requires |q| >= |Emit(n, E, seen)|
    ensures LexLeq(Emit(n, E, seen), q)
    decreases Nodes(n) - seen
  {
    var ready := Ready(n, E, seen);
    if ready != {} {
      var m := Least(ready);
      if q[0] == m {
        assert Emit(n, E, seen)[1..] == Emit(n, E, seen + {m});
        EmitIsLeast(n, E, seen + {m}, q[1..]);
      }
    }
  }

  lemma {:induction false} LegalStaysInside(n: nat, E: Edges, seen: set<nat>, q: seq<nat>, closed: set<nat>)
    requires Legal(n, E, seen, q)
    requires seen <= closed && Ready(n, E, closed) == {}
    ensures Elements(q) <= closed
    decreases |q|
  {
    if q == [] {
    } else {
      var v := q[0];
      assert v !in closed ==> v in Ready(n, E, closed);
      LegalStaysInside(n, E, seen + {q[0]}, q[1..], closed);
      assert Elements(q) == {q[0]} + Elements(q[1..]);
    }
  }

  lemma {:induction false} DistinctSize(q: seq<nat>)
    requires Distinct(q)
    ensures |Elements(q)| == |q|
  {
    if q != [] {
      var r := q[..|q| - 1];
      DistinctSize(r);
      assert Elements(q) == Elements(r) + {q[|q| - 1]};
      assert q[|q| - 1] !in Elements(r);
    } else {
      assert Elements(q) == {};
    }
  }

  // ----- Cycles -----

  /** Along a walk that ends at a placed page, every page is placed, each before the next. */
  lemma {:induction false} WalkIsPlaced(E: Edges, q: seq<nat>, w: seq<nat>, j: nat) returns (i: nat)
    requires ParentsFirst(E, q) && IsWalk(E, w)
    requires j < |q| && q[j] == w[|w| - 1]
    ensures i <= j && q[i] == w[0]
    ensures |w| >= 2 ==> i < j
    decreases |w|
  {
    if |w| == 1 {
      i := j;
    } else {
      var p := w[|w| - 2];
      assert (w[|w| - 2], w[|w| - 2 + 1]) in E;
      assert p in q[..j];
      var k :| 0 <= k < j && q[..j][k] == p;
      i := WalkIsPlaced(E, q, w[..|w| - 1], k);
    }
  }

  lemma PlacedIsNotBlocked(E: Edges, q: seq<nat>, v: nat)
    requires Distinct(q) && ParentsFirst(E, q) && v in q
    ensures !Blocked(E, v)
  {
    if Blocked(E, v) {
      var c, w :| IsCycle(E, c) && IsWalk(E, w) && w[0] == c[0] && w[|w| - 1] == v;
      var j :| 0 <= j < |q| && q[j] == v;
      var i := WalkIsPlaced(E, q, w, j);
      var k := WalkIsPlaced(E, q, c, i);
    }
  }

  /** From a page that no legal step can place, edges lead backwards forever. */
  lemma {:induction false} BackwardWalk(n: nat, E: Edges, seen: set<nat>, v: nat, len: nat) returns (w: seq<nat>)
    requires WellFormed(n, E) && Ready(n, E, seen) == {}
    requires v < n && v !in seen
    ensures |w| == len + 1 && IsWalk(E, w) && w[len] == v
    ensures forall x | x in w :: x < n && x !in seen
    decreases len
  {
    if len == 0 {
      w := [v];
    } else {
      assert !(Parents(E, v) <= seen) by { assert v !in Ready(n, E, seen); }
      var p :| p in Parents(E, v) && p !in seen;
      var r := BackwardWalk(n, E, seen, p, len - 1);
      w := r + [v];
      forall i | 0 <= i < |w| - 1 ensures (w[i], w[i + 1]) in E {
        if i < |r| - 1 { assert (r[i], r[i + 1]) in E; }
      }
    }
  }

  lemma Pigeonhole(n: nat, w: seq<nat>) returns (i: nat, j: nat)
    requires |w| > n && forall x | x in w :: x < n
    ensures i < j < |w| && w[i] == w[j]
  {
    if Distinct(w) {
      DistinctSize(w);
      SubsetSize(Elements(w), Nodes(n));
      assert false;
    }
    i, j :| 0 <= i < j < |w| && w[i] == w[j];
  }

  lemma UnplacedIsBlocked(n: nat, E: Edges, seen: set<nat>, v: nat)
    requires WellFormed(n, E) && Ready(n, E, seen) == {}
    requires v < n && v !in seen
    ensures Blocked(E, v) && HasCycle(E)
  {
    var w := BackwardWalk(n, E, seen, v, n);
    var i, j := Pigeonhole(n, w);
    var c, t := w[i..j + 1], w[i..];
    assert IsCycle(E, c);
    assert IsWalk(E, t) && t[0] == c[0] && t[|t| - 1] == v;
  }

  /** The heap phase places exactly the pages that are neither on a cycle nor reachable from one. */
  lemma EmittedIffNotBlocked(n: nat, E: Edges, v: nat)
    requires WellFormed(n, E) && v < n
    ensures v in Emitted(n, E) <==> !Blocked(E, v)
  {
    EmitIsLegal(n, E, {});
    var q := Emitted(n, E);
    LegalIsOrdered(n, E, q);
    assert {} + Elements(q) == Elements(q);
    if v in q {
      PlacedIsNotBlocked(E, q, v);
    } else {
      UnplacedIsBlocked(n, E, Elements(q), v);
    }
  }

  lemma SomeNodeIsMissing(n: nat, q: seq<nat>) returns (v: nat)
    requires Distinct(q) && |q| < n
    ensures v < n && v !in q
  {
    DistinctSize(q);
    if forall v | v in Nodes(n) :: v in Elements(q) {
      SubsetSize(Nodes(n), Elements(q));
      assert false;
    }
    v :| v in Nodes(n) && v !in Elements(q);
  }

  lemma MissingNodeMeansFewer(n: nat, q: seq<nat>, v: nat)
    requires Distinct(q) && (forall u | u in q :: u < n) && v < n && v !in q
    ensures |q| < n
  {
    DistinctSize(q);
    SubsetSize(Elements(q), Nodes(n) - {v});
  }

  lemma CycleNodeIsBlocked(E: Edges, c: seq<nat>)
    requires IsCycle(E, c)
    ensures Blocked(E, c[0])
  {
    assert IsWalk(E, [c[0]]) && [c[0]][|[c[0]]| - 1] == c[0];
  }

  /** The cycle warning fires exactly when some pages are left over, that is, when there is a cycle. */
  lemma LeftoverIffCycle(n: nat, E: Edges)
    requires WellFormed(n, E)
    ensures |Emitted(n, E)| <= n
    ensures |Emitted(n, E)| < n <==> HasCycle(E)
  {
    EmitIsLegal(n, E, {});
    var q := Emitted(n, E);
    LegalIsOrdered(n, E, q);
    assert {} + Elements(q) == Elements(q);
    DistinctSize(q);
    SubsetSize(Elements(q), Nodes(n));
    if |q| < n {
      var v := SomeNodeIsMissing(n, q);
      UnplacedIsBlocked(n, E, Elements(q), v);
    }
    if HasCycle(E) {
      var c :| IsCycle(E, c);
      assert (c[0], c[1]) in E;
      CycleNodeIsBlocked(E, c);
      EmittedIffNotBlocked(n, E, c[0]);
      MissingNodeMeansFewer(n, q, c[0]);
    }
  }

  // ----- The whole order -----

  lemma {:induction false} RemainingIsFilter(n: nat, seen: set<nat>, from: nat)
    ensures Distinct(Remaining(n, seen, from))
    ensures forall v :: v in Remaining(n, seen, from) <==> from <= v < n && v !in seen
    ensures forall i, j | 0 <= i < j < |Remaining(n, seen, from)| ::
              Remaining(n, seen, from)[i] < Remaining(n, seen, from)[j]
    decreases n - from
  {
    if from >= n {
    } else {
      RemainingIsFilter(n, seen, from + 1);
      if from !in seen { PrependLess(from, Remaining(n, seen, from + 1)); }
    }
  }

  lemma PrependLess(x: nat, s: seq<nat>)
    requires forall v | v in s :: x < v
    requires forall i, j | 0 <= i < j < |s| :: s[i] < s[j]
    ensures forall i, j | 0 <= i < j < |s| + 1 :: ([x] + s)[i] < ([x] + s)[j]
    ensures forall v :: v in [x] + s <==> v == x || v in s
  {
    forall i, j | 0 <= i < j < |s| + 1 ensures ([x] + s)[i] < ([x] + s)[j] {
      assert ([x] + s)[j] == s[j - 1] && s[j - 1] in s;
    }
  }

  /** For every edge relation, the order is a permutation: first the pages no cycle blocks, with
      every declaring parent before its children, then the blocked ones in input order. */
  lemma OrderIsPermutation(n: nat, E: Edges)
    requires WellFormed(n, E)
    ensures IsPermutation(n, Order(n, E))
    ensures Emitted(n, E) <= Order(n, E) && ParentsFirst(E, Emitted(n, E))
    ensures forall i, j | |Emitted(n, E)| <= i < j < n :: Order(n, E)[i] < Order(n, E)[j]
    ensures forall i | 0 <= i < n :: Blocked(E, Order(n, E)[i]) <==> i >= |Emitted(n, E)|
  {
    EmitIsLegal(n, E, {});
    var q := Emitted(n, E);
    LegalIsOrdered(n, E, q);
    OrderCovers(n, E);
    var o := Order(n, E);
    forall i | 0 <= i < n ensures Blocked(E, o[i]) <==> i >= |q| {
      assert o[i] in o;
      EmittedIffNotBlocked(n, E, o[i]);
      if i >= |q| { assert o[i] in Remaining(n, Elements(q), 0); }
    }
  }

  lemma OrderCovers(n: nat, E: Edges)
    requires Distinct(Emitted(n, E)) && forall v | v in Emitted(n, E) :: v < n
    ensures IsPermutation(n, Order(n, E))
    ensures forall v | v in Remaining(n, Elements(Emitted(n, E)), 0) :: v !in Emitted(n, E)
    ensures forall i, j | |Emitted(n, E)| <= i < j < n :: Order(n, E)[i] < Order(n, E)[j]
  {
    var q := Emitted(n, E);
    var rest := Remaining(n, Elements(q), 0);
    RemainingIsFilter(n, Elements(q), 0);
    DistinctConcat(q, rest);
    DistinctSize(q + rest);
    SameElements(n, q, rest);
  }

  lemma DistinctConcat(a: seq<nat>, b: seq<nat>)
    requires Distinct(a) && Distinct(b) && forall v | v in b :: v !in a
    ensures Distinct(a + b)
  {
    var o := a + b;
    forall i, j | 0 <= i < j < |o| ensures o[i] != o[j] {
      if i < |a| <= j { assert o[i] in a && o[j] in b; }
    }
  }

  lemma SameElements(n: nat, a: seq<nat>, b: seq<nat>)
    requires forall v: nat :: v in a || v in b <==> v < n
    ensures Elements(a + b) == Nodes(n)
  {
    forall v | v in Nodes(n) ensures v in a + b {}
  }

  /** Without cycles, the order is the lexicographically least of all permutations that put every
      declaring parent before its children. */
  lemma AcyclicOrderIsLeast(n: nat, E: Edges)
    requires WellFormed(n, E) && !HasCycle(E)
    ensures IsPermutation(n, Order(n, E)) && ParentsFirst(E, Order(n, E))
    ensures forall q | IsPermutation(n, q) && ParentsFirst(E, q) :: LexLeq(Order(n, E), q)
  {
    LeftoverIffCycle(n, E);
    OrderIsPermutation(n, E);
    assert Order(n, E) == Emitted(n, E);
    forall q | IsPermutation(n, q) && ParentsFirst(E, q) ensures LexLeq(Order(n, E), q) {
      OrderedIsLegal(n, E, q, 0);
      assert q[0..] == q && Elements(q[..0]) == {};
      EmitIsLeast(n, E, {}, q);
    }
  }

  /** With or without cycles, no way of placing pages parents-first places a page the heap phase
      leaves out, and none as long is lexicographically smaller. */
  lemma EmittedIsGreatestAndLeast(n: nat, E: Edges, q: seq<nat>)
    requires WellFormed(n, E)
    requires Distinct(q) && ParentsFirst(E, q) && forall v | v in q :: v < n
    ensures Elements(q) <= Elements(Emitted(n, E))
    ensures |q| == |Emitted(n, E)| ==> LexLeq(Emitted(n, E), q)
  {
    OrderedIsLegal(n, E, q, 0);
    assert q[0..] == q && Elements(q[..0]) == {};
    EmitIsLegal(n, E, {});
    var e := Emitted(n, E);
    assert {} + Elements(e) == Elements(e);
    LegalStaysInside(n, E, {}, q, Elements(e));
    if |q| == |e| { EmitIsLeast(n, E, {}, q); }
  }

  lemma {:induction false} EmitWithoutEdges(n: nat, k: nat)
    requires k <= n
    ensures Emit(n, {}, Nodes(k)) == Remaining(n, {}, k)
    decreases n - k
  {
    ReadyWithoutEdges(n, k);
    if k < n {
      EmitStep(n, {}, Nodes(k), k);
      EmitWithoutEdges(n, k + 1);
    }
  }

  lemma ReadyWithoutEdges(n: nat, k: nat)
    requires k <= n
    ensures k == n ==> Ready(n, {}, Nodes(k)) == {}
    ensures k < n ==> k in Ready(n, {}, Nodes(k)) && forall v | v in Ready(n, {}, Nodes(k)) :: k <= v
    ensures Nodes(k) + {k} == Nodes(k + 1)
  {
    var ready := Ready(n, {}, Nodes(k));
    assert forall v: nat :: Parents({}, v) == {};
    assert forall v: nat :: v in ready <==> k <= v < n;
  }

  lemma EmitStep(n: nat, E: Edges, seen: set<nat>, s: nat)
    requires s in Ready(n, E, seen) && forall x | x in Ready(n, E, seen) :: s <= x
    ensures Emit(n, E, seen) == [s] + Emit(n, E, seen + {s})
  {
    assert s == Least(Ready(n, E, seen));
  }

  lemma {:induction false} RemainingCounts(n: nat, from: nat)
    requires from <= n
    ensures |Remaining(n, {}, from)| == n - from
    ensures forall i | 0 <= i < n - from :: Remaining(n, {}, from)[i] == from + i
    decreases n - from
  {
    if from >= n {
    } else {
      RemainingCounts(n, from + 1);
    }
  }

  /** The shortcut for pages that declare no children agrees with what the loop would compute:
      the input order. */
  lemma OrderWithoutEdges(n: nat)
    ensures |Order(n, {})| == n && forall i | 0 <= i < n :: Order(n, {})[i] == i
  {
    assert Nodes(0) == {};
    EmitWithoutEdges(n, 0);
    RemainingCounts(n, 0);
    var q := Emitted(n, {});
    forall v: nat | v < n ensures v in Elements(q) { assert q[v] == v; }
    var r := Remaining(n, Elements(q), 0);
    assert r == [] || r[0] in r;
    RemainingIsFilter(n, Elements(q), 0);
    assert Order(n, {}) == q;
  }

  // ----- The algorithm -----

  /** Reading a `defaultdict(list)` and a `defaultdict(int)`. */
  function ListAt(m: map<nat, seq<nat>>, k: nat): seq<nat> { if k in m then m[k] else [] }

  function CountAt(m: map<nat, int>, k: nat): int { if k in m then m[k] else 0 }

  /** How many parents of `v` are still to be placed. */
  ghost function Pending(E: Edges, seen: set<nat>, v: nat): nat { |Parents(E, v) - seen| }

  ghost predicate IsReady(n: nat, E: Edges, seen: set<nat>, v: nat) {
    v < n && v !in seen && Pending(E, seen, v) == 0
  }

  /** Everything placed has its parents placed. */
  ghost predicate Closed(E: Edges, seen: set<nat>) {
    forall e | e in E :: e.1 in seen ==> e.0 in seen
  }

  /** For every page, `incoming` is the number of its parents not yet placed. */
  ghost predicate Counts(n: nat, E: Edges, seen: set<nat>, incoming: map<nat, int>) {
    forall v: nat | v < n :: v in incoming && incoming[v] == Pending(E, seen, v)
  }

  /** The heap holds each page that may come next, once. */
  ghost predicate Queued(n: nat, E: Edges, seen: set<nat>, heap: seq<nat>) {
    Distinct(heap) && forall v: nat :: v in heap <==> IsReady(n, E, seen, v)
  }

  lemma ReadyMeansNonePending(n: nat, E: Edges, seen: set<nat>, v: nat)
    ensures v in Ready(n, E, seen) <==> IsReady(n, E, seen, v)
  {
    if Parents(E, v) <= seen {
      assert Parents(E, v) - seen == {};
    } else {
      var p :| p in Parents(E, v) && p !in seen;
      assert p in Parents(E, v) - seen;
    }
  }

  lemma QueuedIsReady(n: nat, E: Edges, seen: set<nat>, heap: seq<nat>)
    requires Queued(n, E, seen, heap)
    ensures forall v: nat :: v in heap <==> v in Ready(n, E, seen)
    ensures heap == [] ==> Emit(n, E, seen) == []
  {
    forall v: nat ensures v in heap <==> v in Ready(n, E, seen) {
      ReadyMeansNonePending(n, E, seen, v);
    }
    if heap == [] { assert Ready(n, E, seen) == {}; }
  }

  /** Placing `s` lowers the count of each of its children by one, and of nothing else. */
  lemma PlacingReleases(n: nat, E: Edges, seen: set<nat>, s: nat, v: nat)
    requires WellFormed(n, E) && Closed(E, seen) && IsReady(n, E, seen, s)
    ensures Pending(E, seen + {s}, v) == Pending(E, seen, v) - (if (s, v) in E then 1 else 0)
    ensures (s, v) in E ==> v < n && v !in seen && v != s
  {
    var parents := Parents(E, v);
    if (s, v) in E {
      assert s in parents;
      assert parents - seen == (parents - (seen + {s})) + {s};
    } else {
      assert s !in parents;
      assert parents - seen == parents - (seen + {s});
    }
  }

  lemma PlacingKeepsClosed(n: nat, E: Edges, seen: set<nat>, s: nat)
    requires Closed(E, seen) && IsReady(n, E, seen, s)
    ensures Closed(E, seen + {s})
  {
    ReadyMeansNonePending(n, E, seen, s);
    forall e | e in E && e.1 == s ensures e.0 in seen {
      assert e.0 in Parents(E, s);
    }
  }

  lemma AddEdge(done: Edges, e: (nat, nat), v: nat)
    requires e !in done
    ensures |Parents(done + {e}, v)| == |Parents(done, v)| + (if v == e.1 then 1 else 0)
  {
    assert Parents(done + {e}, v) == Parents(done, v) + (if v == e.1 then {e.0} else {});
    assert v == e.1 ==> e.0 !in Parents(done, v);
  }

  ghost predicate Lists(E: Edges, adj: map<nat, seq<nat>>) {
    && (forall p: nat :: Distinct(ListAt(adj, p)))
    && (forall p: nat, c: nat :: c in ListAt(adj, p) <==> (p, c) in E)
  }

  ghost predicate Tallies(E: Edges, incoming: map<nat, int>) {
    forall v: nat :: CountAt(incoming, v) == |Parents(E, v)|
  }

  lemma ListsExtend(done: Edges, e: (nat, nat), adj: map<nat, seq<nat>>)
    requires e !in done && Lists(done, adj)
    ensures Lists(done + {e}, adj[e.0 := ListAt(adj, e.0) + [e.1]])
  {
    var l := ListAt(adj, e.0);
    assert e.1 !in l by { assert (e.0, e.1) == e; }
    DistinctConcat(l, [e.1]);
    var adj' := adj[e.0 := l + [e.1]];
    forall p: nat ensures Distinct(ListAt(adj', p)) {
      assert Distinct(ListAt(adj, p));
    }
    forall p: nat, c: nat ensures c in ListAt(adj', p) <==> (p, c) in done + {e} {
      assert c in ListAt(adj, p) <==> (p, c) in done;
    }
  }

  lemma TalliesExtend(done: Edges, e: (nat, nat), incoming: map<nat, int>)
    requires e !in done && Tallies(done, incoming)
    ensures Tallies(done + {e}, incoming[e.1 := CountAt(incoming, e.1) + 1])
  {
    forall v: nat ensures |Parents(done + {e}, v)| == |Parents(done, v)| + (if v == e.1 then 1 else 0) {
      AddEdge(done, e, v);
    }
  }

  /** Fills the adjacency lists and the counts of incoming edges.  The edges are taken in an
      arbitrary order, as iterating over a Python set does. */
  method BuildGraph(n: nat, edgeSet: Edges) returns (adj: map<nat, seq<nat>>, incoming: map<nat, int>)
    requires WellFormed(n, edgeSet)
    ensures Lists(edgeSet, adj)
    ensures forall v: nat | v < n :: v in incoming && incoming[v] == |Parents(edgeSet, v)|
  {
    adj, incoming := map[], map[];
    var rest := edgeSet;
    assert edgeSet - rest == {};
    while rest != {}
      invariant rest <= edgeSet && Lists(edgeSet - rest, adj) && Tallies(edgeSet - rest, incoming)
    {
      var e :| e in rest;
      ghost var done := edgeSet - rest;
      assert edgeSet - (rest - {e}) == done + {e};
      ListsExtend(done, e, adj);
      TalliesExtend(done, e, incoming);
      adj := adj[e.0 := ListAt(adj, e.0) + [e.1]];
      incoming := incoming[e.1 := CountAt(incoming, e.1) + 1];
      rest := rest - {e};
    }
    assert edgeSet - rest == edgeSet;
    for v := 0 to n
      invariant forall u: nat | u < v :: u in incoming
      invariant Tallies(edgeSet, incoming)
    {
      if v !in incoming { incoming := incoming[v := 0]; }
    }
  }

  /** `heapq.heappop`, as an abstract min-queue: removes one least entry. */
  method HeapPop(heap: seq<nat>) returns (least: nat, rest: seq<nat>)
    requires heap != []
    ensures least in heap && forall x | x in heap :: least <= x
    ensures multiset(rest) == multiset(heap) - multiset{least}
    ensures Distinct(heap) ==> Distinct(rest) && forall v: nat :: v in rest <==> v in heap && v != least
  {
    var at := 0;
    for i := 1 to |heap|
      invariant at < i && forall k | 0 <= k < i :: heap[at] <= heap[k]
    {
      if heap[i] < heap[at] { at := i; }
    }
    least, rest := heap[at], heap[..at] + heap[at + 1..];
    RemoveAt(heap, at);
  }

  lemma RemoveAt(q: seq<nat>, at: nat)
    requires at < |q|
    ensures multiset(q[..at] + q[at + 1..]) == multiset(q) - multiset{q[at]}
    ensures Distinct(q) ==> Distinct(q[..at] + q[at + 1..])
    ensures Distinct(q) ==> forall v: nat :: v in q[..at] + q[at + 1..] <==> v in q && v != q[at]
  {
    var r := q[..at] + q[at + 1..];
    assert q == q[..at] + [q[at]] + q[at + 1..];
    if Distinct(q) {
      DistinctCounts(q);
      DistinctCounts(r);
      forall v: nat ensures v in r <==> v in q && v != q[at] {
        assert v in r <==> v in multiset(r);
        assert v in q <==> v in multiset(q);
        assert multiset(q)[q[at]] == 1;
      }
    }
  }

  lemma {:induction false} DistinctCounts(q: seq<nat>)
    ensures Distinct(q) <==> forall v :: multiset(q)[v] <= 1
  {
    if q == [] {
    } else {
      var r, x := q[..|q| - 1], q[|q| - 1];
      DistinctCounts(r);
      assert q == r + [x];
      if Distinct(q) {
        assert x !in r;
      } else if Distinct(r) {
        assert x in r;
        assert multiset(q)[x] >= 2;
      } else {
        var v :| multiset(r)[v] > 1;
        assert multiset(q)[v] > 1;
      }
    }
  }

  /** `sorted(adj[s], key=index)`: the same children, each once. */
  lemma SortedChildren(q: seq<nat>)
    requires Distinct(q)
    ensures var r := Sorting.Sort(q, (a: nat, b: nat) => a <= b);
            Distinct(r) && forall v: nat :: v in r <==> v in q
  {
    var r := Sorting.Sort(q, (a: nat, b: nat) => a <= b);
    Sorting.SortIsOrderedPermutation(q, (a: nat, b: nat) => a <= b);
    DistinctCounts(q);
    DistinctCounts(r);
    forall v: nat ensures v in r <==> v in q {
      assert v in r <==> v in multiset(r);
      assert v in q <==> v in multiset(q);
    }
  }

  /** The heap phase and the fallback, on the graph of declared children. */
  method OrderNodes(n: nat, edgeSet: Edges) returns (out: seq<nat>, warned: bool)
    requires WellFormed(n, edgeSet)
    ensures out == Order(n, edgeSet)
    ensures warned <==> HasCycle(edgeSet)
  {
    var adj, incoming := BuildGraph(n, edgeSet);
    var heap := InitialHeap(n, edgeSet, incoming);
    out := [];
    var seen: set<nat> := {};
    ghost var todo := Emitted(n, edgeSet);
    while heap != []
      invariant seen == Elements(out) && seen <= Nodes(n) && Closed(edgeSet, seen)
      invariant Counts(n, edgeSet, seen, incoming)
      invariant Queued(n, edgeSet, seen, heap)
      invariant todo == Emit(n, edgeSet, seen) && out + todo == Emitted(n, edgeSet)
      decreases Nodes(n) - seen
    {
      var s, popped := HeapPop(heap);
      NextIsEmitted(n, edgeSet, seen, heap, s);
      Shift(out, s, todo);
      if s in seen { assert false; }  // a page enters the heap only once
      heap, incoming := PushChildren(n, edgeSet, seen, s, ListAt(adj, s), popped, incoming);
      out, seen, todo := out + [s], seen + {s}, todo[1..];
    }
    QueuedIsReady(n, edgeSet, seen, heap);
    assert out + todo == out;
    assert out == Emitted(n, edgeSet);
    SomeLeftIffCycle(n, edgeSet);
    warned := |seen| < n;
    out := AppendRemaining(n, seen, out);
  }

  lemma Shift(out: seq<nat>, s: nat, todo: seq<nat>)
    requires todo != [] && todo[0] == s
    ensures out + [s] + todo[1..] == out + todo
    ensures Elements(out + [s]) == Elements(out) + {s}
  {
  }

  lemma NextIsEmitted(n: nat, E: Edges, seen: set<nat>, heap: seq<nat>, s: nat)
    requires Queued(n, E, seen, heap) && s in heap && forall x | x in heap :: s <= x
    ensures Emit(n, E, seen) == [s] + Emit(n, E, seen + {s})
    ensures s in Nodes(n) - seen
  {
    QueuedIsReady(n, E, seen, heap);
    EmitStep(n, E, seen, s);
  }

  lemma SomeLeftIffCycle(n: nat, E: Edges)
    requires WellFormed(n, E)
    ensures |Elements(Emitted(n, E))| < n <==> HasCycle(E)
  {
    EmitIsLegal(n, E, {});
    LegalIsOrdered(n, E, Emitted(n, E));
    DistinctSize(Emitted(n, E));
    LeftoverIffCycle(n, E);
  }

  /** The pages left out, in input order. */
  method AppendRemaining(n: nat, seen: set<nat>, placed: seq<nat>) returns (out: seq<nat>)
    ensures out == placed + Remaining(n, seen, 0)
  {
    out := placed;
    for v := 0 to n
      invariant out + Remaining(n, seen, v) == placed + Remaining(n, seen, 0)
    {
      if v !in seen { out := out + [v]; }
    }
  }

  method InitialHeap(n: nat, edgeSet: Edges, incoming: map<nat, int>) returns (heap: seq<nat>)
    requires forall v: nat | v < n :: v in incoming && incoming[v] == |Parents(edgeSet, v)|
    ensures Counts(n, edgeSet, {}, incoming)
    ensures Queued(n, edgeSet, {}, heap)
  {
    heap := [];
    for v := 0 to n
      invariant Distinct(heap)
      invariant forall u: nat :: u in heap <==> u < v && |Parents(edgeSet, u)| == 0
    {
      if incoming[v] == 0 { heap := heap + [v]; }
    }
    forall v: nat ensures Pending(edgeSet, {}, v) == |Parents(edgeSet, v)| {
      assert Parents(edgeSet, v) - {} == Parents(edgeSet, v);
    }
  }

  /** The inner loop: counts down each child's incoming edges and pushes those that reach zero. */
  method PushChildren(n: nat, edgeSet: Edges, ghost seen: set<nat>, s: nat, children: seq<nat>,
                      heap: seq<nat>, incoming: map<nat, int>)
    returns (heap': seq<nat>, incoming': map<nat, int>)
    requires WellFormed(n, edgeSet) && Closed(edgeSet, seen) && IsReady(n, edgeSet, seen, s)
    requires Distinct(children) && forall c: nat :: c in children <==> (s, c) in edgeSet
    requires Distinct(heap) && forall v: nat :: v in heap <==> IsReady(n, edgeSet, seen, v) && v != s
    requires Counts(n, edgeSet, seen, incoming)
    ensures Queued(n, edgeSet, seen + {s}, heap') && Counts(n, edgeSet, seen + {s}, incoming')
    ensures Closed(edgeSet, seen + {s})
  {
    SortedChildren(children);
    var ordered := Sorting.Sort(children, (a: nat, b: nat) => a <= b);
    PlacingKeepsClosed(n, edgeSet, seen, s);
    forall c | c in ordered ensures c < n && c !in heap {
      PlacingReleases(n, edgeSet, seen, s, c);
      ReadyMeansNonePending(n, edgeSet, seen, c);
      assert s in Parents(edgeSet, c) by { assert (s, c) in edgeSet; }
    }
    heap', incoming' := CountDown(ordered, heap, incoming);
    CountsAfter(n, edgeSet, seen, s, ordered, incoming, incoming');
    QueuedAfter(n, edgeSet, seen, s, ordered, heap, heap', incoming);
  }

  lemma CountsAfter(n: nat, E: Edges, seen: set<nat>, s: nat, ordered: seq<nat>,
                    incoming: map<nat, int>, incoming': map<nat, int>)
    requires WellFormed(n, E) && Closed(E, seen) && IsReady(n, E, seen, s) && Counts(n, E, seen, incoming)
    requires forall v: nat :: v in ordered <==> (s, v) in E
    requires incoming'.Keys == incoming.Keys
    requires forall v | v in incoming :: incoming'[v] == incoming[v] - (if v in ordered then 1 else 0)
    ensures Counts(n, E, seen + {s}, incoming')
  {
    forall v: nat | v < n ensures incoming'[v] == Pending(E, seen + {s}, v) {
      PlacingReleases(n, E, seen, s, v);
    }
  }

  lemma QueuedAfter(n: nat, E: Edges, seen: set<nat>, s: nat, ordered: seq<nat>,
                    heap: seq<nat>, heap': seq<nat>, incoming: map<nat, int>)
    requires WellFormed(n, E) && Closed(E, seen) && IsReady(n, E, seen, s) && Counts(n, E, seen, incoming)
    requires forall v: nat :: v in ordered <==> (s, v) in E
    requires forall v: nat :: v in heap <==> IsReady(n, E, seen, v) && v != s
    requires forall v: nat | v in ordered :: v in incoming
    requires Distinct(heap') && forall v: nat :: v in heap' <==> v in heap || (v in ordered && incoming[v] == 1)
    ensures Queued(n, E, seen + {s}, heap')
  {
    forall v: nat ensures v in heap' <==> IsReady(n, E, seen + {s}, v) {
      PlacingReleases(n, E, seen, s, v);
      if (s, v) in E {
        assert v in ordered && incoming[v] == Pending(E, seen, v);
        assert Pending(E, seen, v) >= 1;
      }
    }
  }

  method CountDown(ordered: seq<nat>, heap: seq<nat>, incoming: map<nat, int>)
    returns (heap': seq<nat>, incoming': map<nat, int>)
    requires Distinct(ordered) && Distinct(heap) && forall c | c in ordered :: c in incoming && c !in heap
    ensures incoming'.Keys == incoming.Keys
    ensures forall v | v in incoming :: incoming'[v] == incoming[v] - (if v in ordered then 1 else 0)
    ensures Distinct(heap') && forall v: nat :: v in heap' <==> v in heap || (v in ordered && incoming[v] == 1)
  {
    heap', incoming' := heap, incoming;
    for k := 0 to |ordered|
      invariant incoming'.Keys == incoming.Keys
      invariant forall v | v in incoming :: incoming'[v] == incoming[v] - (if v in ordered[..k] then 1 else 0)
      invariant Distinct(heap') && forall v: nat :: v in heap' <==> v in heap || (v in ordered[..k] && incoming[v] == 1)
    {
      var c := ordered[k];
      assert c !in ordered[..k] && ordered[..k + 1] == ordered[..k] + [c];
      incoming' := incoming'[c := incoming'[c] - 1];
      if incoming'[c] == 0 { heap' := heap' + [c]; }
    }
    assert ordered[..|ordered|] == ordered;
  }
}
