/**
  Iteration order of the ordered containers the host keeps (std::set and std::map):
  they are walked from the least key upwards, and std::string keys compare
  lexicographically on unsigned bytes, a proper prefix first.
*/
module Order {
  import opened Wire

  /** The std::string order: bytes compared as unsigned char, a proper prefix first. */
  predicate LexLess(a: Bytes, b: Bytes)
  {
    if a == [] then b != []
    else if b == [] then false
    else a[0] < b[0] || (a[0] == b[0] && LexLess(a[1..], b[1..]))
  }

  lemma {:induction false} LexIrreflexive(a: Bytes)
    ensures !LexLess(a, a)
  {
    if a != [] {
      LexIrreflexive(a[1..]);
    }
  }

  lemma {:induction false} LexTransitive(a: Bytes, b: Bytes, c: Bytes)
    requires LexLess(a, b) && LexLess(b, c)
    ensures LexLess(a, c)
  {
    if a != [] && b != [] && c != [] && a[0] == b[0] == c[0] {
      LexTransitive(a[1..], b[1..], c[1..]);
    }
  }

  lemma {:induction false} LexTotal(a: Bytes, b: Bytes)
    ensures a == b || LexLess(a, b) || LexLess(b, a)
  {
    if a != [] && b != [] && a[0] == b[0] {
      LexTotal(a[1..], b[1..]);
      if a[1..] == b[1..] {
        assert a == [a[0]] + a[1..] && b == [b[0]] + b[1..];
      }
    }
  }

  // ---------------------------------------------------------------------------
  // Strict total orders and sorted enumeration of a finite set

  ghost predicate StrictTotalOrder<T(!new)>(less: (T, T) -> bool)
  {
    && (forall x :: !less(x, x))
    && (forall x, y, z :: less(x, y) && less(y, z) ==> less(x, z))
    && (forall x, y :: x == y || less(x, y) || less(y, x))
  }

  lemma LexLessIsStrictTotalOrder()
    ensures StrictTotalOrder(LexLess)
  {
    forall x: Bytes ensures !LexLess(x, x) {
      LexIrreflexive(x);
    }
    forall x: Bytes, y: Bytes, z: Bytes | LexLess(x, y) && LexLess(y, z) ensures LexLess(x, z) {
      LexTransitive(x, y, z);
    }
    forall x: Bytes, y: Bytes ensures x == y || LexLess(x, y) || LexLess(y, x) {
      LexTotal(x, y);
    }
  }

  ghost predicate Sorted<T>(s: seq<T>, less: (T, T) -> bool)
  {
    forall i, j :: 0 <= i < j < |s| ==> less(s[i], s[j])
  }

  ghost predicate IsMin<T>(m: T, s: set<T>, less: (T, T) -> bool)
  {
    m in s && forall y :: y in s && y != m ==> less(m, y)
  }

  lemma {:induction false} MinExists<T(!new)>(s: set<T>, less: (T, T) -> bool)
    requires s != {} && StrictTotalOrder(less)
    ensures exists m :: IsMin(m, s, less)
    decreases s
  {
    var x :| x in s;
    if s - {x} == {} {
      assert s == {x};
      assert IsMin(x, s, less);
    } else {
      MinExists(s - {x}, less);
      var m :| IsMin(m, s - {x}, less);
      if less(x, m) {
        forall y | y in s && y != x ensures less(x, y) {
          if y != m {
            assert less(m, y);
          }
        }
        assert IsMin(x, s, less);
      } else {
        assert IsMin(m, s, less);
      }
    }
  }

  ghost function Min<T(!new)>(s: set<T>, less: (T, T) -> bool): (m: T)
    requires s != {} && StrictTotalOrder(less)
    ensures IsMin(m, s, less)
  {
    MinExists(s, less);
    var m :| IsMin(m, s, less);
    m
  }

  /** The elements of a finite set in ascending order: the order a std::set is walked in. */
  ghost function SortedSeq<T(!new)>(s: set<T>, less: (T, T) -> bool): seq<T>
    requires StrictTotalOrder(less)
    decreases s
  {
    if s == {} then []
    else
      var m := Min(s, less);
      [m] + SortedSeq(s - {m}, less)
  }

  /** The enumeration is ascending and holds exactly the elements of the set. */
  lemma {:induction false} SortedSeqFacts<T(!new)>(s: set<T>, less: (T, T) -> bool)
    requires StrictTotalOrder(less)
    ensures Sorted(SortedSeq(s, less), less) && |SortedSeq(s, less)| == |s|
    ensures forall x :: x in SortedSeq(s, less) <==> x in s
    decreases s
  {
    if s != {} {
      var m := Min(s, less);
      var tail := SortedSeq(s - {m}, less);
      SortedSeqFacts(s - {m}, less);
      var r := [m] + tail;
      assert SortedSeq(s, less) == r;
      forall i, j | 0 <= i < j < |r| ensures less(r[i], r[j]) {
        assert r[j] == tail[j - 1] && r[j] in s - {m};
        if i > 0 {
          assert r[i] == tail[i - 1];
        }
      }
    }
  }

  lemma MinUnique<T(!new)>(m1: T, m2: T, s: set<T>, less: (T, T) -> bool)
    requires StrictTotalOrder(less)
    requires IsMin(m1, s, less) && IsMin(m2, s, less)
    ensures m1 == m2
  {
    if m1 != m2 {
      assert false;
    }
  }

  lemma SortedHeadIsMin<T(!new)>(a: seq<T>, less: (T, T) -> bool)
    requires Sorted(a, less) && a != []
    ensures IsMin(a[0], (set x | x in a), less)
  {
    forall y | y in a && y != a[0] ensures less(a[0], y) {
      var i :| 0 <= i < |a| && a[i] == y;
    }
  }

  lemma SortedTail<T(!new)>(a: seq<T>, less: (T, T) -> bool)
    requires StrictTotalOrder(less)
    requires Sorted(a, less) && a != []
    ensures (set x | x in a) - {a[0]} == set x | x in a[1..]
  {
    forall x | x in a[1..] ensures x != a[0] {
      var i :| 1 <= i < |a| && a[i] == x;
      assert less(a[0], a[i]);
    }
  }

  /** A strictly ascending sequence is the ascending enumeration of its elements. */
  lemma {:induction false} SortedIsSortedSeq<T(!new)>(a: seq<T>, less: (T, T) -> bool)
    requires StrictTotalOrder(less)
    requires Sorted(a, less)
    ensures a == SortedSeq((set x | x in a), less)
  {
    if a != [] {
      var s := set x | x in a;
      SortedHeadIsMin(a, less);
      var m := Min(s, less);
      MinUnique(m, a[0], s, less);
      SortedTail(a, less);
      SortedIsSortedSeq(a[1..], less);
      assert SortedSeq(s, less) == [m] + SortedSeq(s - {m}, less);
      assert a == [a[0]] + a[1..];
    }
  }

  // ---------------------------------------------------------------------------
  // Draining a set from its least element upwards, as the host's
  // `while (!s.empty()) { it = s.begin(); ...; s.erase(it); }` loops do

  /** `done` holds, in ascending order, the elements of `all` taken so far, and `left` the rest. */
  ghost predicate DrainedInOrder<T(!new)>(done: seq<T>, left: set<T>, all: set<T>, less: (T, T) -> bool)
  {
    && Sorted(done, less)
    && (forall x :: x in all <==> x in done || x in left)
    && (forall i :: 0 <= i < |done| ==> done[i] !in left)
    && (forall i, y :: 0 <= i < |done| && y in left ==> less(done[i], y))
  }

  lemma DrainStart<T(!new)>(all: set<T>, less: (T, T) -> bool)
    ensures DrainedInOrder([], all, all, less)
  {
  }

  lemma DrainStep<T(!new)>(done: seq<T>, left: set<T>, all: set<T>, m: T, less: (T, T) -> bool)
    requires StrictTotalOrder(less)
    requires DrainedInOrder(done, left, all, less)
    requires IsMin(m, left, less)
    ensures DrainedInOrder(done + [m], left - {m}, all, less)
  {
    var d := done + [m];
    forall i, j | 0 <= i < j < |d| ensures less(d[i], d[j]) {
      if j < |done| {
        assert d[i] == done[i] && d[j] == done[j];
      } else {
        assert d[j] == m && d[i] == done[i];
      }
    }
  }

  lemma DrainEnd<T(!new)>(done: seq<T>, all: set<T>, less: (T, T) -> bool)
    requires StrictTotalOrder(less)
    requires DrainedInOrder(done, {}, all, less)
    ensures done == SortedSeq(all, less)
  {
    assert all == set x | x in done;
    SortedIsSortedSeq(done, less);
  }

  /** Part-way through, what was taken followed by the rest in order is the whole enumeration. */
  lemma DrainPrefix<T(!new)>(done: seq<T>, left: set<T>, all: set<T>, less: (T, T) -> bool)
    requires StrictTotalOrder(less)
    requires DrainedInOrder(done, left, all, less)
    ensures done + SortedSeq(left, less) == SortedSeq(all, less)
  {
    var rest := SortedSeq(left, less);
    SortedSeqFacts(left, less);
    var s := done + rest;
    forall i, j | 0 <= i < j < |s| ensures less(s[i], s[j]) {
      if j < |done| {
        assert s[i] == done[i] && s[j] == done[j];
      } else if i < |done| {
        assert s[i] == done[i] && s[j] == rest[j - |done|] && s[j] in left;
      } else {
        assert s[i] == rest[i - |done|] && s[j] == rest[j - |done|];
      }
    }
    assert (set x | x in s) == all;
    SortedIsSortedSeq(s, less);
  }

  /** Finds the least element of a non-empty set, as `begin()` on an ordered container. */
  method PickMin<T(==,!new)>(s: set<T>, less: (T, T) -> bool) returns (m: T)
    requires s != {}
    requires StrictTotalOrder(less)
    ensures IsMin(m, s, less)
  {
    m :| m in s;
    var rest := s - {m};
    while rest != {}
      invariant rest <= s && m in s && m !in rest
      invariant forall y :: y in s && y !in rest && y != m ==> less(m, y)
      decreases rest
    {
      var y :| y in rest;
      if less(y, m) {
        m := y;
      }
      rest := rest - {y};
    }
  }

  // ---------------------------------------------------------------------------
  // The same, specialised to std::string keys.  Callers use these so that the
  // order's axioms stay out of their own proof context.

  /** The keys of a std::set<std::string> or std::map<std::string, _> in iteration order. */
  ghost function SortedNames(s: set<Bytes>): (r: seq<Bytes>)
    ensures |r| == |s|
    ensures forall n :: n in r ==> n in s
  {
    LexLessIsStrictTotalOrder();
    SortedSeqFacts(s, LexLess);
    SortedSeq(s, LexLess)
  }

  /** `begin()` of a non-empty set of names. */
  method PickLeastName(s: set<Bytes>) returns (m: Bytes)
    requires s != {}
    ensures IsMin(m, s, LexLess)
  {
    LexLessIsStrictTotalOrder();
    m := PickMin(s, LexLess);
  }

  lemma NameDrainStep(done: seq<Bytes>, left: set<Bytes>, all: set<Bytes>, m: Bytes)
    requires DrainedInOrder(done, left, all, LexLess)
    requires IsMin(m, left, LexLess)
    ensures DrainedInOrder(done + [m], left - {m}, all, LexLess)
  {
    LexLessIsStrictTotalOrder();
    DrainStep(done, left, all, m, LexLess);
  }

  lemma NameDrainPrefix(done: seq<Bytes>, left: set<Bytes>, all: set<Bytes>)
    requires DrainedInOrder(done, left, all, LexLess)
    ensures |done| + |left| == |all| && done == SortedNames(all)[..|done|]
  {
    LexLessIsStrictTotalOrder();
    SortedSeqFacts(left, LexLess);
    SortedSeqFacts(all, LexLess);
    DrainPrefix(done, left, all, LexLess);
    assert (done + SortedSeq(left, LexLess))[..|done|] == done;
  }

  lemma NameDrainEnd(done: seq<Bytes>, all: set<Bytes>)
    requires DrainedInOrder(done, {}, all, LexLess)
    ensures done == SortedNames(all)
  {
    LexLessIsStrictTotalOrder();
    DrainEnd(done, all, LexLess);
  }
}
