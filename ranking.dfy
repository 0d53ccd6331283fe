/**
 * `filtered.sort((a, b) => (a.distance || 0) - (b.distance || 0))`: a stable
 * ascending sort on the distance key. SortByDistance is the reference
 * (insertion from the right, shifting only strictly larger keys);
 * SortInPlace is the array algorithm proved equal to it.
 */
module Ranking {
  import opened Wrappers
  import opened Sequences
  import opened SpecialistModel

  /** `(s.distance || 0)`: a missing distance compares as 0. */
  function DistanceKey(s: Specialist): real
  {
    match s.distance
    case Some(d) => d
    case None => 0.0
  }

  /** Keys never decrease from left to right. */
  predicate SortedByDistance(s: seq<Specialist>)
  {
    forall i, j :: 0 <= i < j < |s| ==> DistanceKey(s[i]) <= DistanceKey(s[j])
  }

  /** The records with distance key `k`, in their order in `s`. */
  function AtDistance(s: seq<Specialist>, k: real): seq<Specialist>
  {
    Filter(s, HasKey(k))
  }

  /** The test "has distance key `k`" as a filter predicate. */
  function HasKey(k: real): Specialist -> bool
  {
    x => DistanceKey(x) == k
  }

  /** `b` keeps the relative order `a` gives to every group of records with equal key. */
  ghost predicate SameTieOrder(a: seq<Specialist>, b: seq<Specialist>)
  {
    forall k :: AtDistance(a, k) == AtDistance(b, k)
  }

  /** Inserts `x` into `t` after every element whose key is at most that of `x`. */
  function Insert(t: seq<Specialist>, x: Specialist): seq<Specialist>
  {
    if t == [] then [x]
    else if DistanceKey(t[|t| - 1]) <= DistanceKey(x) then t + [x]
    else Insert(t[..|t| - 1], x) + [t[|t| - 1]]
  }

  /** Stable insertion sort by distance key. */
  function SortByDistance(s: seq<Specialist>): seq<Specialist>
  {
    if s == [] then [] else Insert(SortByDistance(s[..|s| - 1]), s[|s| - 1])
  }

  /** Insertion adds exactly the inserted element. */
  lemma {:induction false} InsertMultiset(t: seq<Specialist>, x: Specialist)
    ensures multiset(Insert(t, x)) == multiset(t) + multiset{x}
  {
    if t != [] && DistanceKey(t[|t| - 1]) > DistanceKey(x) {
      InsertMultiset(t[..|t| - 1], x);
      assert t == t[..|t| - 1] + [t[|t| - 1]];
    }
  }

  /** Insertion into a sorted sequence keeps it sorted. */
  lemma {:induction false} InsertSorted(t: seq<Specialist>, x: Specialist)
    requires SortedByDistance(t)
    ensures SortedByDistance(Insert(t, x))
  {
    if t != [] && DistanceKey(t[|t| - 1]) > DistanceKey(x) {
      var init, last := t[..|t| - 1], t[|t| - 1];
      InsertSorted(init, x);
      InsertMultiset(init, x);
      var u := Insert(init, x);
      forall i | 0 <= i < |u| ensures DistanceKey(u[i]) <= DistanceKey(last) {
        assert u[i] in multiset(u);
        assert u[i] in init || u[i] == x;
      }
    }
  }

  /** Insertion appends `x` to its own key group and leaves every other group alone. */
  lemma {:induction false} InsertTieOrder(t: seq<Specialist>, x: Specialist, k: real)
    ensures AtDistance(Insert(t, x), k) == AtDistance(t, k) + AtDistance([x], k)
  {
    var p := HasKey(k);
    if t == [] {
    } else if DistanceKey(t[|t| - 1]) <= DistanceKey(x) {
      FilterAppend(t, [x], p);
    } else {
      var init, last := t[..|t| - 1], t[|t| - 1];
      InsertTieOrder(init, x, k);
      FilterAppend(Insert(init, x), [last], p);
      FilterAppend(init, [last], p);
      assert init + [last] == t;
      // `x` and `last` have different keys, so at most one of them is kept
      SingleFilter(x, k);
      SingleFilter(last, k);
    }
  }

  /** A one-element sequence keeps its element exactly when the key matches. */
  lemma SingleFilter(x: Specialist, k: real)
    ensures AtDistance([x], k) == if DistanceKey(x) == k then [x] else []
  {
    assert [x][1..] == [];
    assert Filter([x][1..], HasKey(k)) == [];
  }

  /** The reference sort is a permutation of its input. */
  lemma {:induction false} SortPermutes(s: seq<Specialist>)
    ensures multiset(SortByDistance(s)) == multiset(s)
  {
    if s != [] {
      var init, last := s[..|s| - 1], s[|s| - 1];
      SortPermutes(init);
      InsertMultiset(SortByDistance(init), last);
      assert s == init + [last];
      calc {
        multiset(SortByDistance(s));
        multiset(Insert(SortByDistance(init), last));
        multiset(init) + multiset{last};
        multiset(init + [last]);
      }
    }
  }

  /** The reference sort orders by ascending distance key. */
  lemma {:induction false} SortSorts(s: seq<Specialist>)
    ensures SortedByDistance(SortByDistance(s))
  {
    if s != [] {
      SortSorts(s[..|s| - 1]);
      InsertSorted(SortByDistance(s[..|s| - 1]), s[|s| - 1]);
    }
  }

  /** The reference sort is stable: records with equal key keep their relative order. */
  lemma {:induction false} SortIsStable(s: seq<Specialist>)
    ensures SameTieOrder(s, SortByDistance(s))
  {
    if s != [] {
      var init, last := s[..|s| - 1], s[|s| - 1];
      SortIsStable(init);
      forall k ensures AtDistance(s, k) == AtDistance(SortByDistance(s), k) {
        InsertTieOrder(SortByDistance(init), last, k);
        FilterAppend(init, [last], HasKey(k));
        assert init + [last] == s;
      }
    }
  }

  /** A sequence already in order is left as it is. */
  lemma {:induction false} SortKeepsSorted(s: seq<Specialist>)
    requires SortedByDistance(s)
    ensures SortByDistance(s) == s
  {
    if s != [] {
      SortKeepsSorted(s[..|s| - 1]);
      assert s[..|s| - 1] + [s[|s| - 1]] == s;
    }
  }

  /** In a sorted sequence the last element has the largest key. */
  lemma LastIsLargest(s: seq<Specialist>, y: Specialist)
    requires SortedByDistance(s) && y in s
    ensures DistanceKey(y) <= DistanceKey(s[|s| - 1])
  {
  }

  /** Dropping the last element drops it from its own key group only. */
  lemma AtDistanceDropLast(s: seq<Specialist>, k: real)
    requires s != []
    ensures AtDistance(s, k) == AtDistance(s[..|s| - 1], k) + AtDistance([s[|s| - 1]], k)
  {
    assert s == s[..|s| - 1] + [s[|s| - 1]];
    FilterAppend(s[..|s| - 1], [s[|s| - 1]], HasKey(k));
  }

  /** A non-empty sequence has a non-empty key group. */
  lemma NonEmptyGroup(s: seq<Specialist>)
    requires s != []
    ensures AtDistance(s, DistanceKey(s[0])) != []
  {
  }

  /** Sorted sequences with the same key groups end in the same element. */
  lemma SameLast(a: seq<Specialist>, b: seq<Specialist>)
    requires a != [] && b != []
    requires SortedByDistance(a) && SortedByDistance(b) && SameTieOrder(a, b)
    ensures a[|a| - 1] == b[|b| - 1]
  {
    var la, lb := a[|a| - 1], b[|b| - 1];
    var ka, kb := DistanceKey(la), DistanceKey(lb);
    FilterMembers(a, HasKey(ka), la);
    FilterMembers(b, HasKey(ka), la);
    assert AtDistance(a, ka) == AtDistance(b, ka);
    LastIsLargest(b, la);
    FilterMembers(a, HasKey(kb), lb);
    FilterMembers(b, HasKey(kb), lb);
    assert AtDistance(a, kb) == AtDistance(b, kb);
    LastIsLargest(a, lb);
    AtDistanceDropLast(a, ka);
    AtDistanceDropLast(b, ka);
    SingleFilter(la, ka);
    SingleFilter(lb, ka);
    var x, y := AtDistance(a[..|a| - 1], ka), AtDistance(b[..|b| - 1], ka);
    assert x + [la] == y + [lb];
    assert la == (x + [la])[|x|] == (y + [lb])[|y|] == lb;
  }

  /** Removing a common last element keeps the key groups equal. */
  lemma SameTieOrderDropLast(a: seq<Specialist>, b: seq<Specialist>)
    requires a != [] && b != [] && a[|a| - 1] == b[|b| - 1]
    requires SameTieOrder(a, b)
    ensures SameTieOrder(a[..|a| - 1], b[..|b| - 1])
  {
    var last, a', b' := a[|a| - 1], a[..|a| - 1], b[..|b| - 1];
    forall k ensures AtDistance(a', k) == AtDistance(b', k) {
      AtDistanceDropLast(a, k);
      AtDistanceDropLast(b, k);
      var x, y := AtDistance(a', k), AtDistance(b', k);
      assert x + AtDistance([last], k) == y + AtDistance([last], k);
      assert x == (x + AtDistance([last], k))[..|x|];
      assert y == (y + AtDistance([last], k))[..|y|];
    }
  }

  /**
   * Two sorted sequences that agree on the order of every key group are
   * equal: a stable sort by distance has exactly one possible result.
   */
  lemma {:induction false} StableSortUnique(a: seq<Specialist>, b: seq<Specialist>)
    requires SortedByDistance(a) && SortedByDistance(b) && SameTieOrder(a, b)
    ensures a == b
    decreases |a| + |b|
  {
    if a == [] || b == [] {
      if a != [] {
        NonEmptyGroup(a);
        assert false;
      }
      if b != [] {
        NonEmptyGroup(b);
        assert false;
      }
    } else {
      SameLast(a, b);
      SameTieOrderDropLast(a, b);
      StableSortUnique(a[..|a| - 1], b[..|b| - 1]);
      assert a == a[..|a| - 1] + [a[|a| - 1]];
      assert b == b[..|b| - 1] + [b[|b| - 1]];
    }
  }

  /**
   * Whatever stable ascending sort produces the order, the result is
   * SortByDistance: any sorted sequence that keeps each key group of `s` in
   * order is it.
   */
  lemma StableSortIsReference(s: seq<Specialist>, r: seq<Specialist>)
    requires SortedByDistance(r) && SameTieOrder(s, r)
    ensures r == SortByDistance(s)
  {
    SortSorts(s);
    SortIsStable(s);
    StableSortUnique(r, SortByDistance(s));
  }

  /** One more element of the input is one more insertion. */
  lemma SortStep(s: seq<Specialist>, i: nat)
    requires i < |s|
    ensures SortByDistance(s[..i + 1]) == Insert(SortByDistance(s[..i]), s[i])
  {
    assert s[..i + 1][..i] == s[..i];
  }

  /**
   * Inserting `x` puts it right after the last element whose key is at most
   * its own, when every element from `j` on has a strictly larger key.
   */
  lemma {:induction false} InsertAt(t: seq<Specialist>, x: Specialist, j: nat)
    requires j <= |t|
    requires j == 0 || DistanceKey(t[j - 1]) <= DistanceKey(x)
    requires forall k :: j <= k < |t| ==> DistanceKey(t[k]) > DistanceKey(x)
    ensures Insert(t, x) == t[..j] + [x] + t[j..]
  {
    if j < |t| {
      var init := t[..|t| - 1];
      InsertAt(init, x, j);
      assert init[..j] == t[..j];
      assert t[j..] == init[j..] + [t[|t| - 1]];
    } else {
      assert t[..j] == t;
    }
  }

  /** Moves `a[i]` left past every strictly larger key: one step of insertion sort. */
  method InsertInPlace(a: array<Specialist>, i: nat)
    requires i < a.Length
    modifies a
    ensures a[..i + 1] == Insert(old(a[..i]), old(a[i]))
    ensures a[i + 1..] == old(a[i + 1..])
  {
    var x := a[i];
    ghost var t := a[..i];
    var j := i;
    while j > 0 && DistanceKey(a[j - 1]) > DistanceKey(x)
      invariant 0 <= j <= i
      invariant forall k :: 0 <= k < j ==> a[k] == t[k]
      invariant forall k :: j < k <= i ==> a[k] == t[k - 1]
      invariant a[i + 1..] == old(a[i + 1..])
      invariant forall k :: j <= k < i ==> DistanceKey(t[k]) > DistanceKey(x)
    {
      a[j] := a[j - 1];
      j := j - 1;
    }
    a[j] := x;
    Assemble(a[..], t, x, j);
    InsertAt(t, x, j);
  }

  /** The array after the shifts and the final write holds `t` with `x` put in at `j`. */
  lemma Assemble(b: seq<Specialist>, t: seq<Specialist>, x: Specialist, j: nat)
    requires j <= |t| < |b|
    requires forall k :: 0 <= k < j ==> b[k] == t[k]
    requires b[j] == x
    requires forall k :: j < k <= |t| ==> b[k] == t[k - 1]
    ensures b[..|t| + 1] == t[..j] + [x] + t[j..]
  {
  }

  /** Sorts `a` in place by insertion, the way the reference sort orders it. */
  method SortInPlace(a: array<Specialist>)
    modifies a
    ensures a[..] == SortByDistance(old(a[..]))
  {
    ghost var s := a[..];
    var i := 0;
    while i < a.Length
      invariant 0 <= i <= a.Length
      invariant a[..i] == SortByDistance(s[..i])
      invariant a[i..] == s[i..]
    {
      assert a[i] == s[i];
      InsertInPlace(a, i);
      SortStep(s, i);
      assert a[i + 1..] == s[i + 1..];
      i := i + 1;
    }
    assert a[..] == a[..a.Length];
    assert s == s[..a.Length];
  }
}
