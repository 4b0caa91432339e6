/** Stable insertion sort over an arbitrary strict weak order.  It is the meaning given to
    SQL's ORDER BY over insertion order, to sort.SliceStable, and to the in-place insertion
    sort of the incident list. */
module StableSort {
  import opened Sequences

  /** `before` is a strict weak order: it is asymmetric and incomparability is transitive. */
  ghost predicate WeakOrder<T(!new)>(before: (T, T) -> bool) {
    && (forall a, b :: before(a, b) ==> !before(b, a))
    && (forall a, b, c :: !before(a, b) && !before(b, c) ==> !before(a, c))
  }

  ghost predicate Sorted<T>(before: (T, T) -> bool, s: seq<T>) {
    forall i, j :: 0 <= i < j < |s| ==> !before(s[j], s[i])
  }

  /** Moves `x` left from the end of `s` past every element it strictly precedes. */
  function Insert<T>(before: (T, T) -> bool, s: seq<T>, x: T): (r: seq<T>)
    ensures |r| == |s| + 1
    ensures multiset(r) == multiset(s) + multiset{x}
  {
    if s == [] || !before(x, s[|s| - 1]) then s + [x]
    else
      assert s == s[..|s| - 1] + [s[|s| - 1]];
      Insert(before, s[..|s| - 1], x) + [s[|s| - 1]]
  }

  function Sort<T>(before: (T, T) -> bool, s: seq<T>): (r: seq<T>)
    ensures multiset(r) == multiset(s)
    ensures |r| == |s|
  {
    if s == [] then []
    else
      assert s == s[..|s| - 1] + [s[|s| - 1]];
      Insert(before, Sort(before, s[..|s| - 1]), s[|s| - 1])
  }

  lemma SortMembers<T>(before: (T, T) -> bool, s: seq<T>)
    ensures forall x :: x in Sort(before, s) <==> x in s
  {
    forall x ensures x in Sort(before, s) <==> x in s {
      assert x in multiset(s) <==> x in multiset(Sort(before, s));
    }
  }

  lemma InsertMembers<T>(before: (T, T) -> bool, s: seq<T>, x: T)
    ensures forall y :: y in Insert(before, s, x) <==> y in s || y == x
  {
    forall y ensures y in Insert(before, s, x) <==> y in s || y == x {
      assert y in multiset(Insert(before, s, x)) <==> y in multiset(s) || y == x;
    }
  }

  lemma {:induction false} InsertSorted<T(!new)>(before: (T, T) -> bool, s: seq<T>, x: T)
    requires WeakOrder(before) && Sorted(before, s)
    ensures Sorted(before, Insert(before, s, x))
  {
    if s == [] {
    } else if !before(x, s[|s| - 1]) {
      forall i | 0 <= i < |s| ensures !before(x, s[i]) {
        assert i == |s| - 1 || !before(s[|s| - 1], s[i]);
      }
    } else {
      var s', l := s[..|s| - 1], s[|s| - 1];
      InsertSorted(before, s', x);
      var r := Insert(before, s', x);
      InsertMembers(before, s', x);
      forall i | 0 <= i < |r| ensures !before(l, r[i]) {
        assert r[i] in s' || r[i] == x;
      }
    }
  }

  lemma {:induction false} SortSorted<T(!new)>(before: (T, T) -> bool, s: seq<T>)
    requires WeakOrder(before)
    ensures Sorted(before, Sort(before, s))
  {
    if s != [] {
      SortSorted(before, s[..|s| - 1]);
      InsertSorted(before, Sort(before, s[..|s| - 1]), s[|s| - 1]);
    }
  }

  lemma {:induction false} SortOfSorted<T(!new)>(before: (T, T) -> bool, s: seq<T>)
    requires Sorted(before, s)
    ensures Sort(before, s) == s
  {
    if s != [] {
      SortOfSorted(before, s[..|s| - 1]);
    }
  }

  /** Sorting changes nothing exactly when the input is already in order. */
  lemma SortFixpoint<T(!new)>(before: (T, T) -> bool, s: seq<T>)
    requires WeakOrder(before)
    ensures Sort(before, s) == s <==> Sorted(before, s)
  {
    SortSorted(before, s);
    if Sorted(before, s) {
      SortOfSorted(before, s);
    }
  }

  lemma InsertAtEnd<T(!new)>(before: (T, T) -> bool, p: T -> bool, s: seq<T>, x: T)
    requires WeakOrder(before) && Sorted(before, s) && s != [] && !before(x, s[|s| - 1])
    ensures Insert(before, Filter(p, s), x) == Filter(p, s) + [x]
  {
    var f := Filter(p, s);
    if f != [] {
      assert f[|f| - 1] in f;
      var i :| 0 <= i < |s| && s[i] == f[|f| - 1];
      assert i == |s| - 1 || !before(s[|s| - 1], s[i]);
    }
  }

  lemma InsertLeft<T(!new)>(before: (T, T) -> bool, f: seq<T>, l: T, x: T)
    requires before(x, l)
    ensures Insert(before, f + [l], x) == Insert(before, f, x) + [l]
  {
    assert (f + [l])[..|f|] == f;
  }

  lemma {:induction false} FilterInsert<T(!new)>(before: (T, T) -> bool, p: T -> bool, s: seq<T>, x: T)
    requires WeakOrder(before) && Sorted(before, s)
    ensures Filter(p, Insert(before, s, x)) == if p(x) then Insert(before, Filter(p, s), x) else Filter(p, s)
  {
    if s == [] {
    } else if !before(x, s[|s| - 1]) {
      FilterAppend(p, s, x);
      InsertAtEnd(before, p, s, x);
    } else {
      var s', l := s[..|s| - 1], s[|s| - 1];
      FilterInsert(before, p, s', x);
      FilterAppend(p, Insert(before, s', x), l);
      InsertLeft(before, Filter(p, s'), l, x);
    }
  }

  /** Stability: filtering and sorting commute, so elements that agree on `p` keep the
      relative order a sort of just those elements would give them. */
  lemma {:induction false} FilterSort<T(!new)>(before: (T, T) -> bool, p: T -> bool, s: seq<T>)
    requires WeakOrder(before)
    ensures Filter(p, Sort(before, s)) == Sort(before, Filter(p, s))
  {
    if s != [] {
      var s', x := s[..|s| - 1], s[|s| - 1];
      FilterSort(before, p, s');
      SortSorted(before, s');
      FilterInsert(before, p, Sort(before, s'), x);
      assert Filter(p, s') + [x] == Filter(p, s) || Filter(p, s') == Filter(p, s);
      assert (Filter(p, s') + [x])[..|Filter(p, s')|] == Filter(p, s');
    }
  }

  /** A group that is already in order comes out of the sort exactly as it went in. */
  lemma SortKeepsOrderedGroup<T(!new)>(before: (T, T) -> bool, p: T -> bool, s: seq<T>)
    requires WeakOrder(before) && Sorted(before, Filter(p, s))
    ensures Filter(p, Sort(before, s)) == Filter(p, s)
  {
    FilterSort(before, p, s);
    SortFixpoint(before, Filter(p, s));
  }

  /** Of two different elements one comes before the other. */
  ghost predicate NoTies<T(!new)>(before: (T, T) -> bool, s: seq<T>) {
    forall a, b :: a in s && b in s && a != b ==> before(a, b) || before(b, a)
  }

  lemma LastOfSorted<T(!new)>(before: (T, T) -> bool, s: seq<T>, t: seq<T>)
    requires s != [] && t != [] && Sorted(before, s) && Sorted(before, t) && NoTies(before, s)
    requires s[|s| - 1] in t && t[|t| - 1] in s
    ensures s[|s| - 1] == t[|t| - 1]
  {
    var i :| 0 <= i < |s| && s[i] == t[|t| - 1];
    assert i == |s| - 1 || !before(s[|s| - 1], s[i]);
  }

  lemma MultisetFront<T>(s: seq<T>)
    requires s != []
    ensures multiset(s[..|s| - 1]) == multiset(s) - multiset{s[|s| - 1]}
  {
    assert s == s[..|s| - 1] + [s[|s| - 1]];
  }

  lemma PermutedMembers<T>(s: seq<T>, t: seq<T>)
    requires multiset(s) == multiset(t)
    ensures |s| == |t| && forall x :: x in s ==> x in t
  {
    assert |s| == |multiset(s)| == |multiset(t)| == |t|;
    forall x | x in s ensures x in t {
      assert x in multiset(t);
    }
  }

  lemma SortedFront<T(!new)>(before: (T, T) -> bool, s: seq<T>)
    requires s != [] && Sorted(before, s)
    ensures Sorted(before, s[..|s| - 1]) && s == s[..|s| - 1] + [s[|s| - 1]]
    ensures forall x :: x in s[..|s| - 1] ==> x in s
  {
  }

  /** No element of `t` comes before one of `s`. */
  ghost predicate NoneBefore<T(!new)>(before: (T, T) -> bool, t: seq<T>, s: seq<T>) {
    forall x, y :: x in s && y in t ==> !before(y, x)
  }

  lemma SortAppend<T>(before: (T, T) -> bool, s: seq<T>, x: T)
    ensures Sort(before, s + [x]) == Insert(before, Sort(before, s), x)
  {
    assert (s + [x])[..|s|] == s;
  }

  lemma StaysLast<T(!new)>(before: (T, T) -> bool, s: seq<T>, front: seq<T>, last: T)
    requires Sorted(before, front + [last]) && NoneBefore(before, [last], s)
    ensures Insert(before, Sort(before, s) + front, last) == Sort(before, s) + front + [last]
  {
    var all := Sort(before, s) + front;
    SortMembers(before, s);
    if front != [] {
      assert (front + [last])[|front| - 1] == front[|front| - 1] && (front + [last])[|front|] == last;
    } else if all != [] {
      assert all[|all| - 1] in Sort(before, s);
    }
  }

  lemma SortConcatStep<T(!new)>(before: (T, T) -> bool, s: seq<T>, front: seq<T>, last: T)
    requires Sorted(before, front + [last]) && NoneBefore(before, [last], s)
    requires Sort(before, s + front) == Sort(before, s) + front
    ensures Sort(before, (s + front) + [last]) == (Sort(before, s) + front) + [last]
  {
    SortAppend(before, s + front, last);
    StaysLast(before, s, front, last);
  }

  /** Elements in order behind ones they do not precede stay where they are. */
  lemma {:induction false} SortConcat<T(!new)>(before: (T, T) -> bool, s: seq<T>, t: seq<T>)
    requires Sorted(before, t) && NoneBefore(before, t, s)
    ensures Sort(before, s + t) == Sort(before, s) + t
    decreases |t|
  {
    if t == [] {
      assert s + t == s;
    } else {
      SortedFront(before, t);
      SortConcat(before, s, t[..|t| - 1]);
      SortConcatStep(before, s, t[..|t| - 1], t[|t| - 1]);
      ConcatAssociative(s, t[..|t| - 1], [t[|t| - 1]]);
      ConcatAssociative(Sort(before, s), t[..|t| - 1], [t[|t| - 1]]);
    }
  }

  lemma EndOfSorted<T(!new)>(before: (T, T) -> bool, u: seq<T>, t: seq<T>)
    requires Sorted(before, u + t)
    ensures Sorted(before, t) && NoneBefore(before, t, u)
  {
    var all := u + t;
    forall i, j | 0 <= i < j < |t| ensures !before(t[j], t[i]) {
      assert all[|u| + i] == t[i] && all[|u| + j] == t[j];
    }
    forall x, y | x in u && y in t ensures !before(y, x) {
      var i :| 0 <= i < |u| && u[i] == x;
      var j :| 0 <= j < |t| && t[j] == y;
      assert all[i] == x && all[|u| + j] == y;
    }
  }

  lemma SameRest<T>(s: seq<T>, t: seq<T>, u: seq<T>)
    requires multiset(u + t) == multiset(s + t)
    ensures forall x :: x in s ==> x in u
  {
    assert multiset(u + t) == multiset(u) + multiset(t) && multiset(s + t) == multiset(s) + multiset(t);
    assert multiset(u) == multiset(u + t) - multiset(t) && multiset(s) == multiset(s + t) - multiset(t);
    forall x | x in s ensures x in u {
      assert x in multiset(s);
    }
  }

  lemma EndIsSorted<T(!new)>(before: (T, T) -> bool, s: seq<T>, t: seq<T>, all: seq<T>)
    requires WeakOrder(before) && all == Sort(before, s + t) && all[|all| - |t|..] == t
    ensures Sorted(before, t) && NoneBefore(before, t, s)
  {
    SortSorted(before, s + t);
    var u := all[..|all| - |t|];
    assert all == u + t;
    EndOfSorted(before, u, t);
    SameRest(s, t, u);
  }

  /** The last `n` of the sorted `s + t` are `t` exactly when `t` is in order and either there is
      nothing else, or `t` fills the `n` places and belongs behind all of `s`. */
  lemma LastOfSortedConcat<T(!new)>(before: (T, T) -> bool, n: nat, s: seq<T>, t: seq<T>)
    requires WeakOrder(before) && |t| <= n
    ensures LastN(n, Sort(before, s + t)) == t
       <==> Sorted(before, t) && (s == [] || (|t| == n && NoneBefore(before, t, s)))
  {
    if LastN(n, Sort(before, s + t)) == t {
      EndIsSorted(before, s, t, Sort(before, s + t));
    }
    if Sorted(before, t) && (s == [] || (|t| == n && NoneBefore(before, t, s))) {
      SortConcat(before, s, t);
      assert s == [] ==> Sort(before, s) + t == t;
    }
  }

  lemma SameLast<T(!new)>(before: (T, T) -> bool, s: seq<T>, t: seq<T>)
    requires multiset(s) == multiset(t) && Sorted(before, s) && Sorted(before, t) && NoTies(before, s) && s != []
    ensures |s| == |t| && s[|s| - 1] == t[|t| - 1]
    ensures multiset(s[..|s| - 1]) == multiset(t[..|t| - 1])
  {
    PermutedMembers(s, t);
    PermutedMembers(t, s);
    LastOfSorted(before, s, t);
    MultisetFront(s);
    MultisetFront(t);
  }

  lemma FrontNoTies<T(!new)>(before: (T, T) -> bool, s: seq<T>)
    requires s != [] && NoTies(before, s)
    ensures NoTies(before, s[..|s| - 1])
  {
  }

  /** When no two different elements tie, the order of the input does not matter. */
  lemma {:induction false} SortedUnique<T(!new)>(before: (T, T) -> bool, s: seq<T>, t: seq<T>)
    requires multiset(s) == multiset(t)
    requires Sorted(before, s) && Sorted(before, t) && NoTies(before, s)
    ensures s == t
    decreases |s|
  {
    if s != [] {
      SameLast(before, s, t);
      SortedFront(before, s);
      SortedFront(before, t);
      FrontNoTies(before, s);
      SortedUnique(before, s[..|s| - 1], t[..|t| - 1]);
    }
  }
}
