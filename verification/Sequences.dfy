/** Sequence vocabulary shared by the model: filtering, keeping the most recent entries,
    and first-occurrence deduplication. */
module Sequences {

  datatype Option<+T> = None | Some(value: T)

  /** The subsequence of `s` that satisfies `p`, in order. */
  function Filter<T(!new)>(p: T -> bool, s: seq<T>): (r: seq<T>)
    ensures |r| <= |s|
    ensures forall x :: x in r <==> x in s && p(x)
  {
    if s == [] then []
    else
      var front := Filter(p, s[..|s| - 1]);
      if p(s[|s| - 1]) then front + [s[|s| - 1]] else front
  }

  lemma FilterAppend<T(!new)>(p: T -> bool, s: seq<T>, x: T)
    ensures Filter(p, s + [x]) == Filter(p, s) + (if p(x) then [x] else [])
  {
    assert (s + [x])[..|s|] == s;
  }

  lemma {:induction false} FilterConcat<T(!new)>(p: T -> bool, s: seq<T>, t: seq<T>)
    ensures Filter(p, s + t) == Filter(p, s) + Filter(p, t)
    decreases |t|
  {
    if t == [] {
      assert s + t == s;
    } else {
      var t' := t[..|t| - 1];
      assert s + t == (s + t') + [t[|t| - 1]];
      FilterConcat(p, s, t');
      FilterAppend(p, s + t', t[|t| - 1]);
    }
  }

  /** Filters compose as a conjunction, in either order. */
  lemma {:induction false} FilterFilter<T(!new)>(p: T -> bool, q: T -> bool, both: T -> bool, s: seq<T>)
    requires forall x :: both(x) <==> p(x) && q(x)
    ensures Filter(p, Filter(q, s)) == Filter(both, s)
  {
    if s != [] {
      var s', x := s[..|s| - 1], s[|s| - 1];
      FilterFilter(p, q, both, s');
      if q(x) {
        FilterAppend(p, Filter(q, s'), x);
      }
    }
  }

  lemma {:induction false} FilterCongruent<T(!new)>(p: T -> bool, q: T -> bool, s: seq<T>)
    requires forall x :: x in s ==> (p(x) <==> q(x))
    ensures Filter(p, s) == Filter(q, s)
  {
    if s != [] {
      FilterCongruent(p, q, s[..|s| - 1]);
    }
  }

  lemma {:induction false} FilterAll<T(!new)>(p: T -> bool, s: seq<T>)
    requires forall x :: x in s ==> p(x)
    ensures Filter(p, s) == s
  {
    if s != [] {
      FilterAll(p, s[..|s| - 1]);
    }
  }

  lemma {:induction false} FilterNone<T(!new)>(p: T -> bool, s: seq<T>)
    requires forall x :: x in s ==> !p(x)
    ensures Filter(p, s) == []
  {
    if s != [] {
      FilterNone(p, s[..|s| - 1]);
    }
  }

  /** `f` applied to each element, in order. */
  function Map<T, U>(f: T -> U, s: seq<T>): (r: seq<U>)
    ensures |r| == |s|
    ensures forall i :: 0 <= i < |s| ==> r[i] == f(s[i])
  {
    seq(|s|, i requires 0 <= i < |s| => f(s[i]))
  }

  lemma MapAppend<T, U>(f: T -> U, s: seq<T>, x: T)
    ensures Map(f, s + [x]) == Map(f, s) + [f(x)]
  {
  }

  lemma MapConcat<T, U>(f: T -> U, s: seq<T>, t: seq<T>)
    ensures Map(f, s + t) == Map(f, s) + Map(f, t)
  {
  }

  lemma MapMembers<T(!new), U(!new)>(f: T -> U, s: seq<T>)
    ensures forall y :: y in Map(f, s) <==> exists x :: x in s && f(x) == y
    ensures forall x :: x in s ==> f(x) in Map(f, s)
  {
    forall x | x in s ensures f(x) in Map(f, s) {
      var i :| 0 <= i < |s| && s[i] == x;
      assert Map(f, s)[i] == f(x);
    }
  }

  /** Filtering after mapping is mapping after filtering by the mapped condition. */
  lemma {:induction false} FilterMap<T(!new), U(!new)>(p: U -> bool, f: T -> U, q: T -> bool, s: seq<T>)
    requires forall x :: q(x) <==> p(f(x))
    ensures Filter(p, Map(f, s)) == Map(f, Filter(q, s))
  {
    if s != [] {
      var front, x := s[..|s| - 1], s[|s| - 1];
      FilterMap(p, f, q, front);
      assert s == front + [x];
      MapAppend(f, front, x);
      FilterAppend(p, Map(f, front), f(x));
      MapAppend(f, Filter(q, front), x);
    }
  }

  /** The most recent `n` entries of a log kept oldest first. */
  function LastN<T>(n: nat, s: seq<T>): seq<T> {
    if |s| <= n then s else s[|s| - n..]
  }

  lemma LastNMembers<T>(n: nat, s: seq<T>)
    ensures forall x :: x in LastN(n, s) ==> x in s
  {
  }

  lemma MapLastN<T, U>(f: T -> U, n: nat, s: seq<T>)
    ensures Map(f, LastN(n, s)) == LastN(n, Map(f, s))
  {
  }

  /** Appending to a log cut to its last `n` entries and cutting again loses nothing
      the uncut log would have kept. */
  lemma LastNAppend<T>(n: nat, s: seq<T>, x: T)
    ensures LastN(n, LastN(n, s) + [x]) == LastN(n, s + [x])
  {
  }

  lemma LastNOfLastN<T>(m: nat, n: nat, s: seq<T>)
    requires m <= n
    ensures LastN(m, LastN(n, s)) == LastN(m, s)
  {
  }

  lemma LastNConcat<T>(n: nat, s: seq<T>, t: seq<T>)
    ensures LastN(n, LastN(n, s) + t) == LastN(n, s + t)
  {
  }

  /** `s` with the entry at `i` taken out. */
  function Without<T>(s: seq<T>, i: nat): seq<T>
    requires i < |s|
  {
    s[..i] + s[i + 1..]
  }

  /** The entries before and after the one at `i`. */
  lemma SplitAt<T>(s: seq<T>, i: nat) returns (before: seq<T>, after: seq<T>)
    requires i < |s|
    ensures before == s[..i] && before + [s[i]] + after == s && Without(s, i) == before + after
  {
    before, after := s[..i], s[i + 1..];
  }

  lemma HasMember<T>(s: seq<T>)
    requires s != []
    ensures exists x :: x in s
  {
    assert s[0] in s;
  }

  lemma TakeNext<T>(s: seq<T>, k: nat)
    requires k < |s|
    ensures s[..k + 1] == s[..k] + [s[k]]
  {
  }

  lemma FrontAndLast<T>(s: seq<T>)
    requires s != []
    ensures s == s[..|s| - 1] + [s[|s| - 1]]
  {
  }

  lemma OneAndTwo<T>(x: T, y: T)
    ensures [] + [x] == [x] && [x] + [y] == [x, y]
  {
  }

  lemma ConcatAssociative<T>(s: seq<T>, t: seq<T>, u: seq<T>)
    ensures s + (t + u) == (s + t) + u
  {
  }

  predicate Distinct<T(==)>(s: seq<T>) {
    forall i, j :: 0 <= i < j < |s| ==> s[i] != s[j]
  }

  /** Order-preserving deduplication: each value survives at its first position. */
  function Dedupe<T(==,!new)>(s: seq<T>): (r: seq<T>)
    ensures forall x :: x in r <==> x in s
    ensures Distinct(r)
    ensures |r| <= |s|
  {
    if s == [] then []
    else
      var front := Dedupe(s[..|s| - 1]);
      if s[|s| - 1] in s[..|s| - 1] then front else front + [s[|s| - 1]]
  }

  lemma DedupeAppend<T(!new)>(s: seq<T>, x: T)
    ensures Dedupe(s + [x]) == if x in s then Dedupe(s) else Dedupe(s) + [x]
  {
    assert (s + [x])[..|s|] == s;
  }

  lemma DedupeConsStep<T(!new)>(x: T, front: seq<T>, y: T)
    requires x != y && Dedupe([x] + front) == [x] + Dedupe(front)
    ensures Dedupe(([x] + front) + [y]) == [x] + Dedupe(front + [y])
  {
    DedupeAppend(front, y);
    DedupeAppend([x] + front, y);
    ConcatAssociative([x], Dedupe(front), [y]);
  }

  /** A value that does not occur stays in front of the deduplicated rest. */
  lemma {:induction false} DedupeCons<T(!new)>(x: T, s: seq<T>)
    requires x !in s
    ensures Dedupe([x] + s) == [x] + Dedupe(s)
  {
    if s == [] {
      assert [x] + s == [x];
      DedupeOfDistinct([x]);
    } else {
      var front, y := s[..|s| - 1], s[|s| - 1];
      assert s == front + [y];
      DedupeCons(x, front);
      DedupeConsStep(x, front, y);
      ConcatAssociative([x], front, [y]);
    }
  }

  lemma {:induction false} DedupeOfDistinct<T(!new)>(s: seq<T>)
    requires Distinct(s)
    ensures Dedupe(s) == s
  {
    if s != [] {
      DedupeOfDistinct(s[..|s| - 1]);
    }
  }

  lemma {:induction false} DedupeOfPrefix<T(!new)>(s: seq<T>, n: nat)
    requires n <= |s|
    ensures Dedupe(s[..n]) <= Dedupe(s)
    decreases |s|
  {
    if n == |s| {
      assert s[..n] == s;
    } else {
      var s' := s[..|s| - 1];
      assert s'[..n] == s[..n];
      DedupeOfPrefix(s', n);
    }
  }

  /** Once `p` holds along `s` it goes on holding. */
  ghost predicate Upward<T(!new)>(p: T -> bool, s: seq<T>) {
    forall i, j :: 0 <= i < j < |s| && p(s[i]) ==> p(s[j])
  }

  lemma UpwardTail<T(!new)>(p: T -> bool, s: seq<T>)
    requires Upward(p, s) && s != []
    ensures Upward(p, s[1..])
    ensures if p(s[0]) then forall x :: x in s ==> p(x) else Filter(p, s) == Filter(p, s[1..])
  {
    assert s == [s[0]] + s[1..];
    FilterConcat(p, [s[0]], s[1..]);
  }

  lemma LastNTail<T>(n: nat, s: seq<T>)
    requires |s| > n
    ensures LastN(n, s) == LastN(n, s[1..])
  {
  }

  /** Cutting to the last entries and cutting to an upward condition commute. */
  lemma {:induction false} FilterLastN<T(!new)>(p: T -> bool, n: nat, s: seq<T>)
    requires Upward(p, s)
    ensures Filter(p, LastN(n, s)) == LastN(n, Filter(p, s))
  {
    if |s| > n {
      UpwardTail(p, s);
      if p(s[0]) {
        FilterAll(p, s);
        FilterAll(p, LastN(n, s));
      } else {
        FilterLastN(p, n, s[1..]);
        LastNTail(n, s);
      }
    }
  }
}
