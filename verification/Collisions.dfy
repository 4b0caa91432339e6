/** Identifiers keep six hexadecimal characters of a digest (internal/incidents/incidents.go), so
    whatever the digest, two occurrence keys share an identifier and lose an incident. */
module Collisions {
  import opened Sequences
  import opened Decimal
  import opened Rfc3339
  import opened Incidents
  import opened IncidentStore
  import opened Lifecycle

  predicate IsHex(c: char) {
    '0' <= c <= '9' || 'a' <= c <= 'f'
  }

  function HexValue(c: char): (v: nat)
    requires IsHex(c)
    ensures v < 16
  {
    if c <= '9' then c as int - '0' as int else 10 + (c as int - 'a' as int)
  }

  predicate AllHex(s: string) {
    forall i :: 0 <= i < |s| ==> IsHex(s[i])
  }

  /** Digests are printed in lower-case hexadecimal. */
  ghost predicate Hexadecimal(hash: Hash) {
    forall k, n, t :: AllHex(hash(k, n, t))
  }

  function Pow16(w: nat): nat {
    if w == 0 then 1 else 16 * Pow16(w - 1)
  }

  function Number(s: string): nat
    requires AllHex(s)
  {
    if s == [] then 0 else 16 * Number(s[..|s| - 1]) + HexValue(s[|s| - 1])
  }

  lemma {:induction false} NumberBound(s: string)
    requires AllHex(s)
    ensures Number(s) < Pow16(|s|)
  {
    if s != [] {
      NumberBound(s[..|s| - 1]);
    }
  }

  lemma HexInjective(c: char, d: char)
    requires IsHex(c) && IsHex(d) && HexValue(c) == HexValue(d)
    ensures c == d
  {
  }

  lemma {:induction false} NumberInjective(s: string, t: string)
    requires AllHex(s) && AllHex(t) && |s| == |t| && Number(s) == Number(t)
    ensures s == t
  {
    if s != [] {
      var c, d := s[|s| - 1], t[|t| - 1];
      assert HexValue(c) == HexValue(d) && Number(s[..|s| - 1]) == Number(t[..|t| - 1]);
      HexInjective(c, d);
      NumberInjective(s[..|s| - 1], t[..|t| - 1]);
      assert s == s[..|s| - 1] + [c] && t == t[..|t| - 1] + [d];
    }
  }

  // ----- the pigeonhole principle -----

  function Below(n: nat): (r: set<nat>)
    ensures forall x: nat :: x in r <==> x < n
    ensures |r| == n
  {
    if n == 0 then {} else Below(n - 1) + {n - 1}
  }

  lemma SubsetSize(a: set<nat>, b: set<nat>)
    requires a <= b
    ensures |a| <= |b|
  {
    assert b == a + (b - a);
  }

  function Image(f: nat -> nat, n: nat): set<nat> {
    if n == 0 then {} else Image(f, n - 1) + {f(n - 1)}
  }

  lemma {:induction false} InImage(f: nat -> nat, n: nat, y: nat)
    requires y in Image(f, n)
    ensures exists x: nat :: x < n && f(x) == y
  {
    if y != f(n - 1) {
      InImage(f, n - 1, y);
    }
  }

  ghost predicate Injective(f: nat -> nat, n: nat) {
    forall i: nat, j: nat :: i < j < n ==> f(i) != f(j)
  }

  lemma LastIsNew(f: nat -> nat, n: nat)
    requires n > 0 && Injective(f, n)
    ensures Injective(f, n - 1) && f(n - 1) !in Image(f, n - 1)
  {
    if f(n - 1) in Image(f, n - 1) {
      InImage(f, n - 1, f(n - 1));
    }
  }

  lemma {:induction false} ImageSize(f: nat -> nat, n: nat)
    requires Injective(f, n)
    ensures |Image(f, n)| == n
  {
    if n > 0 {
      LastIsNew(f, n);
      ImageSize(f, n - 1);
    }
  }

  lemma {:induction false} ImageBelow(f: nat -> nat, n: nat, bound: nat)
    requires forall x :: f(x) < bound
    ensures Image(f, n) <= Below(bound)
  {
    if n > 0 {
      ImageBelow(f, n - 1, bound);
    }
  }

  /** More arguments than values: two arguments share one. */
  lemma Pigeonhole(f: nat -> nat, n: nat) returns (i: nat, j: nat)
    requires forall x :: f(x) < n
    ensures i < j <= n && f(i) == f(j)
  {
    if Injective(f, n + 1) {
      ImageSize(f, n + 1);
      ImageBelow(f, n + 1, n);
      SubsetSize(Image(f, n + 1), Below(n));
      assert false;
    }
    i, j :| i < j < n + 1 && f(i) == f(j);
  }

  // ----- keys whose identifiers collide -----

  function KeyNumber(rootCause: string, x: nat): string {
    rootCause + ":" + Print(x)
  }

  lemma KeysDiffer(rootCause: string, i: nat, j: nat)
    requires i != j
    ensures KeyNumber(rootCause, i) != KeyNumber(rootCause, j)
  {
    ParsePrint(i);
    ParsePrint(j);
    var p := rootCause + ":";
    assert KeyNumber(rootCause, i)[|p|..] == Print(i) && KeyNumber(rootCause, j)[|p|..] == Print(j);
  }

  function DigestNumber(hash: Hash, rootCause: string, now: Instant, x: nat): nat {
    var digest := hash(KeyNumber(rootCause, x), 1, now);
    if AllHex(digest) then Number(digest) else 0
  }

  function DigestNumbers(hash: Hash, rootCause: string, now: Instant): nat -> nat {
    (x: nat) => DigestNumber(hash, rootCause, now, x)
  }

  /** Whatever the digest, two keys of any root cause get equal digests for their first occurrence. */
  lemma CollidingKeys(hash: Hash, rootCause: string, now: Instant) returns (a: string, b: string)
    requires Hexadecimal(hash)
    ensures a != b && hash(a, 1, now) == hash(b, 1, now)
  {
    var f := DigestNumbers(hash, rootCause, now);
    forall x ensures f(x) < Pow16(6) {
      NumberBound(hash(KeyNumber(rootCause, x), 1, now));
    }
    var i, j := Pigeonhole(f, Pow16(6));
    a, b := KeyNumber(rootCause, i), KeyNumber(rootCause, j);
    KeysDiffer(rootCause, i, j);
    NumberInjective(hash(a, 1, now), hash(b, 1, now));
  }

  lemma RunOfTwo(s: State, a: Op, b: Op, hash: Hash)
    ensures Run(s, [a, b], hash) == Step(Step(s, a, hash), b, hash)
  {
    assert [a, b][..1] == [a] && [a][..0] == [];
    assert Run(s, [a], hash) == Step(s, a, hash);
  }

  /** Two first occurrences under one identifier: the second overwrites the first. */
  lemma CollidingRun(c: Candidate, d: Candidate, t: Instant, u: Instant, hash: Hash)
    requires c.key != d.key && hash(c.key, 1, t) == hash(d.key, 1, u)
    ensures !Inv(Run(EMPTY, [UpsertOp(c, t), UpsertOp(d, u)], hash))
    ensures |Run(EMPTY, [UpsertOp(c, t), UpsertOp(d, u)], hash).incidents| == 1
  {
    RunOfTwo(EMPTY, UpsertOp(c, t), UpsertOp(d, u), hash);
    var first := NewOccurrence(EMPTY, c, t, hash);
    var one := AddIncident(EMPTY, first);
    IdsEqual(hash, c.key, 1, t, d.key, 1, u);
    EmptyInv();
    StepKeepsInv(EMPTY, UpsertOp(c, t), hash);
    CollisionIsLost(one, first, d, u, hash);
  }

  lemma CollisionIsLost(s: State, first: Incident, d: Candidate, u: Instant, hash: Hash)
    requires Inv(s) && s.incidents == map[first.id := first] && HistoryOf(s, d.key) == []
    requires NewOccurrence(s, d, u, hash).id == first.id
    ensures var after := Step(s, UpsertOp(d, u), hash); !Inv(after) && |after.incidents| == 1
  {
    var second := NewOccurrence(s, d, u, hash);
    assert Ongoing(s, d.key) == None;
    CollisionBreaksLinks(s, second);
    assert Step(s, UpsertOp(d, u), hash).incidents == map[second.id := second];
  }

  /** So no digest makes the lifecycle safe on its own: for every one there is a run of two upserts
      from an empty store that loses an incident. */
  lemma EveryDigestCollides(hash: Hash, c: Candidate, now: Instant) returns (a: string, b: string)
    requires Hexadecimal(hash)
    ensures a != b
    ensures !Inv(Run(EMPTY, [UpsertOp(c.(key := a), now), UpsertOp(c.(key := b), now)], hash))
  {
    a, b := CollidingKeys(hash, c.rootCause, now);
    CollidingRun(c.(key := a), c.(key := b), now, now, hash);
  }
}
