/** The neighbour graph (internal/incidents/incidents.go): hosts are adjacent when the numbers read
    out of their names differ by at most one. */
module Neighbors {
  import opened Sequences
  import opened Decimal
  import opened Rfc3339
  import opened Telemetry
  import opened ResponseText

  const PREFIXES: nat := 4
  const OFFSETS: nat := 3

  /** The probed prefixes, in order. */
  function Prefix(p: nat): string
    requires p < PREFIXES
  {
    match p
    case 0 => "rtr"
    case 1 => "sw"
    case 2 => "fw"
    case 3 => "gw"
  }

  /** The probed offsets, in order. */
  function Offset(o: nat): int
    requires o < OFFSETS
  {
    match o
    case 0 => 0
    case 1 => 1
    case 2 => -1
  }

  const MAX_INT64: int := 0x7FFF_FFFF_FFFF_FFFF

  /** 64-bit wrap-around. */
  function Wrap64(x: int): Int64 {
    (x - MIN_INT64) % 0x1_0000_0000_0000_0000 + MIN_INT64
  }

  lemma Wrap64InRange(x: int)
    requires MIN_INT64 <= x <= MAX_INT64
    ensures Wrap64(x) == x
  {
  }

  /** Go: digits accumulate left to right in a 64-bit integer. */
  function DigitsWrapped(s: string): Int64 {
    if s == [] then 0
    else
      var front := DigitsWrapped(s[..|s| - 1]);
      if IsDigit(s[|s| - 1]) then Wrap64(front * 10 + DigitValue(s[|s| - 1])) else front
  }

  /** The number the ASCII digits of a name spell; 1 without any. */
  function SuffixUnbounded(hostname: string): nat {
    var digits := Filter(IsDigit, hostname);
    if digits == [] then 1
    else
      assert forall c :: c in digits ==> IsDigit(c);
      Parse(digits)
  }

  function Suffix64(hostname: string): Int64 {
    if Filter(IsDigit, hostname) == [] then 1 else DigitsWrapped(hostname)
  }

  lemma FilterDigits(s: string)
    ensures AllDigits(Filter(IsDigit, s))
  {
    assert forall c :: c in Filter(IsDigit, s) ==> IsDigit(c);
  }

  lemma ParseAppend(f: string, c: char)
    requires AllDigits(f) && IsDigit(c)
    ensures AllDigits(f + [c]) && Parse(f + [c]) == Parse(f) * 10 + DigitValue(c)
  {
    assert (f + [c])[..|f|] == f;
  }

  /** What one more digit makes of a reading that is right while it fits. */
  lemma WrapDigit(front: Int64, v: nat, d: nat)
    requires v <= MAX_INT64 ==> front == v
    ensures v * 10 + d <= MAX_INT64 ==> Wrap64(front * 10 + d) == v * 10 + d
  {
    if v * 10 + d <= MAX_INT64 {
      Wrap64InRange(v * 10 + d);
    }
  }

  lemma WrappedNext(s: string, c: char, v: nat)
    requires v <= MAX_INT64 ==> DigitsWrapped(s) == v
    requires IsDigit(c)
    ensures v * 10 + DigitValue(c) <= MAX_INT64 ==> DigitsWrapped(s + [c]) == v * 10 + DigitValue(c)
  {
    assert (s + [c])[..|s|] == s;
    WrapDigit(DigitsWrapped(s), v, DigitValue(c));
  }

  lemma WrappedSkip(s: string, c: char)
    requires !IsDigit(c)
    ensures DigitsWrapped(s + [c]) == DigitsWrapped(s)
  {
    assert (s + [c])[..|s|] == s;
  }

  lemma {:induction false} WrappedDigits(s: string)
    requires AllDigits(Filter(IsDigit, s))
    ensures Parse(Filter(IsDigit, s)) <= MAX_INT64 ==> DigitsWrapped(s) == Parse(Filter(IsDigit, s))
  {
    if s != [] {
      var front, c := s[..|s| - 1], s[|s| - 1];
      assert s == front + [c];
      FilterDigits(front);
      WrappedDigits(front);
      FilterAppend(IsDigit, front, c);
      if IsDigit(c) {
        ParseAppend(Filter(IsDigit, front), c);
        WrappedNext(front, c, Parse(Filter(IsDigit, front)));
      } else {
        WrappedSkip(front, c);
      }
    }
  }

  /** The 64-bit reading is the true one exactly when the true one fits in 64 bits. */
  lemma SuffixAgrees(hostname: string)
    ensures Suffix64(hostname) == SuffixUnbounded(hostname) <==> SuffixUnbounded(hostname) <= MAX_INT64
  {
    assert forall c :: c in Filter(IsDigit, hostname) ==> IsDigit(c);
    WrappedDigits(hostname);
  }

  method NumericSuffix(hostname: string) returns (r: Int64)
    ensures r == Suffix64(hostname)
  {
    var n: Int64 := 0;
    var found := false;
    for i := 0 to |hostname|
      invariant n == DigitsWrapped(hostname[..i])
      invariant found <==> Filter(IsDigit, hostname[..i]) != []
    {
      var c := hostname[i];
      assert hostname[..i + 1] == hostname[..i] + [c];
      FilterAppend(IsDigit, hostname[..i], c);
      if IsDigit(c) {
        n := Wrap64(n * 10 + DigitValue(c));
        found := true;
      }
    }
    assert hostname[..|hostname|] == hostname;
    r := if found then n else 1;
  }

  /** Printf "%s-%02d". */
  function HostName(prefix: string, index: nat): string {
    prefix + "-" + Pad(2, index)
  }

  function AtLeastOne(i: int): nat {
    if i < 1 then 1 else i
  }

  /** The twelve names probed for a host numbered `index`, prefix by prefix, with the neighbour index
      wrapped to 64 bits as in Go and without. */
  function ProbeName64(index: Int64, p: nat, o: nat): string
    requires p < PREFIXES && o < OFFSETS
  {
    HostName(Prefix(p), AtLeastOne(Wrap64(index + Offset(o))))
  }

  function ProbeNames64(index: Int64): seq<string> {
    seq(12, k requires 0 <= k < 12 => ProbeName64(index, k / 3, k % 3))
  }

  function ProbeNames(index: int): seq<string> {
    seq(12, k requires 0 <= k < 12 => HostName(Prefix(k / 3), AtLeastOne(index + Offset(k % 3))))
  }

  lemma ProbeIndex(p: nat, o: nat)
    requires p < PREFIXES && o < OFFSETS
    ensures 3 * p + o < 12 && (3 * p + o) / 3 == p && (3 * p + o) % 3 == o
  {
  }

  lemma ProbeNameAt(index: Int64, k: nat)
    requires k < 12
    ensures ProbeNames64(index)[k] == ProbeName64(index, k / 3, k % 3)
  {
  }

  lemma ProbeAt(index: Int64, p: nat, o: nat)
    requires p < PREFIXES && o < OFFSETS
    ensures 3 * p + o < 12 && ProbeNames64(index)[3 * p + o] == ProbeName64(index, p, o)
  {
    ProbeIndex(p, o);
    ProbeNameAt(index, 3 * p + o);
  }

  function Hosts(s: seq<Device>): (r: seq<string>)
    ensures |r| == |s|
    ensures forall i :: 0 <= i < |s| ==> r[i] == s[i].hostname
  {
    seq(|s|, i requires 0 <= i < |s| => s[i].hostname)
  }

  /** Go: a name is taken when it is known, is not the host itself, and was not taken before. */
  function Take(taken: seq<Device>, name: string, host: string, byHost: map<string, Device>): seq<Device> {
    if name != host && name !in Hosts(taken) && name in byHost then taken + [byHost[name]] else taken
  }

  function ResolveFirst(names: seq<string>, n: nat, host: string, byHost: map<string, Device>): seq<Device>
    requires n <= |names|
    decreases n
  {
    if n == 0 then [] else Take(ResolveFirst(names, n - 1, host, byHost), names[n - 1], host, byHost)
  }

  function Resolve(names: seq<string>, host: string, byHost: map<string, Device>): seq<Device> {
    ResolveFirst(names, |names|, host, byHost)
  }

  /** Python: the same without remembering what was taken. */
  function ResolveRepeating(names: seq<string>, n: nat, host: string, byHost: map<string, Device>): seq<Device>
    requires n <= |names|
    decreases n
  {
    if n == 0 then []
    else
      var front := ResolveRepeating(names, n - 1, host, byHost);
      var name := names[n - 1];
      if name in byHost && name != host then front + [byHost[name]] else front
  }

  function ResolveAll(names: seq<string>, host: string, byHost: map<string, Device>): seq<Device> {
    ResolveRepeating(names, |names|, host, byHost)
  }

  ghost predicate Keyed(byHost: map<string, Device>) {
    forall h :: h in byHost ==> byHost[h].hostname == h
  }

  function NeighborsOf(d: Device, byHost: map<string, Device>): seq<Device> {
    Resolve(ProbeNames64(Suffix64(d.hostname)), d.hostname, byHost)
  }

  /** One probe: `seen` holds the host and every name taken so far. */
  method Probe(name: string, host: string, byHost: map<string, Device>, out: seq<Device>, seen: set<string>)
    returns (out': seq<Device>, seen': set<string>)
    requires Keyed(byHost) && forall h :: h in seen <==> h == host || h in Hosts(out)
    ensures out' == Take(out, name, host, byHost)
    ensures forall h :: h in seen' <==> h == host || h in Hosts(out')
  {
    out', seen' := out, seen;
    if name !in seen && name in byHost {
      out', seen' := out + [byHost[name]], seen + {name};
      assert Hosts(out') == Hosts(out) + [name];
    }
  }

  lemma ResolveNext(names: seq<string>, k: nat, host: string, byHost: map<string, Device>)
    requires k < |names|
    ensures ResolveFirst(names, k + 1, host, byHost) == Take(ResolveFirst(names, k, host, byHost), names[k], host, byHost)
  {
  }

  /** The first `k` names have been probed; `seen` holds the host and every name taken. */
  ghost predicate Probed(index: Int64, k: nat, host: string, byHost: map<string, Device>, out: seq<Device>, seen: set<string>) {
    && k <= 12 && out == ResolveFirst(ProbeNames64(index), k, host, byHost)
    && forall h :: h in seen <==> h == host || h in Hosts(out)
  }

  /** The probe of one name. */
  method ProbeOne(index: Int64, p: nat, o: nat, host: string, byHost: map<string, Device>, out: seq<Device>, seen: set<string>)
    returns (out': seq<Device>, seen': set<string>)
    requires Keyed(byHost) && p < PREFIXES && o < OFFSETS && Probed(index, 3 * p + o, host, byHost, out, seen)
    ensures Probed(index, 3 * p + o + 1, host, byHost, out', seen')
  {
    ProbeAt(index, p, o);
    ResolveNext(ProbeNames64(index), 3 * p + o, host, byHost);
    out', seen' := Probe(ProbeName64(index, p, o), host, byHost, out, seen);
  }

  /** The probes of one prefix. */
  method ProbePrefix(index: Int64, p: nat, host: string, byHost: map<string, Device>, out: seq<Device>, seen: set<string>)
    returns (out': seq<Device>, seen': set<string>)
    requires Keyed(byHost) && p < PREFIXES && Probed(index, 3 * p, host, byHost, out, seen)
    ensures Probed(index, 3 * p + 3, host, byHost, out', seen')
  {
    out', seen' := out, seen;
    for o := 0 to OFFSETS
      invariant Probed(index, 3 * p + o, host, byHost, out', seen')
    {
      out', seen' := ProbeOne(index, p, o, host, byHost, out', seen');
    }
  }

  /** All twelve probes, in order. */
  method ProbeAll(index: Int64, host: string, byHost: map<string, Device>) returns (out: seq<Device>)
    requires Keyed(byHost)
    ensures out == Resolve(ProbeNames64(index), host, byHost)
  {
    out := [];
    var seen := {host};
    for p := 0 to PREFIXES
      invariant Probed(index, 3 * p, host, byHost, out, seen)
    {
      out, seen := ProbePrefix(index, p, host, byHost, out, seen);
    }
  }

  method ResolveNeighbors(d: Device, byHost: map<string, Device>) returns (out: seq<Device>)
    requires Keyed(byHost)
    ensures out == NeighborsOf(d, byHost)
  {
    var index := NumericSuffix(d.hostname);
    out := ProbeAll(index, d.hostname, byHost);
  }

  /** A resolved list holds the known hosts among the probed names, the host itself excepted. */
  ghost predicate Resolves(found: seq<Device>, names: seq<string>, host: string, byHost: map<string, Device>) {
    forall d :: d in found <==> d.hostname in names && d.hostname != host && d.hostname in byHost && byHost[d.hostname] == d
  }

  lemma HostOf(s: seq<Device>, name: string)
    ensures name in Hosts(s) <==> exists d :: d in s && d.hostname == name
  {
    if name in Hosts(s) {
      var i :| 0 <= i < |s| && Hosts(s)[i] == name;
      assert s[i] in s;
    }
    forall d | d in s && d.hostname == name ensures name in Hosts(s) {
      var i :| 0 <= i < |s| && s[i] == d;
      assert Hosts(s)[i] == name;
    }
  }

  lemma TakeResolves(go: seq<Device>, names: seq<string>, name: string, host: string, byHost: map<string, Device>)
    requires Keyed(byHost) && Resolves(go, names, host, byHost)
    ensures Resolves(Take(go, name, host, byHost), names + [name], host, byHost)
    ensures name in Hosts(go) <==> name in names && name != host && name in byHost
  {
    HostOf(go, name);
    if name in names && name != host && name in byHost {
      assert byHost[name] in go;
    }
  }

  lemma TakeDedupes(go: seq<Device>, py: seq<Device>, names: seq<string>, name: string, host: string, byHost: map<string, Device>)
    requires Resolves(go, names, host, byHost) && go == Dedupe(py) && name in byHost && name != host
    requires name in Hosts(go) <==> name in names && name != host && name in byHost
    requires byHost[name].hostname == name
    ensures Take(go, name, host, byHost) == Dedupe(py + [byHost[name]])
  {
    DedupeAppend(py, byHost[name]);
    assert byHost[name] in go <==> name in Hosts(go);
  }

  lemma {:induction false} FirstResolves(names: seq<string>, n: nat, host: string, byHost: map<string, Device>)
    requires Keyed(byHost) && n <= |names|
    ensures Resolves(ResolveFirst(names, n, host, byHost), names[..n], host, byHost)
    decreases n
  {
    if n > 0 {
      FirstResolves(names, n - 1, host, byHost);
      TakeResolves(ResolveFirst(names, n - 1, host, byHost), names[..n - 1], names[n - 1], host, byHost);
      TakeNext(names, n - 1);
    }
  }

  lemma DedupeStep(go: seq<Device>, py: seq<Device>, names: seq<string>, name: string, host: string, byHost: map<string, Device>)
    requires Keyed(byHost) && Resolves(go, names, host, byHost) && go == Dedupe(py)
    ensures Take(go, name, host, byHost) == Dedupe(if name in byHost && name != host then py + [byHost[name]] else py)
  {
    TakeResolves(go, names, name, host, byHost);
    if name in byHost && name != host {
      TakeDedupes(go, py, names, name, host, byHost);
    }
  }

  /** The Go list is the Python list with later repetitions dropped. */
  lemma {:induction false} ResolveDedupes(names: seq<string>, n: nat, host: string, byHost: map<string, Device>)
    requires Keyed(byHost) && n <= |names|
    ensures ResolveFirst(names, n, host, byHost) == Dedupe(ResolveRepeating(names, n, host, byHost))
    decreases n
  {
    if n > 0 {
      ResolveDedupes(names, n - 1, host, byHost);
      FirstResolves(names, n - 1, host, byHost);
      DedupeStep(ResolveFirst(names, n - 1, host, byHost), ResolveRepeating(names, n - 1, host, byHost),
                 names[..n - 1], names[n - 1], host, byHost);
    }
  }

  lemma ResolvedMembers(names: seq<string>, host: string, byHost: map<string, Device>)
    requires Keyed(byHost)
    ensures forall d :: d in Resolve(names, host, byHost)
                   <==> d.hostname in names && d.hostname != host && d.hostname in byHost && byHost[d.hostname] == d
  {
    FirstResolves(names, |names|, host, byHost);
    assert names[..|names|] == names;
  }

  lemma ResolvedDistinct(names: seq<string>, host: string, byHost: map<string, Device>)
    requires Keyed(byHost)
    ensures Distinct(Hosts(Resolve(names, host, byHost))) && host !in Hosts(Resolve(names, host, byHost))
  {
    FirstResolves(names, |names|, host, byHost);
    ResolveDedupes(names, |names|, host, byHost);
    var ns := Resolve(names, host, byHost);
    forall i, j | 0 <= i < j < |ns| ensures Hosts(ns)[i] != Hosts(ns)[j] {
      assert ns[i] in ns && ns[j] in ns;
    }
    forall i | 0 <= i < |ns| ensures Hosts(ns)[i] != host {
      assert ns[i] in ns;
    }
  }

  /** No neighbour list repeats a host or contains the host itself. */
  lemma NeighborsDistinct(d: Device, byHost: map<string, Device>)
    requires Keyed(byHost)
    ensures Distinct(Hosts(NeighborsOf(d, byHost))) && d.hostname !in Hosts(NeighborsOf(d, byHost))
  {
    ResolvedDistinct(ProbeNames64(Suffix64(d.hostname)), d.hostname, byHost);
  }

  lemma PrefixHasNoDigit(p: nat)
    requires p < PREFIXES
    ensures Filter(IsDigit, Prefix(p) + "-") == ""
  {
    var s := Prefix(p) + "-";
    assert s == "rtr-" || s == "sw-" || s == "fw-" || s == "gw-";
    assert forall c :: c in s ==> !IsDigit(c);
    FilterNone(IsDigit, s);
  }

  lemma DigitsBehind(head: string, pad: string)
    requires Filter(IsDigit, head) == "" && AllDigits(pad)
    ensures Filter(IsDigit, head + pad) == pad
  {
    FilterConcat(IsDigit, head, pad);
    FilterAll(IsDigit, pad);
  }

  lemma DigitsOfHostName(p: nat, index: nat)
    requires p < PREFIXES
    ensures Filter(IsDigit, HostName(Prefix(p), index)) == Pad(2, index)
  {
    PrefixHasNoDigit(p);
    DigitsBehind(Prefix(p) + "-", Pad(2, index));
  }

  /** Reading a printed host name gives its index back. */
  lemma SuffixOfHostName(p: nat, index: nat)
    requires p < PREFIXES
    ensures SuffixUnbounded(HostName(Prefix(p), index)) == index
  {
    DigitsOfHostName(p, index);
    ParsePad(2, index);
  }

  lemma HostNameIndex(p: nat, i: nat, q: nat, j: nat)
    requires p < PREFIXES && q < PREFIXES && HostName(Prefix(p), i) == HostName(Prefix(q), j)
    ensures i == j
  {
    SuffixOfHostName(p, i);
    SuffixOfHostName(q, j);
  }

  predicate Adjacent(i: int, j: int) {
    -1 <= i - j <= 1
  }

  lemma OffsetsReachAdjacent(i: nat, p: nat, o: nat)
    requires 1 <= i < MAX_INT64 && p < PREFIXES && o < OFFSETS
    ensures ProbeName64(i, p, o) == HostName(Prefix(p), AtLeastOne(i + Offset(o)))
    ensures Adjacent(i, AtLeastOne(i + Offset(o)))
  {
    Wrap64InRange(i + Offset(o));
  }

  lemma ProbedIsAdjacent(i: nat, q: nat, j: nat)
    requires 1 <= i < MAX_INT64 && q < PREFIXES && 1 <= j
    requires HostName(Prefix(q), j) in ProbeNames64(i)
    ensures Adjacent(i, j)
  {
    var k :| 0 <= k < 12 && ProbeNames64(i)[k] == HostName(Prefix(q), j);
    OffsetsReachAdjacent(i, k / 3, k % 3);
    HostNameIndex(q, j, k / 3, AtLeastOne(i + Offset(k % 3)));
  }

  lemma AdjacentIsProbed(i: nat, q: nat, j: nat)
    requires 1 <= i < MAX_INT64 && q < PREFIXES && 1 <= j && Adjacent(i, j)
    ensures HostName(Prefix(q), j) in ProbeNames64(i)
  {
    var o := if j == i then 0 else if j == i + 1 then 1 else 2;
    OffsetsReachAdjacent(i, q, o);
    ProbeAt(i, q, o);
    assert AtLeastOne(i + Offset(o)) == j;
  }

  /** On canonical names the probe finds exactly the indices at distance at most one. */
  lemma ProbedIffAdjacent(i: nat, q: nat, j: nat)
    requires 1 <= i < MAX_INT64 && q < PREFIXES && 1 <= j
    ensures HostName(Prefix(q), j) in ProbeNames64(i) <==> Adjacent(i, j)
  {
    if Adjacent(i, j) {
      AdjacentIsProbed(i, q, j);
    } else if HostName(Prefix(q), j) in ProbeNames64(i) {
      ProbedIsAdjacent(i, q, j);
    }
  }

  /** The neighbour relation between canonical hosts of a batch is "another host whose index
      differs by at most one", which makes it symmetric. */
  lemma NeighborIffAdjacent(p: nat, i: nat, q: nat, j: nat, byHost: map<string, Device>)
    requires Keyed(byHost) && p < PREFIXES && q < PREFIXES && 1 <= i < MAX_INT64 && 1 <= j < MAX_INT64
    requires HostName(Prefix(p), i) in byHost && HostName(Prefix(q), j) in byHost
    ensures var a, b := byHost[HostName(Prefix(p), i)], byHost[HostName(Prefix(q), j)];
            && (b in NeighborsOf(a, byHost) <==> a != b && Adjacent(i, j))
            && (b in NeighborsOf(a, byHost) <==> a in NeighborsOf(b, byHost))
  {
    var a, b := byHost[HostName(Prefix(p), i)], byHost[HostName(Prefix(q), j)];
    SuffixOfHostName(p, i);
    SuffixOfHostName(q, j);
    SuffixAgrees(a.hostname);
    SuffixAgrees(b.hostname);
    ResolvedMembers(ProbeNames64(i), a.hostname, byHost);
    ResolvedMembers(ProbeNames64(j), b.hostname, byHost);
    ProbedIffAdjacent(i, q, j);
    ProbedIffAdjacent(j, p, i);
  }
}
