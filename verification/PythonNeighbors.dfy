/** The neighbour list of the Python program (backend/app/analytics.py), and the hosts for which it is
    the one of the port. */
module PythonNeighbors {
  import opened Sequences
  import opened Decimal
  import opened Telemetry
  import opened ResponseText
  import opened Neighbors

  // ----- what Python reads out of a name -----

  /** What isdigit and int make of a character: digits of any script have a value, and some characters
      that pass isdigit, superscripts among them, make int fail. */
  datatype Reading = NotDigit | Value(digit: nat) | Unreadable

  type Script = char -> Reading

  /** Whatever the other characters are, the ASCII ones are what they look like. */
  ghost predicate ReadsAscii(script: Script) {
    && (forall c :: c as int < 128 ==> script(c) == if IsDigit(c) then Value(DigitValue(c)) else NotDigit)
    && (forall c :: script(c).Value? ==> script(c).digit < 10)
  }

  /** The characters that isdigit lets through. */
  function Picked(script: Script): char -> bool {
    c => script(c) != NotDigit
  }

  function ToInt(script: Script, digits: string): Option<nat> {
    if digits == [] then Some(0) else WithDigit(ToInt(script, digits[..|digits| - 1]), script(digits[|digits| - 1]))
  }

  function WithDigit(front: Option<nat>, last: Reading): Option<nat> {
    if front.None? || !last.Value? then None else Some(front.value * 10 + last.digit)
  }

  /** The longest text that int converts (sys.int_info.default_max_str_digits). */
  const MAX_DIGITS := 4300

  /** The number of a host; nothing when int raises. */
  function PySuffix(script: Script, hostname: string): Option<nat> {
    var suffix := Filter(Picked(script), hostname);
    if suffix == [] then Some(1) else if |suffix| > MAX_DIGITS then None else ToInt(script, suffix)
  }

  /** f"{prefix}-{max(1, index):02d}" */
  function PyHost(prefix: string, index: int): string {
    prefix + "-" + Pad(2, if index > 1 then index else 1)
  }

  function PyPrefixNames(prefix: string, index: int): seq<string> {
    [PyHost(prefix, index), PyHost(prefix, index + 1), PyHost(prefix, index - 1)]
  }

  /** The names looked up for a host numbered `index`. */
  function PyNames(index: int): seq<string> {
    PyPrefixNames("rtr", index) + PyPrefixNames("sw", index) + PyPrefixNames("fw", index) + PyPrefixNames("gw", index)
  }

  /** The list of neighbours; nothing when reading the host's number raises. */
  function NeighborsPython(script: Script, d: Device, byHost: map<string, Device>): Option<seq<Device>> {
    var n := PySuffix(script, d.hostname);
    if n.None? then None else Some(ResolveAll(PyNames(n.value), d.hostname, byHost))
  }

  /** Python reads the number the ASCII digits spell, and its successor fits in 64 bits. */
  predicate Plain(script: Script, hostname: string) {
    PySuffix(script, hostname) == Some(SuffixUnbounded(hostname)) && SuffixUnbounded(hostname) < MAX_INT64
  }

  lemma ToIntNext(script: Script, s: string, c: char)
    ensures ToInt(script, s + [c]) == WithDigit(ToInt(script, s), script(c))
  {
    assert (s + [c])[..|s|] == s;
  }

  lemma {:induction false} ToIntAscii(script: Script, s: string)
    requires ReadsAscii(script) && AllDigits(s)
    ensures ToInt(script, s) == Some(Parse(s))
  {
    if s != [] {
      ToIntAscii(script, s[..|s| - 1]);
    }
  }

  predicate AsciiOnly(script: Script, name: string) {
    forall c :: c in name ==> IsDigit(c) || script(c) == NotDigit
  }

  lemma PickedAscii(script: Script, name: string)
    requires ReadsAscii(script) && AsciiOnly(script, name)
    ensures Filter(Picked(script), name) == Filter(IsDigit, name)
  {
    FilterCongruent(Picked(script), IsDigit, name);
  }

  /** A name without digits of other scripts is read alike exactly when it is not too long for int. */
  lemma AsciiIsReadAlike(script: Script, name: string)
    requires ReadsAscii(script) && AsciiOnly(script, name)
    ensures PySuffix(script, name) == Some(SuffixUnbounded(name)) <==> |Filter(IsDigit, name)| <= MAX_DIGITS
  {
    PickedAscii(script, name);
    FilterDigits(name);
    ToIntAscii(script, Filter(IsDigit, name));
  }

  lemma PickedHasAscii(script: Script, name: string)
    requires ReadsAscii(script)
    ensures Filter(IsDigit, Filter(Picked(script), name)) == Filter(IsDigit, name)
  {
    FilterFilter(IsDigit, Picked(script), IsDigit, name);
  }

  /** Digits of other scripts never make the number smaller. */
  ghost predicate ReadsAtLeast(script: Script, s: string, digits: string) {
    AllDigits(digits) && (ToInt(script, s).Some? ==> Parse(digits) <= ToInt(script, s).value)
  }

  lemma ReadsAtLeastNext(script: Script, s: string, digits: string, c: char)
    requires ReadsAtLeast(script, s, digits)
    requires IsDigit(c) ==> script(c) == Value(DigitValue(c))
    ensures ReadsAtLeast(script, s + [c], digits + if IsDigit(c) then [c] else [])
  {
    ToIntNext(script, s, c);
    if IsDigit(c) {
      ParseAppend(digits, c);
    } else {
      assert digits + [] == digits;
    }
  }

  lemma {:induction false} AsciiIsLeast(script: Script, s: string)
    requires ReadsAscii(script)
    ensures ReadsAtLeast(script, s, Filter(IsDigit, s))
  {
    if s != [] {
      var front, c := s[..|s| - 1], s[|s| - 1];
      AsciiIsLeast(script, front);
      ReadsAtLeastNext(script, front, Filter(IsDigit, front), c);
      FilterAppend(IsDigit, front, c);
      FrontAndLast(s);
    }
  }

  // ----- where the two lists agree -----

  lemma PyPrefixNamesAre(q: nat, index: int)
    requires q < PREFIXES
    ensures PyPrefixNames(Prefix(q), index)
         == [HostName(Prefix(q), AtLeastOne(index + Offset(0))), HostName(Prefix(q), AtLeastOne(index + Offset(1))),
             HostName(Prefix(q), AtLeastOne(index + Offset(2)))]
  {
  }

  lemma ProbeNamesOf(q: nat, index: int)
    requires q < PREFIXES
    ensures ProbeNames(index)[3 * q..3 * q + 3]
         == [HostName(Prefix(q), AtLeastOne(index + Offset(0))), HostName(Prefix(q), AtLeastOne(index + Offset(1))),
             HostName(Prefix(q), AtLeastOne(index + Offset(2)))]
  {
    ProbeIndex(q, 0);
    ProbeIndex(q, 1);
    ProbeIndex(q, 2);
  }

  lemma FourParts(s: seq<string>)
    requires |s| == 12
    ensures s == s[0..3] + s[3..6] + s[6..9] + s[9..12]
  {
  }

  /** Both languages look up the same prefixes and offsets in the same order. */
  lemma PyNamesAre(index: int)
    ensures PyNames(index) == ProbeNames(index)
  {
    for q := 0 to PREFIXES
      invariant forall p :: 0 <= p < q ==> PyPrefixNames(Prefix(p), index) == ProbeNames(index)[3 * p..3 * p + 3]
    {
      PyPrefixNamesAre(q, index);
      ProbeNamesOf(q, index);
    }
    assert Prefix(0) == "rtr" && Prefix(1) == "sw" && Prefix(2) == "fw" && Prefix(3) == "gw";
    FourParts(ProbeNames(index));
  }

  /** For a plain host both languages probe the same names, so Go's neighbours are Python's with
      repetitions dropped. */
  lemma NeighborsAgree(script: Script, d: Device, byHost: map<string, Device>)
    requires Keyed(byHost) && Plain(script, d.hostname)
    ensures NeighborsPython(script, d, byHost).Some?
    ensures NeighborsOf(d, byHost) == Dedupe(NeighborsPython(script, d, byHost).value)
  {
    SuffixAgrees(d.hostname);
    var i: int := SuffixUnbounded(d.hostname);
    SameProbes(i);
    PyNamesAre(i);
    ResolveDedupes(ProbeNames(i), |ProbeNames(i)|, d.hostname, byHost);
  }

  lemma SameProbes(i: Int64)
    requires 0 <= i < MAX_INT64
    ensures ProbeNames64(i) == ProbeNames(i)
  {
    Wrap64InRange(i);
    Wrap64InRange(i + 1);
    Wrap64InRange(i - 1);
  }

  // ----- where they differ -----

  /** The indices the two languages probe. */
  predicate GoProbes(index: Int64, j: int) {
    j == AtLeastOne(index) || j == AtLeastOne(Wrap64(index + 1)) || j == AtLeastOne(Wrap64(index - 1))
  }

  predicate PyProbes(n: int, j: int) {
    j == AtLeastOne(n) || j == AtLeastOne(n + 1) || j == AtLeastOne(n - 1)
  }

  lemma GoNameAt(index: Int64, k: nat)
    requires k < 12
    ensures exists j: nat :: GoProbes(index, j) && ProbeNames64(index)[k] == HostName(Prefix(k / 3), j)
  {
    Wrap64InRange(index);
    var j := AtLeastOne(Wrap64(index + Offset(k % 3)));
    ProbeNameAt(index, k);
    assert GoProbes(index, j) && ProbeNames64(index)[k] == HostName(Prefix(k / 3), j);
  }

  lemma GoOffset(index: Int64, j: nat) returns (o: nat)
    requires GoProbes(index, j)
    ensures o < OFFSETS && j == AtLeastOne(Wrap64(index + Offset(o)))
  {
    Wrap64InRange(index);
    o := if j == AtLeastOne(index) then 0 else if j == AtLeastOne(Wrap64(index + 1)) then 1 else 2;
  }

  /** A canonical name is probed exactly when its index is. */
  lemma GoProbesName(index: Int64, q: nat, j: nat)
    requires q < PREFIXES
    ensures HostName(Prefix(q), j) in ProbeNames64(index) <==> GoProbes(index, j)
  {
    if HostName(Prefix(q), j) in ProbeNames64(index) {
      var k :| 0 <= k < 12 && ProbeNames64(index)[k] == HostName(Prefix(q), j);
      GoNameAt(index, k);
      var i: nat :| GoProbes(index, i) && ProbeNames64(index)[k] == HostName(Prefix(k / 3), i);
      HostNameIndex(q, j, k / 3, i);
    }
    if GoProbes(index, j) {
      var o := GoOffset(index, j);
      ProbeAt(index, q, o);
    }
  }

  lemma PyNameAt(n: nat, k: nat)
    requires k < 12
    ensures exists j: nat :: PyProbes(n, j) && ProbeNames(n)[k] == HostName(Prefix(k / 3), j)
  {
    var j := AtLeastOne(n + Offset(k % 3));
    assert PyProbes(n, j) && ProbeNames(n)[k] == HostName(Prefix(k / 3), j);
  }

  lemma PyOffset(n: nat, q: nat, j: nat)
    requires q < PREFIXES && PyProbes(n, j)
    ensures HostName(Prefix(q), j) in ProbeNames(n)
  {
    var o := if j == AtLeastOne(n) then 0 else if j == AtLeastOne(n + 1) then 1 else 2;
    ProbeIndex(q, o);
    assert ProbeNames(n)[3 * q + o] == HostName(Prefix(q), j);
  }

  lemma PyProbesName(n: nat, q: nat, j: nat)
    requires q < PREFIXES
    ensures HostName(Prefix(q), j) in ProbeNames(n) <==> PyProbes(n, j)
  {
    if HostName(Prefix(q), j) in ProbeNames(n) {
      var k :| 0 <= k < 12 && ProbeNames(n)[k] == HostName(Prefix(q), j);
      PyNameAt(n, k);
      var i: nat :| PyProbes(n, i) && ProbeNames(n)[k] == HostName(Prefix(k / 3), i);
      HostNameIndex(q, j, k / 3, i);
    }
    if PyProbes(n, j) {
      PyOffset(n, q, j);
    }
  }

  /** Different readings probe different small indices. */
  lemma SomeIndexTells(index: Int64, n: nat) returns (j: nat)
    requires n >= MAX_INT64 || (0 <= index < MAX_INT64 && n != index)
    ensures 1 <= j < MAX_INT64 && (GoProbes(index, j) <==> !PyProbes(n, j))
  {
    if n >= MAX_INT64 {
      j := LowProbe(index);
    } else {
      Wrap64InRange(index + 1);
      Wrap64InRange(index - 1);
      j := if n < index then index + 1
           else if index >= 2 then index - 1
           else if n >= 3 then 1
           else n + 1;
      if n < index && index + 1 == MAX_INT64 {
        j := if n + 2 < index then index - 1 else AtLeastOne(n - 1);
      }
    }
  }

  /** Go always probes an index that is at least two below the largest. */
  lemma LowProbe(index: Int64) returns (j: nat)
    ensures 1 <= j <= MAX_INT64 - 2 && GoProbes(index, j)
  {
    if index == MAX_INT64 {
      j := 1;
    } else if index == MAX_INT64 - 1 {
      Wrap64InRange(index - 1);
      j := MAX_INT64 - 2;
    } else {
      j := AtLeastOne(index);
    }
  }

  lemma PlainChars(script: Script, q: nat, j: nat)
    requires ReadsAscii(script) && q < PREFIXES
    ensures AsciiOnly(script, HostName(Prefix(q), j))
  {
    var head, pad := Prefix(q) + "-", Pad(2, j);
    assert head == "rtr-" || head == "sw-" || head == "fw-" || head == "gw-";
    assert forall c :: c in head ==> c as int < 128 && !IsDigit(c);
    assert HostName(Prefix(q), j) == head + pad;
  }

  /** Canonical names are plain while their index is below the largest 64-bit number. */
  lemma CanonicalIsPlain(script: Script, q: nat, j: nat)
    requires ReadsAscii(script) && q < PREFIXES && j < MAX_INT64
    ensures Plain(script, HostName(Prefix(q), j)) && HostName(Prefix(q), j) != ""
  {
    PlainChars(script, q, j);
    DigitsOfHostName(q, j);
    NineteenDigits();
    PrintFits(j, 19);
    PadLength(2, j);
    AsciiIsReadAlike(script, HostName(Prefix(q), j));
    SuffixOfHostName(q, j);
  }

  /** Where Python reads a number that fits, Go reads what the ASCII digits spell. */
  lemma SmallReading(script: Script, host: string, n: nat)
    requires ReadsAscii(script) && PySuffix(script, host) == Some(n) && n < MAX_INT64
    ensures 0 <= Suffix64(host) == SuffixUnbounded(host) < MAX_INT64
  {
    SuffixAgrees(host);
    PickedHasAscii(script, host);
    AsciiIsLeast(script, Filter(Picked(script), host));
  }

  /** For a host that is read but not plain, some plain host is a neighbour in one language only. */
  lemma SomeNameTells(script: Script, host: string, n: nat, q: nat) returns (name: string)
    requires ReadsAscii(script) && PySuffix(script, host) == Some(n) && !Plain(script, host) && q < PREFIXES
    ensures Plain(script, name) && name != "" && name != host
    ensures name in ProbeNames64(Suffix64(host)) <==> name !in ProbeNames(n)
  {
    if n < MAX_INT64 {
      SmallReading(script, host, n);
    }
    var j := SomeIndexTells(Suffix64(host), n);
    name := HostName(Prefix(q), j);
    CanonicalIsPlain(script, q, j);
    GoProbesName(Suffix64(host), q, j);
    PyProbesName(n, q, j);
  }

  lemma {:induction false} NoneFound(names: seq<string>, n: nat, host: string, byHost: map<string, Device>)
    requires n <= |names| && forall name :: name in names && name in byHost ==> name == host
    ensures ResolveRepeating(names, n, host, byHost) == []
    decreases n
  {
    if n > 0 {
      NoneFound(names, n - 1, host, byHost);
      assert names[n - 1] in names;
    }
  }

  lemma ProbedByOneOnly(go: seq<string>, py: seq<string>, host: string, next: Device)
    requires (next.hostname in go <==> next.hostname !in py) && next.hostname != host
    ensures Resolve(go, host, map[next.hostname := next]) != Dedupe(ResolveAll(py, host, map[next.hostname := next]))
  {
    var byHost := map[next.hostname := next];
    ResolvedMembers(go, host, byHost);
    ResolvedMembers(py, host, byHost);
    ResolveDedupes(py, |py|, host, byHost);
    assert next in Resolve(py, host, byHost) <==> next !in Resolve(go, host, byHost);
  }

  lemma NeighborsDiffer(script: Script, d: Device, n: nat) returns (next: Device)
    requires ReadsAscii(script) && PySuffix(script, d.hostname) == Some(n) && !Plain(script, d.hostname)
    ensures NeighborsOf(d, map[next.hostname := next]) != Dedupe(NeighborsPython(script, d, map[next.hostname := next]).value)
  {
    var name := SomeNameTells(script, d.hostname, n, 0);
    next := d.(hostname := name);
    PyNamesAre(n);
    ProbedByOneOnly(ProbeNames64(Suffix64(d.hostname)), ProbeNames(n), d.hostname, next);
  }

  /** Go's list is Python's with repetitions dropped. */
  ghost predicate SameNeighbors(script: Script, d: Device, byHost: map<string, Device>) {
    var py := NeighborsPython(script, d, byHost);
    py.Some? && NeighborsOf(d, byHost) == Dedupe(py.value)
  }

  /** The two languages find the same neighbours of a host in every batch exactly when the host is plain. */
  lemma NeighborsAgreeIff(script: Script, d: Device)
    requires ReadsAscii(script)
    ensures (forall byHost :: Keyed(byHost) ==> SameNeighbors(script, d, byHost)) <==> Plain(script, d.hostname)
  {
    if Plain(script, d.hostname) {
      forall byHost | Keyed(byHost) ensures SameNeighbors(script, d, byHost) {
        NeighborsAgree(script, d, byHost);
      }
    } else if PySuffix(script, d.hostname).None? {
      assert Keyed(map[]) && !SameNeighbors(script, d, map[]);
    } else {
      var next := NeighborsDiffer(script, d, PySuffix(script, d.hostname).value);
      assert Keyed(map[next.hostname := next]) && !SameNeighbors(script, d, map[next.hostname := next]);
    }
  }

  /** One digit of another script at the end of a name without digits: Go reads 1, so the host is plain
      only if the digit is another script's 1. */
  lemma OneForeignDigit(script: Script, stem: string, c: char)
    requires ReadsAscii(script) && AsciiOnly(script, stem) && Filter(IsDigit, stem) == [] && c as int >= 128 && script(c) != NotDigit
    ensures Plain(script, stem + [c]) <==> script(c) == Value(1)
  {
    PickedAscii(script, stem);
    FilterAppend(Picked(script), stem, c);
    FilterAppend(IsDigit, stem, c);
    ToIntNext(script, [], c);
    assert [] + [c] == [c];
  }
}
