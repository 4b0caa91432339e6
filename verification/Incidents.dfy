/** Incident records, decisions, correlation candidates and incident identifiers
    (internal/incidents/incidents.go). */
module Incidents {
  import opened Sequences
  import opened Decimal
  import opened Rfc3339

  datatype Severity = Low | Medium | High | Critical

  datatype Status = Active | Resolved | Ignored

  datatype Incident = Incident(
    id: string, key: string, sequence: nat, severity: Severity, affected: seq<string>, rootCause: string,
    status: Status, createdAt: Instant, updatedAt: Instant, confidence: real, slaMinutes: int, action: string)

  datatype Decision = Decision(incidentId: string, status: Status, actor: string, decidedAt: Instant)

  datatype Candidate = Candidate(
    key: string, rootCause: string, severity: Severity, affected: seq<string>,
    confidence: real, slaMinutes: int, action: string)

  /** The status as requests and rows spell it. */
  function StatusText(s: Status): string {
    match s
    case Active => "active"
    case Resolved => "resolved"
    case Ignored => "ignored"
  }

  /** The incident reports what the candidate does and was created at the time. */
  predicate Carries(inc: Incident, c: Candidate, at: Instant) {
    && inc.key == c.key && inc.rootCause == c.rootCause && inc.severity == c.severity && inc.affected == c.affected
    && inc.confidence == c.confidence && inc.slaMinutes == c.slaMinutes && inc.action == c.action && inc.createdAt == at
  }

  /** Six hexadecimal characters of a digest. */
  type Digest = s: string | |s| == 6 witness "000000"

  /** The digest of (occurrence key, sequence, creation time).  Nothing is assumed about it:
      24 bits collide, and the lifecycle results say exactly what a collision costs. */
  type Hash = (string, nat, Instant) -> Digest

  function NewIncidentId(hash: Hash, key: string, sequence: nat, now: Instant): string {
    "INC-" + hash(key, sequence, now) + "-" + Pad(6, sequence)
  }

  lemma IdParts(hash: Hash, key: string, sequence: nat, now: Instant)
    ensures var id := NewIncidentId(hash, key, sequence, now);
            |id| >= 11 && id[..4] == "INC-" && id[10] == '-' && id[4..10] == hash(key, sequence, now) && id[11..] == Pad(6, sequence)
  {
  }

  /** Two identifiers are equal only when digest and sequence number both are.  So the
      occurrences of one key, which are numbered apart, can never share an identifier. */
  lemma IdsEqual(hash: Hash, k: string, n: nat, t: Instant, k': string, n': nat, t': Instant)
    ensures NewIncidentId(hash, k, n, t) == NewIncidentId(hash, k', n', t')
       <==> n == n' && hash(k, n, t) == hash(k', n', t')
  {
    IdParts(hash, k, n, t);
    IdParts(hash, k', n', t');
    ParsePad(6, n);
    ParsePad(6, n');
  }
}
