/** The recommended actions as each of the two programs spells them. */
module ActionTexts {

  /** One sentence for each rule. */
  datatype Sentences = Sentences(drain: string, standby: string, failOver: string,
                                 interfaces: string, airflow: string, edgeRoute: string)

  /** internal/incidents/incidents.go. */
  function ActionSentences(): Sentences {
    Sentences(
      "Drain traffic from the affected path and apply QoS shaping.",
      "Move inspection-heavy flows to standby firewall and verify policy hit counters.",
      "Fail over services, collect process table, and restart the affected network daemon.",
      "Check interface errors, optical levels, and upstream queue drops.",
      "Shift access load, validate fan telemetry, and inspect rack airflow.",
      "Prefer secondary edge route, verify BGP timers, and compare route dampening events.")
  }

  /** backend/app/analytics.py. */
  function PythonSentences(): Sentences {
    Sentences(
      "Drain traffic from the affected path and apply QoS shaping.",
      "Move inspection-heavy flows to standby firewall and verify policy hit counters.",
      "Fail over services, collect process table, and restart the affected network daemon.",
      "Check interface errors, optical levels, and upstream queue drops.",
      "Shift access load, validate fan telemetry, and inspect rack airflow.",
      "Prefer secondary edge route, verify BGP timers, and compare route dampening events.")
  }

  predicate SameSentences(a: Sentences, b: Sentences) {
    a == b
  }

  lemma SentencesAgree()
    ensures SameSentences(ActionSentences(), PythonSentences())
  {
  }
}
