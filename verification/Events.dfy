/** Agent events and the log an event sink keeps. */
module Events {
  import opened Options
  import opened Sequences
  import J = Json

  datatype Event = Event(
    kind: string, runId: string, turnId: string, sequence: int, payload: J.Object, createdAt: string)

  const EVENT_TYPES: set<string> := {
    "run_started", "turn_started", "prompt_ready", "prompt_profile", "model_response", "model_stream",
    "action_parsed", "approval_requested", "approval_resumed", "policy_decision", "tool_started",
    "tool_finished", "timeline_updated", "checkpoint_created", "loop_warning", "error",
    "run_finished", "run_cancelled", "run_timeout"
  }

  const TERMINAL_EVENT_TYPES: set<string> := {"run_finished", "run_cancelled", "run_timeout"}

  predicate IsTerminal(e: Event) {
    e.kind in TERMINAL_EVENT_TYPES
  }

  /** A sink numbers an event that comes without a positive sequence. */
  function Numbered(e: Event, stored: nat): Event {
    if e.sequence <= 0 then e.(sequence := stored + 1) else e
  }

  function Append(log: seq<Event>, e: Event): seq<Event> {
    log + [Numbered(e, |log|)]
  }

  /** The log after emitting es into an empty sink. */
  function LogOf(es: seq<Event>): seq<Event> {
    if es == [] then [] else Append(LogOf(es[..|es| - 1]), es[|es| - 1])
  }

  function OfRun(runId: string): Event -> bool {
    (e: Event) => e.runId == runId
  }

  /** `records(run_id=...)` */
  function Scoped(log: seq<Event>, runId: Option<string>): seq<Event> {
    match runId
    case None => log
    case Some(id) => Filter(OfRun(id), log)
  }

  /** An emitted event comes last, and keeps its sequence if that is positive; otherwise it gets the next number. */
  lemma AppendMeans(log: seq<Event>, e: Event)
    ensures var after := Append(log, e);
            && |after| == |log| + 1 && after[..|log|] == log
            && after[|log|].(sequence := e.sequence) == e
            && after[|log|].sequence == if 0 < e.sequence then e.sequence else |log| + 1
  {
  }

  /** The records of one run are its events, each as often as the log holds it. */
  lemma ScopedMeans(log: seq<Event>, runId: string, e: Event)
    ensures Scoped(log, None) == log
    ensures multiset(Scoped(log, Some(runId)))[e] == if e.runId == runId then multiset(log)[e] else 0
  {
    FilterCounts(OfRun(runId), log, e);
  }

  ghost predicate StrictlyIncreasing(es: seq<Event>) {
    forall i, j :: 0 <= i < j < |es| ==> es[i].sequence < es[j].sequence
  }

  /** A sink that numbers every event itself counts 1, 2, 3, and so on. */
  lemma {:induction false} SelfNumberedLog(es: seq<Event>)
    requires forall e | e in es :: e.sequence <= 0
    ensures |LogOf(es)| == |es| && forall i :: 0 <= i < |es| ==> LogOf(es)[i].sequence == i + 1
    ensures StrictlyIncreasing(LogOf(es))
  {
    if es != [] {
      SelfNumberedLog(es[..|es| - 1]);
    }
  }
}
