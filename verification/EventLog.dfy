/** A run's event log and the validator that accepts or refuses it. */
module EventLog {
  import opened Text

  const MAX_EVENTS := 10_000
  const MAX_LOG_BYTES := 10 * 1024 * 1024

  const STATUSES := {"confirmed", "insufficient_evidence", "refuted"}
  const REASONS := {"goal_satisfied", "goal_not_satisfied", "target_not_observed", "confidence_below_threshold",
                    "conflicting_observations", "evidence_missing", "stale_observation"}
  const HINTS := {"re_observe", "retry_action", "ask_confirm", "abort", "none"}

  datatype Verdict = Verdict(
    status: string, reason: Option<string>, hint: Option<string>,
    required: seq<string>, evaluated: seq<string>, satisfied: seq<string>, refs: seq<string>)

  datatype Payload =
    | TaskAccepted
    | TaskGraph
    | ActionRequest(action: string, kind: string, target: string, destination: Option<string>)
    | Observation(seen: string)
    | ActionResult(action: string, completed: bool, entity: Option<string>, location: Option<string>)
    | Verification(verdict: Verdict)
    | TaskTerminal(status: string)
    | OtherKnown(kind: string)      // emotion, fault, policy_violation
    | Unknown(kind: string)

  datatype Evaluation = Evaluation(commit: string, scenario: string, seed: int)

  datatype Event = Event(
    id: string, run: string, sequence: int, at: string, payload: Payload, refs: seq<string>, evaluation: Evaluation)

  /** What the caller pins the log to, and which ISO texts the library reads as an
      instant with an explicit offset. */
  datatype Expected = Expected(
    run: string, scenario: Option<string>, seed: Option<int>, commit: Option<string>, aware: string -> bool)

  /** The zone letter of section 5.6 of RFC 3339, written out for the library. */
  function Zoned(at: string): string {
    if at != "" && (at[|at| - 1] == 'Z' || at[|at| - 1] == 'z') then at[..|at| - 1] + "+00:00" else at
  }

  predicate TimeOk(at: string, aware: string -> bool) { at != "" && aware(Zoned(at)) }

  predicate Pins<T(==)>(wanted: Option<T>, actual: T) { wanted.Some? ==> wanted.value == actual }

  predicate EvaluationOk(e: Evaluation, x: Expected) {
    && e.commit != "" && e.scenario != ""
    && Pins(x.scenario, e.scenario) && Pins(x.seed, e.seed) && Pins(x.commit, e.commit)
  }

  predicate EventOk(e: Event, i: nat, x: Expected) {
    && e.sequence == i && e.run == x.run && e.id != ""
    && !e.payload.Unknown? && TimeOk(e.at, x.aware) && EvaluationOk(e.evaluation, x)
  }

  predicate Unique(s: seq<string>) { forall i, j | 0 <= i < j < |s| :: s[i] != s[j] }

  predicate ConditionsOk(s: seq<string>) { Unique(s) && "" !in s }

  predicate VerdictOk(v: Verdict, refs: seq<string>) {
    && v.status in STATUSES
    && (v.reason.Some? ==> v.reason.value in REASONS) && (v.hint.Some? ==> v.hint.value in HINTS)
    && refs != [] && v.refs != []
    && ConditionsOk(v.required) && ConditionsOk(v.evaluated) && ConditionsOk(v.satisfied)
    && v.required != []
    && Members(v.satisfied) <= Members(v.evaluated) <= Members(v.required)
    && (v.status == "confirmed" ==> Members(v.satisfied) == Members(v.required))
  }

  predicate VerificationOk(e: Event) { e.payload.Verification? ==> VerdictOk(e.payload.verdict, e.refs) }

  function LastVerdict(log: seq<Event>): Option<string> {
    if log == [] then None
    else if log[|log| - 1].payload.Verification? then Some(log[|log| - 1].payload.verdict.status)
    else LastVerdict(log[..|log| - 1])
  }

  function LastTerminal(log: seq<Event>): Option<string> {
    if log == [] then None
    else if log[|log| - 1].payload.TaskTerminal? then Some(log[|log| - 1].payload.status)
    else LastTerminal(log[..|log| - 1])
  }

  predicate DistinctIds(log: seq<Event>) {
    forall i, j | 0 <= i < j < |log| :: log[i].id != log[j].id
  }

  predicate EventsOk(log: seq<Event>, x: Expected) { forall i | 0 <= i < |log| :: EventOk(log[i], i, x) }

  predicate VerificationsOk(log: seq<Event>) { forall i | 0 <= i < |log| :: VerificationOk(log[i]) }

  /** Every requirement on a log, as one statement. */
  predicate LogOk(log: seq<Event>, x: Expected) {
    && 0 < |log| <= MAX_EVENTS
    && EventsOk(log, x) && DistinctIds(log) && VerificationsOk(log)
    && LastVerdict(log).Some?
    && (LastTerminal(log).Some? ==> LastTerminal(log) == LastVerdict(log))
  }

  method CheckEnvelopes(log: seq<Event>, x: Expected) returns (ok: bool)
    ensures ok <==> EventsOk(log, x) && DistinctIds(log)
  {
    var seen: set<string> := {};
    for i := 0 to |log|
      invariant forall j | 0 <= j < i :: EventOk(log[j], j, x)
      invariant forall j | 0 <= j < i :: log[j].id in seen
      invariant forall id | id in seen :: exists j | 0 <= j < i :: log[j].id == id
      invariant forall j, k | 0 <= j < k < i :: log[j].id != log[k].id
    {
      if !EventOk(log[i], i, x) || log[i].id in seen { return false; }
      seen := seen + {log[i].id};
    }
    return true;
  }

  method CheckVerifications(log: seq<Event>) returns (ok: bool, status: Option<string>)
    ensures ok <==> VerificationsOk(log)
    ensures ok ==> status == LastVerdict(log)
  {
    status := None;
    for i := 0 to |log|
      invariant forall j | 0 <= j < i :: VerificationOk(log[j])
      invariant status == LastVerdict(log[..i])
    {
      assert log[..i + 1][..i] == log[..i];
      if log[i].payload.Verification? {
        if !VerdictOk(log[i].payload.verdict, log[i].refs) { return false, status; }
        status := Some(log[i].payload.verdict.status);
      }
    }
    assert log[..|log|] == log;
    return true, status;
  }

  method FinalTerminal(log: seq<Event>) returns (status: Option<string>)
    ensures status == LastTerminal(log)
  {
    status := None;
    for i := 0 to |log|
      invariant status == LastTerminal(log[..i])
    {
      assert log[..i + 1][..i] == log[..i];
      if log[i].payload.TaskTerminal? { status := Some(log[i].payload.status); }
    }
    assert log[..|log|] == log;
  }

  /** The validator accepts exactly the logs, of a file of `size` bytes, that meet
      every requirement. */
  method Validate(log: seq<Event>, size: nat, x: Expected) returns (ok: bool)
    ensures ok <==> size <= MAX_LOG_BYTES && LogOk(log, x)
  {
    if size > MAX_LOG_BYTES { return false; }
    if log == [] || |log| > MAX_EVENTS { return false; }
    ok := CheckEnvelopes(log, x);
    if !ok { return; }
    var verdict: Option<string>;
    ok, verdict := CheckVerifications(log);
    if !ok { return; }
    var terminal := FinalTerminal(log);
    return verdict.Some? && (terminal.Some? ==> terminal == verdict);
  }
}
