/** The scripted producer of event logs, and what holds of every log it builds. */
module ScriptedRun {
  import opened Text
  import opened EventLog

  datatype Fault =
    | NoFault | GraspFailure | ActuatorTimeout | MovingTarget
    | Occlusion | CameraDropout | StaleObservation

  predicate LowEvidence(f: Fault) { f.Occlusion? || f.CameraDropout? || f.StaleObservation? }

  predicate Recoverable(f: Fault) { f.GraspFailure? || f.ActuatorTimeout? }

  datatype Operation = Operation(entity: string, destination: string)

  function ActionId(n: nat): string { "act-" + Pad3(n) }

  function EventId(run: string, i: nat): string { run + "-evt-" + Pad3(i) }

  lemma ActionIdInjective(m: nat, n: nat)
    requires ActionId(m) == ActionId(n)
    ensures m == n
  {
    assert ActionId(m)[4..] == Pad3(m) && ActionId(n)[4..] == Pad3(n);
    Pad3Injective(m, n);
  }

  lemma EventIdInjective(run: string, i: nat, j: nat)
    requires EventId(run, i) == EventId(run, j)
    ensures i == j
  {
    var h := run + "-evt-";
    assert EventId(run, i)[|h|..] == Pad3(i) && EventId(run, j)[|h|..] == Pad3(j);
    Pad3Injective(i, j);
  }

  // ------------------------------------------------------- what a log says

  /** The log numbers its actions 1..n and runs them one at a time: each result
      answers the request before it; `open` while the last one is unanswered. */
  predicate Serial(log: seq<Event>, n: nat, open: bool) {
    if log == [] then n == 0 && !open
    else
      var front, p := log[..|log| - 1], log[|log| - 1].payload;
      if p.ActionRequest? then n > 0 && open && p.action == ActionId(n) && Serial(front, n - 1, false)
      else if p.ActionResult? then n > 0 && !open && p.action == ActionId(n) && Serial(front, n, true)
      else Serial(front, n, open)
  }

  predicate Requests(e: Event, k: nat) { e.payload.ActionRequest? && e.payload.action == ActionId(k) }

  predicate Answers(e: Event, k: nat) { e.payload.ActionResult? && e.payload.action == ActionId(k) }

  /** Action `k` is requested once, at `i`, and answered once, later, at `j`. */
  predicate Matched(log: seq<Event>, k: nat, i: nat, j: nat) {
    && i < j < |log| && Requests(log[i], k) && Answers(log[j], k)
    && (forall l | 0 <= l < |log| && Requests(log[l], k) :: l == i)
    && (forall l | 0 <= l < |log| && Answers(log[l], k) :: l == j)
  }

  predicate Unanswered(log: seq<Event>, k: nat) { forall l | 0 <= l < |log| :: !Answers(log[l], k) }

  predicate RequestedAt(log: seq<Event>, k: nat, i: nat) {
    i < |log| && Requests(log[i], k) && forall l | 0 <= l < |log| && Requests(log[l], k) :: l == i
  }

  lemma {:induction false} BeyondUntouched(log: seq<Event>, n: nat, open: bool, k: nat)
    requires Serial(log, n, open) && k > n
    ensures Unanswered(log, k) && forall l | 0 <= l < |log| :: !Requests(log[l], k)
  {
    if log == [] {
    } else {
      var front, p := log[..|log| - 1], log[|log| - 1].payload;
      if p.ActionRequest? {
        BeyondUntouched(front, n - 1, false, k);
        if ActionId(k) == ActionId(n) { ActionIdInjective(k, n); }
      } else if p.ActionResult? {
        BeyondUntouched(front, n, true, k);
        if ActionId(k) == ActionId(n) { ActionIdInjective(k, n); }
      } else {
        BeyondUntouched(front, n, open, k);
      }
      assert forall l | 0 <= l < |front| :: log[l] == front[l];
    }
  }

  lemma {:induction false} OpenAction(log: seq<Event>, n: nat) returns (i: nat)
    requires Serial(log, n, true)
    ensures RequestedAt(log, n, i) && Unanswered(log, n)
  {
    var front, p := log[..|log| - 1], log[|log| - 1].payload;
    assert forall l | 0 <= l < |front| :: log[l] == front[l];
    if p.ActionRequest? {
      i := |front|;
      BeyondUntouched(front, n - 1, false, n);
    } else {
      i := OpenAction(front, n);
    }
  }

  /** Every action of a finished log is requested exactly once and has exactly one
      result, which comes later. */
  lemma {:induction false} EveryActionAnswered(log: seq<Event>, n: nat, open: bool, k: nat) returns (i: nat, j: nat)
    requires Serial(log, n, open) && 1 <= k <= n && (open ==> k < n)
    ensures Matched(log, k, i, j)
  {
    var front, p := log[..|log| - 1], log[|log| - 1].payload;
    assert forall l | 0 <= l < |front| :: log[l] == front[l];
    if p.ActionRequest? {
      i, j := EveryActionAnswered(front, n - 1, false, k);
      if ActionId(k) == ActionId(n) { ActionIdInjective(k, n); }
    } else if p.ActionResult? && k == n {
      i := OpenAction(front, n);
      j := |front|;
    } else if p.ActionResult? {
      i, j := EveryActionAnswered(front, n, true, k);
      if ActionId(k) == ActionId(n) { ActionIdInjective(k, n); }
    } else {
      i, j := EveryActionAnswered(front, n, open, k);
    }
  }

  /** The spatial claims of completed results, in order. */
  function Placed(log: seq<Event>): seq<(string, string)> {
    if log == [] then []
    else
      var p := log[|log| - 1].payload;
      Placed(log[..|log| - 1]) + if p.ActionResult? then ClaimOf(p) else []
  }

  /** What a result claims: an entity and its location, from a completed action. */
  function ClaimOf(p: Payload): seq<(string, string)>
    requires p.ActionResult?
  {
    if p.completed && p.entity.Some? && p.location.Some? then [(p.entity.value, p.location.value)] else []
  }

  function Claim(o: Operation): (string, string) { (o.entity, "in:" + o.destination) }

  function Claims(ops: seq<Operation>): seq<(string, string)> {
    seq(|ops|, i requires 0 <= i < |ops| => Claim(ops[i]))
  }

  lemma ClaimsSnoc(ops: seq<Operation>, i: nat)
    requires i < |ops|
    ensures Claims(ops[..i]) + [Claim(ops[i])] == Claims(ops[..i + 1]) && (i == 0 ==> Claims(ops[..i]) == [])
  {
  }

  function StatusOf(f: Fault): string {
    if LowEvidence(f) then "insufficient_evidence" else if f.MovingTarget? then "refuted" else "confirmed"
  }

  // ---------------------------------------------------------- the verdicts

  /** A task profile whose verdicts the validator can accept. */
  predicate ProfileOk(required: seq<string>) { required != [] && ConditionsOk(required) }

  function RecoveryHintFor(status: string): string {
    if status == "insufficient_evidence" then "re_observe" else if status == "confirmed" then "none" else "retry_action"
  }

  function FailureVerdict(required: seq<string>, refs: seq<string>): Verdict {
    Verdict("refuted", Some("goal_not_satisfied"), Some("retry_action"), required, required, [], refs)
  }

  function ReasonFor(f: Fault): string {
    if f.StaleObservation? then "stale_observation"
    else if LowEvidence(f) then "confidence_below_threshold"
    else if f.MovingTarget? then "goal_not_satisfied"
    else "goal_satisfied"
  }

  function Satisfied(f: Fault, required: seq<string>): seq<string> {
    if StatusOf(f) == "refuted" || required == [] then []
    else if StatusOf(f) == "confirmed" then required
    else required[..|required| - 1]
  }

  function FinalVerdict(f: Fault, required: seq<string>, refs: seq<string>): Verdict {
    Verdict(StatusOf(f), Some(ReasonFor(f)), Some(RecoveryHintFor(StatusOf(f))),
            required, required, Satisfied(f, required), refs)
  }

  lemma FailureVerdictOk(required: seq<string>, refs: seq<string>)
    requires ProfileOk(required) && refs != []
    ensures VerdictOk(FailureVerdict(required, refs), refs)
  {
  }

  lemma FinalVerdictOk(f: Fault, required: seq<string>, refs: seq<string>)
    ensures VerdictOk(FinalVerdict(f, required, refs), refs) <==> ProfileOk(required) && refs != []
  {
    if required != [] { assert Members(required[..|required| - 1]) <= Members(required); }
  }

  /** First occurrences, in order. */
  function Dedupe(s: seq<string>): (r: seq<string>)
    ensures r == [] <==> s == []
  {
    if s == [] then []
    else
      var front := Dedupe(s[..|s| - 1]);
      if s[|s| - 1] in front then front else front + [s[|s| - 1]]
  }

  // ---------------------------------------------------------- the producer

  /** What the producer is asked for. */
  datatype Job = Job(run: string, evaluation: Evaluation, required: seq<string>, fault: Fault, clock: Clock)

  /** The run's first instant, the library's ISO text of an instant in UTC, and which
      texts the library reads as an instant with an offset. */
  datatype Clock = Clock(start: int, iso: int -> string, aware: string -> bool)

  const UTC := "+00:00"

  /** What the library promises: the text ends in its only offset, and reads back. */
  ghost predicate ClockOk(c: Clock) {
    forall n :: FirstAt(c.iso(n), UTC, |c.iso(n)| - |UTC|) && c.aware(c.iso(n))
  }

  /** The offset replaced by the zone letter. */
  function Stamp(text: string): string {
    var i := Find(text, UTC);
    if i.None? then text else text[..i.value] + "Z" + text[i.value + |UTC|..]
  }

  function OccurredAt(c: Clock, i: nat): string { Stamp(c.iso(c.start + 4 * i)) }

  lemma StampOf(body: string, text: string)
    requires text == body + UTC && FirstAt(text, UTC, |body|)
    ensures Stamp(text) == body + "Z"
  {
    FindIsFirst(text, UTC, |body|);
    assert text[..|body|] == body && text[|body| + |UTC|..] == "";
  }

  lemma ZonedBack(body: string)
    ensures Zoned(body + "Z") == body + UTC
  {
    assert (body + "Z")[..|body|] == body;
  }

  /** Every event time the producer writes is one the validator reads. */
  lemma TimesRead(c: Clock, i: nat)
    requires ClockOk(c)
    ensures TimeOk(OccurredAt(c, i), c.aware)
  {
    var t := c.iso(c.start + 4 * i);
    var k := |t| - |UTC|;
    assert FirstAt(t, UTC, k);
    assert t == t[..k] + t[k..] && t[k..] == t[k..k + |UTC|];
    StampOf(t[..k], t);
    ZonedBack(t[..k]);
  }

  predicate Stamped(log: seq<Event>, job: Job) {
    forall i | 0 <= i < |log| ::
      && log[i].sequence == i && log[i].id == EventId(job.run, i) && log[i].run == job.run
      && log[i].evaluation == job.evaluation && log[i].at == OccurredAt(job.clock, i) && !log[i].payload.Unknown?
  }

  /** What every log under construction satisfies. */
  predicate Building(log: seq<Event>, job: Job, n: nat, open: bool, placed: seq<(string, string)>) {
    && Stamped(log, job) && Serial(log, n, open) && Placed(log) == placed
    && (ProfileOk(job.required) ==> VerificationsOk(log))
  }

  function Next(log: seq<Event>, job: Job, p: Payload, refs: seq<string>): Event {
    Event(EventId(job.run, |log|), job.run, |log|, OccurredAt(job.clock, |log|), p, refs, job.evaluation)
  }

  lemma StampedNext(log: seq<Event>, job: Job, p: Payload, refs: seq<string>)
    requires Stamped(log, job) && !p.Unknown?
    ensures Stamped(log + [Next(log, job, p, refs)], job)
  {
  }

  lemma VerifiedNext(log: seq<Event>, e: Event)
    requires VerificationsOk(log) && VerificationOk(e)
    ensures VerificationsOk(log + [e])
  {
  }

  lemma RequestNext(log: seq<Event>, job: Job, n: nat, placed: seq<(string, string)>, p: Payload)
    requires Building(log, job, n, false, placed) && p.ActionRequest? && p.action == ActionId(n + 1)
    ensures Building(log + [Next(log, job, p, [])], job, n + 1, true, placed)
  {
    var e := Next(log, job, p, []);
    StampedNext(log, job, p, []);
    assert (log + [e])[..|log|] == log;
    if ProfileOk(job.required) { VerifiedNext(log, e); }
  }

  lemma ResultNext(log: seq<Event>, job: Job, n: nat, placed: seq<(string, string)>, p: Payload, refs: seq<string>)
    requires Building(log, job, n, true, placed) && p.ActionResult? && p.action == ActionId(n)
    ensures Building(log + [Next(log, job, p, refs)], job, n, false, placed + ClaimOf(p))
  {
    var e := Next(log, job, p, refs);
    StampedNext(log, job, p, refs);
    assert (log + [e])[..|log|] == log;
    if ProfileOk(job.required) { VerifiedNext(log, e); }
    OpenIsPositive(log, n);
  }

  lemma {:induction false} OpenIsPositive(log: seq<Event>, n: nat)
    requires Serial(log, n, true)
    ensures n > 0
  {
    if !log[|log| - 1].payload.ActionRequest? { OpenIsPositive(log[..|log| - 1], n); }
  }

  lemma OtherNext(log: seq<Event>, job: Job, n: nat, open: bool, placed: seq<(string, string)>, p: Payload,
                  refs: seq<string>)
    requires Building(log, job, n, open, placed)
    requires !p.ActionRequest? && !p.ActionResult? && !p.Unknown?
    requires ProfileOk(job.required) && p.Verification? ==> VerdictOk(p.verdict, refs)
    ensures Building(log + [Next(log, job, p, refs)], job, n, open, placed)
  {
    var e := Next(log, job, p, refs);
    StampedNext(log, job, p, refs);
    assert (log + [e])[..|log|] == log;
    if ProfileOk(job.required) { VerifiedNext(log, e); }
  }

  class Producer {
    const job: Job
    var log: seq<Event>
    var actions: nat
    var evidence: seq<string>
    var recovered: bool

    constructor (job: Job)
      ensures this.job == job && log == [] && actions == 0 && evidence == [] && !recovered
      ensures Building(log, job, 0, false, [])
    {
      this.job := job;
      log, actions, evidence, recovered := [], 0, [], false;
    }

    method Append(p: Payload, refs: seq<string>)
      modifies this`log
      ensures log == old(log) + [Next(old(log), job, p, refs)]
    {
      var id, at := EventId(job.run, |log|), OccurredAt(job.clock, |log|);
      log := log + [Event(id, job.run, |log|, at, p, refs, job.evaluation)];
    }

    method NextActionId() returns (id: string)
      modifies this`actions
      ensures actions == old(actions) + 1 && id == ActionId(actions)
    {
      actions := actions + 1;
      return ActionId(actions);
    }

    method Request(kind: string, target: string, destination: Option<string>, ghost placed: seq<(string, string)>)
      returns (id: string)
      requires Building(log, job, actions, false, placed)
      modifies this`log, this`actions
      ensures Building(log, job, actions, true, placed) && id == ActionId(actions)
      ensures |log| == |old(log)| + 1
    {
      RequestNext(log, job, actions, placed, ActionRequest(ActionId(actions + 1), kind, target, destination));
      id := NextActionId();
      Append(ActionRequest(id, kind, target, destination), []);
    }

    /** The result of the open action. A completed result names its entity only
        together with a location, so it never makes half a claim. */
    method Finish(id: string, completed: bool, entity: string, location: Option<string>, ref: string,
                  ghost placed: seq<(string, string)>)
      requires Building(log, job, actions, true, placed) && id == ActionId(actions)
      modifies this`log
      ensures Building(log, job, actions, false,
                       placed + if completed && location.Some? then [(entity, location.value)] else [])
      ensures |log| == |old(log)| + 1
    {
      var named := if completed && location.None? then None else Some(entity);
      ResultNext(log, job, actions, placed, ActionResult(id, completed, named, location), [ref]);
      Append(ActionResult(id, completed, named, location), [ref]);
    }

    method IntermediateFailure(ref: string, ghost placed: seq<(string, string)>)
      requires Building(log, job, actions, false, placed)
      modifies this`log
      ensures Building(log, job, actions, false, placed) && |log| == |old(log)| + 1
    {
      var p := Verification(FailureVerdict(job.required, [ref]));
      if ProfileOk(job.required) { FailureVerdictOk(job.required, [ref]); }
      OtherNext(log, job, actions, false, placed, p, [ref]);
      Append(p, [ref]);
    }

    /** A failed first attempt at the open action, recorded and requested again. */
    method Retry(id: string, kind: string, entity: string, destination: Option<string>, ref: string,
                 ghost placed: seq<(string, string)>) returns (again: string)
      requires Building(log, job, actions, true, placed) && id == ActionId(actions)
      modifies this`log, this`actions, this`recovered
      ensures Building(log, job, actions, true, placed) && again == ActionId(actions)
      ensures |log| == |old(log)| + 3 && recovered
    {
      Finish(id, false, entity, None, ref, placed);
      assert placed + [] == placed;
      IntermediateFailure(ref, placed);
      again := Request(kind, entity, destination, placed);
      recovered := true;
    }

    method Observe(entity: string, fails: bool)
      requires Building(log, job, actions, false, [])
      modifies this
      ensures Building(log, job, actions, false, [])
      ensures |log| == |old(log)| + 3 + (if fails then 3 else 0)
      ensures |evidence| == |old(evidence)| + 1
    {
      var id := Request("observe", entity, None, []);
      if fails {
        id := Retry(id, "observe", entity, None, "sensor-log://" + job.run + "/" + entity + "/attempt-1", []);
      }
      var frame := "frame://" + job.run + "/" + entity;
      evidence := evidence + [frame];
      OtherNext(log, job, actions, true, [], Observation(entity), [frame]);
      Append(Observation(entity), [frame]);
      Finish(id, true, entity, None, frame, []);
    }

    method ObserveAll(objects: seq<string>, inspecting: bool)
      requires Building(log, job, actions, false, [])
      modifies this
      ensures Building(log, job, actions, false, [])
      ensures |log| == |old(log)| + ObservationEvents(job.fault, |objects|, inspecting)
      ensures |evidence| == |old(evidence)| + |objects|
    {
      for i := 0 to |objects|
        invariant Building(log, job, actions, false, [])
        invariant |log| == |old(log)| + ObservationEvents(job.fault, i, inspecting)
        invariant |evidence| == |old(evidence)| + i
      {
        Observe(objects[i], inspecting && Recoverable(job.fault) && i == 0);
      }
    }

    /** Grasp and place one object; stops after a moving target's failed grasp. */
    method Operate(o: Operation, first: bool, ghost placed: seq<(string, string)>) returns (failed: bool)
      requires Building(log, job, actions, false, placed)
      modifies this
      ensures failed == (first && job.fault.MovingTarget?)
      ensures Building(log, job, actions, false, if failed then placed else placed + [Claim(o)])
      ensures |log| == |old(log)| + OperationEvents(job.fault, first)
      ensures |evidence| > |old(evidence)|
    {
      var id := Request("grasp", o.entity, None, placed);
      var base := "motion-log://" + job.run + "/" + o.entity;
      if first && (job.fault.GraspFailure? || job.fault.MovingTarget?) {
        evidence := evidence + [base + "/grasp-attempt-1"];
        if job.fault.MovingTarget? {
          Finish(id, false, o.entity, None, base + "/grasp-attempt-1", placed);
          assert placed + [] == placed;
          return true;
        }
        id := Retry(id, "grasp", o.entity, None, base + "/grasp-attempt-1", placed);
      }
      evidence := evidence + [base + "/grasp-final"];
      Finish(id, true, o.entity, None, base + "/grasp-final", placed);
      assert placed + [] == placed;
      PlaceObject(o, first && job.fault.ActuatorTimeout?, base, placed);
      return false;
    }

    method PlaceObject(o: Operation, fails: bool, base: string, ghost placed: seq<(string, string)>)
      requires Building(log, job, actions, false, placed)
      modifies this
      ensures Building(log, job, actions, false, placed + [Claim(o)])
      ensures |log| == |old(log)| + 2 + (if fails then 3 else 0)
      ensures |evidence| > |old(evidence)|
    {
      var id := Request("place", o.entity, Some(o.destination), placed);
      if fails {
        evidence := evidence + [base + "/place-attempt-1"];
        id := Retry(id, "place", o.entity, Some(o.destination), base + "/place-attempt-1", placed);
      }
      evidence := evidence + [base + "/place-final"];
      Finish(id, true, o.entity, Some("in:" + o.destination), base + "/place-final", placed);
    }

    method Start()
      requires log == [] && actions == 0
      modifies this`log
      ensures Building(log, job, 0, false, []) && |log| == 2
    {
      OtherNext(log, job, 0, false, [], TaskAccepted, []);
      Append(TaskAccepted, []);
      OtherNext(log, job, 0, false, [], TaskGraph, []);
      Append(TaskGraph, []);
    }

    method OperateAll(ops: seq<Operation>) returns (failed: bool)
      requires Building(log, job, actions, false, [])
      modifies this
      ensures failed == (ops != [] && job.fault.MovingTarget?)
      ensures Building(log, job, actions, false, if failed then [] else Claims(ops))
      ensures |log| == |old(log)| + OperationsEvents(job.fault, |ops|)
      ensures if ops == [] then evidence == old(evidence) else |evidence| > |old(evidence)|
    {
      for i := 0 to |ops|
        invariant i > 0 ==> !job.fault.MovingTarget?
        invariant Building(log, job, actions, false, Claims(ops[..i]))
        invariant |log| == |old(log)| + OperationsEvents(job.fault, i)
        invariant if i == 0 then evidence == old(evidence) else |evidence| > |old(evidence)|
      {
        ClaimsSnoc(ops, i);
        failed := Operate(ops[i], i == 0, Claims(ops[..i]));
        if failed { return; }
      }
      assert ops[..|ops|] == ops;
      failed := false;
    }

    method Perform(objects: seq<string>, ops: seq<Operation>) returns (ghost placed: seq<(string, string)>)
      requires log == [] && actions == 0 && evidence == []
      modifies this
      ensures placed == if job.fault.MovingTarget? then [] else Claims(ops)
      ensures Building(log, job, actions, false, placed)
      ensures |log| + 2 == LogLength(job.fault, |objects|, |ops|)
      ensures evidence == [] <==> objects == [] && ops == []
    {
      Start();
      ObserveAll(objects, ops == []);
      var failed := OperateAll(ops);
      placed := if failed then [] else Claims(ops);
    }

    /** The final verification and the terminal record that repeats its status. */
    method Conclude(ghost placed: seq<(string, string)>)
      requires Building(log, job, actions, false, placed) && ClockOk(job.clock)
      modifies this
      ensures evidence == Dedupe(old(evidence)) && actions == old(actions)
      ensures |log| == |old(log)| + 2
      ensures Serial(log, actions, false) && Placed(log) == placed
      ensures LastVerdict(log) == Some(StatusOf(job.fault))
      ensures LogOk(log, ExpectedOf(job)) <==>
              && job.evaluation.commit != "" && job.evaluation.scenario != ""
              && ProfileOk(job.required) && old(evidence) != [] && |log| <= MAX_EVENTS
    {
      ghost var was := log;
      evidence := Dedupe(evidence);
      var verdict := FinalVerdict(job.fault, job.required, evidence);
      Append(Verification(verdict), evidence);
      Append(TaskTerminal(verdict.status), evidence);
      assert log == was + Ending(was, job, evidence);
      Concluded(was, job, evidence, actions, placed);
    }
  }

  function ObservationEvents(f: Fault, objects: nat, inspecting: bool): nat {
    3 * objects + if inspecting && Recoverable(f) && objects > 0 then 3 else 0
  }

  function OperationEvents(f: Fault, first: bool): nat {
    if first && f.MovingTarget? then 2 else if first && Recoverable(f) then 7 else 4
  }

  function OperationsEvents(f: Fault, n: nat): nat {
    if n == 0 then 0 else if f.MovingTarget? then 2 else 4 * n + if Recoverable(f) then 3 else 0
  }

  function LogLength(f: Fault, objects: nat, ops: nat): nat {
    2 + ObservationEvents(f, objects, ops == 0) + OperationsEvents(f, ops) + 2
  }

  function Ending(log: seq<Event>, job: Job, refs: seq<string>): seq<Event> {
    var v := Next(log, job, Verification(FinalVerdict(job.fault, job.required, refs)), refs);
    [v, Next(log + [v], job, TaskTerminal(StatusOf(job.fault)), refs)]
  }

  function ExpectedOf(job: Job): Expected {
    Expected(job.run, Some(job.evaluation.scenario), Some(job.evaluation.seed), Some(job.evaluation.commit),
             job.clock.aware)
  }

  lemma StampedEnding(log: seq<Event>, job: Job, refs: seq<string>)
    requires Stamped(log, job)
    ensures Stamped(log + Ending(log, job, refs), job)
  {
    var e := Ending(log, job, refs);
    StampedNext(log, job, e[0].payload, refs);
    StampedNext(log + [e[0]], job, e[1].payload, refs);
    assert log + [e[0]] + [e[1]] == log + e;
  }

  lemma StampedDistinct(log: seq<Event>, job: Job)
    requires Stamped(log, job)
    ensures DistinctIds(log)
  {
    forall i, j | 0 <= i < j < |log| ensures log[i].id != log[j].id {
      if log[i].id == log[j].id { EventIdInjective(job.run, i, j); }
    }
  }

  lemma StampedEventsOk(log: seq<Event>, job: Job)
    requires Stamped(log, job) && log != [] && ClockOk(job.clock)
    ensures EventsOk(log, ExpectedOf(job)) <==> job.evaluation.commit != "" && job.evaluation.scenario != ""
  {
    if EventsOk(log, ExpectedOf(job)) { assert EventOk(log[0], 0, ExpectedOf(job)); }
    if job.evaluation.commit != "" && job.evaluation.scenario != "" {
      forall i | 0 <= i < |log| ensures EventOk(log[i], i, ExpectedOf(job)) {
        NotBlank(job.run, i);
        TimesRead(job.clock, i);
      }
    }
  }

  lemma NotBlank(run: string, i: nat)
    ensures EventId(run, i) != ""
  {
    assert |EventId(run, i)| == |run| + 5 + |Pad3(i)|;
  }

  lemma EndingVerified(log: seq<Event>, job: Job, refs: seq<string>)
    requires ProfileOk(job.required) ==> VerificationsOk(log)
    ensures VerificationsOk(log + Ending(log, job, refs)) <==> ProfileOk(job.required) && refs != []
  {
    var e := Ending(log, job, refs);
    FinalVerdictOk(job.fault, job.required, refs);
    assert (log + e)[|log|] == e[0];
    if ProfileOk(job.required) && refs != [] {
      VerifiedNext(log, e[0]);
      VerifiedNext(log + [e[0]], e[1]);
      assert log + [e[0]] + [e[1]] == log + e;
    } else {
      assert !VerificationOk((log + e)[|log|]);
    }
  }

  /** The ending neither acts nor claims a placement. */
  lemma EndingActsNot(log: seq<Event>, job: Job, refs: seq<string>, n: nat)
    requires Serial(log, n, false)
    ensures Serial(log + Ending(log, job, refs), n, false) && Placed(log + Ending(log, job, refs)) == Placed(log)
  {
    var e := Ending(log, job, refs);
    var one, all := log + [e[0]], log + e;
    assert all == one + [e[1]] && all[..|all| - 1] == one && one[..|one| - 1] == log;
    assert Serial(one, n, false) && Placed(one) == Placed(log);
  }

  lemma EndingAgrees(log: seq<Event>, job: Job, refs: seq<string>)
    ensures LastVerdict(log + Ending(log, job, refs)) == Some(StatusOf(job.fault))
    ensures LastTerminal(log + Ending(log, job, refs)) == Some(StatusOf(job.fault))
  {
    var e := Ending(log, job, refs);
    var all := log + e;
    assert all[..|all| - 1] == log + [e[0]];
  }

  /** What the caller controls that decides acceptance. */
  predicate Acceptable(job: Job, objects: seq<string>, ops: seq<Operation>) {
    && job.evaluation.commit != "" && job.evaluation.scenario != ""
    && ProfileOk(job.required)
    && (objects != [] || ops != [])
    && LogLength(job.fault, |objects|, |ops|) <= MAX_EVENTS
  }

  lemma Concluded(log: seq<Event>, job: Job, refs: seq<string>, n: nat, placed: seq<(string, string)>)
    requires Building(log, job, n, false, placed) && ClockOk(job.clock)
    ensures var all := log + Ending(log, job, refs);
            && Serial(all, n, false) && Placed(all) == placed
            && LastVerdict(all) == Some(StatusOf(job.fault))
            && (LogOk(all, ExpectedOf(job)) <==>
                  && job.evaluation.commit != "" && job.evaluation.scenario != ""
                  && ProfileOk(job.required) && refs != [] && |log| + 2 <= MAX_EVENTS)
  {
    EndingActsNot(log, job, refs, n);
    FinishedLogOk(log, job, refs);
    EndingAgrees(log, job, refs);
  }

  lemma FinishedLogOk(log: seq<Event>, job: Job, refs: seq<string>)
    requires Stamped(log, job) && (ProfileOk(job.required) ==> VerificationsOk(log)) && ClockOk(job.clock)
    ensures LogOk(log + Ending(log, job, refs), ExpectedOf(job)) <==>
            && job.evaluation.commit != "" && job.evaluation.scenario != ""
            && ProfileOk(job.required) && refs != [] && |log| + 2 <= MAX_EVENTS
  {
    var all := log + Ending(log, job, refs);
    StampedEnding(log, job, refs);
    StampedDistinct(all, job);
    StampedEventsOk(all, job);
    EndingVerified(log, job, refs);
    EndingAgrees(log, job, refs);
  }

  /** For every task, fault, scene and operation list: the log is accepted exactly
      when the inputs are acceptable; its actions are numbered 1..n, each requested
      once and answered once; and its completed placements are those of every
      operation in order, or none after a moving target. */
  method ScriptedEvents(job: Job, objects: seq<string>, ops: seq<Operation>) returns (log: seq<Event>, n: nat)
    requires ClockOk(job.clock)
    ensures LogOk(log, ExpectedOf(job)) <==> Acceptable(job, objects, ops)
    ensures Serial(log, n, false)
    ensures Placed(log) == if job.fault.MovingTarget? then [] else Claims(ops)
    ensures |log| == LogLength(job.fault, |objects|, |ops|)
    ensures LastVerdict(log) == Some(StatusOf(job.fault))
    ensures forall k | 1 <= k <= n :: Answered(log, k)
    ensures LastVerdict(log) == Some("confirmed") ==> forall k | 0 <= k < |ops| :: Delivered(log, ops[k])
  {
    var p := new Producer(job);
    ghost var placed := p.Perform(objects, ops);
    p.Conclude(placed);
    log, n := p.log, p.actions;
    AllAnswered(log, n);
    ConfirmedMeansPlaced(job, ops, log);
  }

  /** Action `k` is requested exactly once and has exactly one result, later. */
  ghost predicate Answered(log: seq<Event>, k: nat) { exists i, j :: Matched(log, k, i, j) }

  /** A completed result claims the operation's object at its destination. */
  predicate Delivered(log: seq<Event>, o: Operation) {
    exists i | 0 <= i < |log| :: IsDelivery(log[i].payload, o)
  }

  predicate IsDelivery(p: Payload, o: Operation) {
    p.ActionResult? && p.completed && p.entity == Some(o.entity) && p.location == Some("in:" + o.destination)
  }

  lemma AllAnswered(log: seq<Event>, n: nat)
    requires Serial(log, n, false)
    ensures forall k | 1 <= k <= n :: Answered(log, k)
  {
    forall k | 1 <= k <= n ensures Answered(log, k) {
      var i, j := EveryActionAnswered(log, n, false, k);
    }
  }

  lemma ConfirmedMeansPlaced(job: Job, ops: seq<Operation>, log: seq<Event>)
    requires Placed(log) == if job.fault.MovingTarget? then [] else Claims(ops)
    requires LastVerdict(log) == Some(StatusOf(job.fault))
    ensures LastVerdict(log) == Some("confirmed") ==> forall k | 0 <= k < |ops| :: Delivered(log, ops[k])
  {
    if LastVerdict(log) == Some("confirmed") {
      forall k | 0 <= k < |ops| ensures Delivered(log, ops[k]) {
        var i := PlacedSomewhere(log, k);
        assert Placed(log)[k] == Claim(ops[k]);
        assert IsDelivery(log[i].payload, ops[k]);
      }
    }
  }

  lemma {:induction false} PlacedSomewhere(log: seq<Event>, k: nat) returns (i: nat)
    requires k < |Placed(log)|
    ensures i < |log| && log[i].payload.ActionResult? && ClaimOf(log[i].payload) == [Placed(log)[k]]
  {
    var front := log[..|log| - 1];
    if k < |Placed(front)| { i := PlacedSomewhere(front, k); } else { i := |front|; }
  }
}
