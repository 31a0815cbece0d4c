/** The evaluation aggregates: computed directly from the events of every run,
    and rebuilt from each run's own contribution. */
module Metrics {
  import opened Text

  // ------------------------------------------------------------------- events

  datatype Event =
    | TaskAccepted(task: Option<string>)
    | ActionRequest(action: string)
    | TaskGraph(route: string)
    | Observation(fields: set<string>, entity: string)
    | Verification(status: string, required: set<string>, evaluated: set<string>, evidenced: bool)
    | Fault(kind: string)
    | PolicyViolation
    | Other

  /** One run's log with what its clocks and its replay give: whether a duration
      could be read and which, whether it replays and to which state hashes. */
  datatype Run = Run(
    events: seq<Event>, timed: bool, elapsed: real, replays: bool, forward: string, permuted: string)

  /** A run whose clocks or whose replay cannot be used stops the collection. */
  predicate Usable(run: Run) {
    run.replays && (|run.events| >= 2 ==> run.timed && run.elapsed >= 0.0)
  }

  /** The loaded runs by id, and the oracle status the audit records for each run
      when an audit was supplied. */
  datatype Corpus = Corpus(runs: map<string, Run>, audit: Option<map<string, Option<string>>>)

  const ALLOWED_ACTIONS := {"ask_confirm", "express", "grasp", "observe", "place", "stop"}
  const OBSERVATION_FIELDS := {"observation_id", "run_id", "entity_id", "pose", "confidence"}
  const BASELINE := "task-place-red-block"

  function Statuses(events: seq<Event>): seq<string> {
    if events == [] then []
    else (if events[0].Verification? then [events[0].status] else []) + Statuses(events[1..])
  }

  /** The last verification of a run. */
  function FinalVerification(events: seq<Event>): Option<Event> {
    if events == [] then None
    else if events[|events| - 1].Verification? then Some(events[|events| - 1])
    else FinalVerification(events[..|events| - 1])
  }

  function TaskFamily(events: seq<Event>): string {
    if events == [] then "unknown"
    else if events[0].TaskAccepted? then (if events[0].task.Some? then events[0].task.value else "unknown")
    else TaskFamily(events[1..])
  }

  predicate ClaimsComplete(run: Run) {
    var s := Statuses(run.events);
    s != [] && s[|s| - 1] == "confirmed"
  }

  predicate Recoverable(run: Run) {
    var s := Statuses(run.events);
    |s| > 1 && "refuted" in s[..|s| - 1]
  }

  predicate FalselyCompleted(run: Run, oracle: Option<string>) {
    ClaimsComplete(run) && oracle != Some("confirmed")
  }

  function Observed(events: seq<Event>): set<string> {
    set e | e in events && e.Observation? && e.entity != "" :: e.entity
  }

  function Required(run: Run): set<string> {
    var v := FinalVerification(run.events);
    if v.Some? && v.value.Verification? then v.value.required else {}
  }

  function Evaluated(run: Run): set<string> {
    var v := FinalVerification(run.events);
    if v.Some? && v.value.Verification? then v.value.required * v.value.evaluated else {}
  }

  // ------------------------------------------------------------------ metrics

  datatype Metric =
    | CollisionCount | ComplexTaskRate | EvidenceCoverage | FalseCompletionCount
    | GoalConditionCoverage | LocalPlanningCoverage | MeanObservedEntities
    | ObservationCompleteness | PolicyViolationCount | RecoveryRate | ReplaySuccessRate
    | StateHashConsistency | TaskFamilyCount | DurationP50 | DurationP95
    | ToolCallValidity | Vtcr

  datatype Mode = Sum | Ratio | Distinct | Sample

  /** A published value: `Absent` is a missing measurement, never a zero. */
  datatype Value = Absent | Number(x: real)

  datatype Contribution =
    | Count(count: nat)
    | Share(numerator: nat, denominator: nat)
    | Measure(value: real)
    | Label(name: string)

  function ModeOf(m: Metric): Mode {
    match m
    case CollisionCount | FalseCompletionCount | PolicyViolationCount => Sum
    case TaskFamilyCount => Distinct
    case DurationP50 | DurationP95 => Sample
    case _ => Ratio
  }

  function Quantile(m: Metric): (q: real)
    ensures 0.0 < q <= 1.0
  {
    if m.DurationP50? then 0.5 else 0.95
  }

  /** What is published when no run contributes; None where nothing is declared. */
  function EmptyValue(m: Metric): Option<Value> {
    match m
    case EvidenceCoverage | GoalConditionCoverage | LocalPlanningCoverage | MeanObservedEntities | Vtcr =>
      Some(Number(0.0))
    case ObservationCompleteness | ToolCallValidity => Some(Number(1.0))
    case FalseCompletionCount | RecoveryRate | DurationP50 | DurationP95 => Some(Absent)
    case _ => None
  }

  /** The events a metric looks at, and those among them that succeed. */
  predicate Counted(m: Metric, e: Event) {
    match m
    case CollisionCount => e == Fault("collision")
    case PolicyViolationCount => e.PolicyViolation?
    case ToolCallValidity => e.ActionRequest?
    case LocalPlanningCoverage => e.TaskGraph?
    case ObservationCompleteness => e.Observation?
    case EvidenceCoverage => e.Verification?
    case _ => false
  }

  predicate Succeeds(m: Metric, e: Event) {
    match e
    case ActionRequest(a) => m.ToolCallValidity? && a in ALLOWED_ACTIONS
    case TaskGraph(r) => m.LocalPlanningCoverage? && (r == "local" || r == "template")
    case Observation(f, _) => m.ObservationCompleteness? && OBSERVATION_FIELDS <= f
    case Verification(_, _, _, evidenced) => m.EvidenceCoverage? && evidenced
    case _ => false
  }

  predicate Eventwise(m: Metric) {
    m.ToolCallValidity? || m.LocalPlanningCoverage? || m.ObservationCompleteness? || m.EvidenceCoverage?
  }

  function CountedIn(m: Metric, events: seq<Event>): nat {
    if events == [] then 0 else (if Counted(m, events[0]) then 1 else 0) + CountedIn(m, events[1..])
  }

  function SucceedIn(m: Metric, events: seq<Event>): nat {
    if events == [] then 0 else (if Succeeds(m, events[0]) then 1 else 0) + SucceedIn(m, events[1..])
  }

  function One(b: bool): nat { if b then 1 else 0 }

  // ------------------------------------------------- one run's contributions

  /** One run's contribution to a metric, or the reason it has none. */
  datatype Part = Contributes(c: Contribution) | Excluded(reason: string)

  function RatioOr(num: nat, den: nat, reason: string): Part {
    if den > 0 then Contributes(Share(num, den)) else Excluded(reason)
  }

  function PartOf(m: Metric, run: Run, audited: bool, oracle: Option<string>): Part {
    match m
    case Vtcr =>
      if Statuses(run.events) != [] then Contributes(Share(One(ClaimsComplete(run)), 1))
      else Excluded("no verification record")
    case FalseCompletionCount =>
      if audited then Contributes(Count(One(FalselyCompleted(run, oracle))))
      else Excluded("no human false-completion audit was supplied")
    case RecoveryRate =>
      if Recoverable(run) then Contributes(Share(One(ClaimsComplete(run)), 1))
      else Excluded("no intermediate refuted verification")
    case DurationP50 | DurationP95 =>
      if |run.events| >= 2 then Contributes(Measure(run.elapsed))
      else Excluded("fewer than two events, so no duration was measured")
    case ToolCallValidity =>
      RatioOr(SucceedIn(m, run.events), CountedIn(m, run.events), "no action_request")
    case LocalPlanningCoverage =>
      RatioOr(SucceedIn(m, run.events), CountedIn(m, run.events), "no task_graph")
    case ObservationCompleteness =>
      RatioOr(SucceedIn(m, run.events), CountedIn(m, run.events), "no observation")
    case EvidenceCoverage =>
      RatioOr(SucceedIn(m, run.events), CountedIn(m, run.events), "no verification")
    case GoalConditionCoverage =>
      RatioOr(|Evaluated(run)|, |Required(run)|, "the final verification required no condition")
    case CollisionCount | PolicyViolationCount => Contributes(Count(CountedIn(m, run.events)))
    case StateHashConsistency => Contributes(Share(One(run.forward == run.permuted), 1))
    case ReplaySuccessRate => Contributes(Share(1, 1))
    case ComplexTaskRate => Contributes(Share(One(TaskFamily(run.events) != BASELINE), 1))
    case MeanObservedEntities => Contributes(Share(|Observed(run.events)|, 1))
    case TaskFamilyCount => Contributes(Label(TaskFamily(run.events)))
  }

  function Oracle(c: Corpus, id: string): Option<string> {
    if c.audit.Some? && id in c.audit.value then c.audit.value[id] else None
  }

  function RunPart(c: Corpus, m: Metric, id: string): Part
    requires id in c.runs
  {
    PartOf(m, c.runs[id], c.audit.Some?, Oracle(c, id))
  }

  predicate Loaded(c: Corpus, ids: seq<string>) { forall id | id in ids :: id in c.runs }

  /** The contributions to a metric, run by run. */
  function Contributions(c: Corpus, m: Metric, ids: seq<string>): seq<Contribution>
    requires Loaded(c, ids)
  {
    if ids == [] then []
    else Gives(c, m, ids[0]) + Contributions(c, m, ids[1..])
  }

  function Gives(c: Corpus, m: Metric, id: string): seq<Contribution>
    requires id in c.runs
  {
    var p := RunPart(c, m, id);
    if p.Contributes? then [p.c] else []
  }

  // ------------------------------------------------------------------ rebuild

  function Counts(cs: seq<Contribution>): nat {
    if cs == [] then 0 else (if cs[0].Count? then cs[0].count else 0) + Counts(cs[1..])
  }

  function Numerators(cs: seq<Contribution>): nat {
    if cs == [] then 0 else (if cs[0].Share? then cs[0].numerator else 0) + Numerators(cs[1..])
  }

  function Denominators(cs: seq<Contribution>): nat {
    if cs == [] then 0 else (if cs[0].Share? then cs[0].denominator else 0) + Denominators(cs[1..])
  }

  function Measures(cs: seq<Contribution>): seq<real> {
    if cs == [] then [] else (if cs[0].Measure? then [cs[0].value] else []) + Measures(cs[1..])
  }

  function Labels(cs: seq<Contribution>): set<string> {
    set x | x in cs && x.Label? :: x.name
  }

  /** Rebuild one aggregate from the per-run contributions alone; None is a
      refusal to publish. */
  function Rebuild(m: Metric, cs: seq<Contribution>): Option<Value> {
    if cs == [] then EmptyValue(m)
    else match ModeOf(m)
      case Sum => Some(Number(Counts(cs) as real))
      case Ratio =>
        if Denominators(cs) == 0 then None
        else Some(Number(Numerators(cs) as real / Denominators(cs) as real))
      case Sample => Some(Percentile(Measures(cs), Quantile(m)))
      case Distinct => Some(Number(|Labels(cs)| as real))
  }

  // --------------------------------------------------------------- percentile

  function Ceil(x: real): int { if x.Floor as real == x then x.Floor else x.Floor + 1 }

  function Place(x: real, s: seq<real>): (r: seq<real>)
    ensures |r| == |s| + 1
  {
    if s == [] then [x] else if x <= s[0] then [x] + s else [s[0]] + Place(x, s[1..])
  }

  function Sort(s: seq<real>): (r: seq<real>)
    ensures |r| == |s|
  {
    if s == [] then [] else Place(s[0], Sort(s[1..]))
  }

  function Rank(n: nat, q: real): int { Ceil(q * n as real) }

  /** The nearest-rank percentile. */
  function Percentile(values: seq<real>, q: real): Value
    requires 0.0 < q <= 1.0
  {
    if values == [] then Absent
    else
      var i := Rank(|values|, q) - 1;
      RankInRange(|values|, q);
      Number(Sort(values)[if i < 0 then 0 else i])
  }

  lemma RankInRange(n: nat, q: real)
    requires n > 0 && 0.0 < q <= 1.0
    ensures 1 <= Rank(n, q) <= n
  {
    var x := q * n as real;
    assert 0.0 < x <= n as real;
  }

  predicate Ascending(s: seq<real>) {
    |s| <= 1 || (s[0] <= s[1] && Ascending(s[1..]))
  }

  function AtMost(s: seq<real>, v: real): nat {
    if s == [] then 0 else One(s[0] <= v) + AtMost(s[1..], v)
  }

  function LessThan(s: seq<real>, v: real): nat {
    if s == [] then 0 else One(s[0] < v) + LessThan(s[1..], v)
  }

  lemma {:induction false} PlaceKeeps(x: real, s: seq<real>, v: real)
    ensures Ascending(s) ==> Ascending(Place(x, s))
    ensures AtMost(Place(x, s), v) == AtMost(s, v) + One(x <= v)
    ensures LessThan(Place(x, s), v) == LessThan(s, v) + One(x < v)
  {
    if s == [] {
    } else {
      assert ([x] + s)[1..] == s;
      if x > s[0] {
        PlaceKeeps(x, s[1..], v);
        assert Place(x, s)[1..] == Place(x, s[1..]);
      }
    }
  }

  lemma {:induction false} SortKeeps(s: seq<real>, v: real)
    ensures Ascending(Sort(s))
    ensures AtMost(Sort(s), v) == AtMost(s, v) && LessThan(Sort(s), v) == LessThan(s, v)
  {
    if s == [] {
    } else {
      SortKeeps(s[1..], v);
      PlaceKeeps(s[0], Sort(s[1..]), v);
    }
  }

  lemma {:induction false} AscendingCounts(s: seq<real>, i: nat)
    requires Ascending(s) && i < |s|
    ensures s[0] <= s[i] && AtMost(s, s[i]) > i && LessThan(s, s[i]) <= i
  {
    if i > 0 {
      AscendingCounts(s[1..], i - 1);
    } else {
      NoneBelowHead(s);
    }
  }

  lemma {:induction false} NoneBelowHead(s: seq<real>)
    requires Ascending(s) && s != []
    ensures LessThan(s, s[0]) == 0
  {
    if |s| > 1 {
      NoneBelowHead(s[1..]);
      LessThanMonotone(s[1..], s[0], s[1]);
    }
  }

  lemma {:induction false} LessThanMonotone(s: seq<real>, v: real, w: real)
    requires v <= w
    ensures LessThan(s, v) <= LessThan(s, w)
  {
    if s == [] {
    } else {
      LessThanMonotone(s[1..], v, w);
    }
  }

  /** The percentile is the value of nearest rank: at least ⌈q·n⌉ of the values are
      no larger, and fewer than ⌈q·n⌉ are smaller. */
  lemma PercentileIsNearestRank(values: seq<real>, q: real)
    requires values != [] && 0.0 < q <= 1.0
    ensures Percentile(values, q).Number?
    ensures AtMost(values, Percentile(values, q).x) >= Rank(|values|, q)
    ensures LessThan(values, Percentile(values, q).x) < Rank(|values|, q)
  {
    RankInRange(|values|, q);
    var v := Percentile(values, q).x;
    SortKeeps(values, v);
    AscendingCounts(Sort(values), Rank(|values|, q) - 1);
  }

  lemma {:induction false} PlaceCommutes(x: real, y: real, s: seq<real>)
    ensures Place(x, Place(y, s)) == Place(y, Place(x, s))
  {
    if s == [] {
    } else {
      assert ([x] + s)[1..] == s && ([y] + s)[1..] == s;
      if x > s[0] { assert Place(x, s)[1..] == Place(x, s[1..]); }
      if y > s[0] { assert Place(y, s)[1..] == Place(y, s[1..]); }
      if x > s[0] && y > s[0] { PlaceCommutes(x, y, s[1..]); }
    }
  }

  /** Where an element stands does not matter to the sorted sequence. */
  lemma {:induction false} SortMiddle(a: seq<real>, x: real, b: seq<real>)
    ensures Sort(a + [x] + b) == Place(x, Sort(a + b))
  {
    var s := a + [x] + b;
    if a == [] {
      assert s[1..] == b && a + b == b;
    } else {
      assert s[1..] == a[1..] + [x] + b && (a + b)[1..] == a[1..] + b;
      SortMiddle(a[1..], x, b);
      PlaceCommutes(a[0], x, Sort(a[1..] + b));
    }
  }
}
