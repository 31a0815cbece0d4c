/** The collector itself: the per-run table, the evidence index, the self-check,
    and the proof that the self-check never refuses what the collector computed. */
module MetricsCollector {
  import opened Text
  import opened Metrics
  import opened MetricsRebuild

  const MAX_INDEXED_RUNS := 256

  /** The order in which a run's table is filled. */
  function Position(m: Metric): nat {
    match m
    case Vtcr => 0
    case FalseCompletionCount => 1
    case RecoveryRate => 2
    case DurationP50 => 3
    case DurationP95 => 4
    case ToolCallValidity => 5
    case LocalPlanningCoverage => 6
    case ObservationCompleteness => 7
    case EvidenceCoverage => 8
    case GoalConditionCoverage => 9
    case CollisionCount => 10
    case PolicyViolationCount => 11
    case StateHashConsistency => 12
    case ReplaySuccessRate => 13
    case ComplexTaskRate => 14
    case MeanObservedEntities => 15
    case TaskFamilyCount => 16
  }

  /** A run's two tables: what it contributes, and why it does not. */
  datatype Table = Table(given: map<Metric, Contribution>, excluded: map<Metric, string>)

  /** The run a table describes. */
  datatype Subject = Subject(run: Run, audited: bool, oracle: Option<string>)

  function PartFor(m: Metric, s: Subject): Part { PartOf(m, s.run, s.audited, s.oracle) }

  /** On `m`, the table holds the run's contribution or its named exclusion, and
      never both. */
  predicate Settled(t: Table, m: Metric, p: Part) {
    if p.Contributes? then m in t.given && t.given[m] == p.c && m !in t.excluded
    else m in t.excluded && t.excluded[m] == p.reason && m !in t.given
  }

  predicate Blank(t: Table, m: Metric) { m !in t.given && m !in t.excluded }

  /** The first `n` metrics are settled and the others are still blank. */
  ghost predicate Tabulates(t: Table, n: nat, s: Subject) {
    forall m: Metric :: if Position(m) < n then Settled(t, m, PartFor(m, s)) else Blank(t, m)
  }

  lemma PositionInjective(m: Metric, l: Metric)
    requires Position(m) == Position(l)
    ensures m == l
  {
  }

  method Give(t: Table, m: Metric, c: Contribution, ghost n: nat, ghost s: Subject) returns (r: Table)
    requires Tabulates(t, n, s) && Position(m) == n && PartFor(m, s) == Contributes(c)
    ensures Tabulates(r, n + 1, s)
  {
    r := t.(given := t.given[m := c]);
    forall l: Metric ensures if Position(l) <= Position(m) then Settled(r, l, PartFor(l, s)) else Blank(r, l) {
      if l != m {
        assert if Position(l) < Position(m) then Settled(t, l, PartFor(l, s)) else Blank(t, l);
        if Position(l) == Position(m) { PositionInjective(l, m); }
      }
    }
  }

  method Exclude(t: Table, m: Metric, reason: string, ghost n: nat, ghost s: Subject) returns (r: Table)
    requires Tabulates(t, n, s) && Position(m) == n && PartFor(m, s) == Excluded(reason)
    ensures Tabulates(r, n + 1, s)
  {
    r := t.(excluded := t.excluded[m := reason]);
    forall l: Metric ensures if Position(l) <= Position(m) then Settled(r, l, PartFor(l, s)) else Blank(r, l) {
      if l != m {
        assert if Position(l) < Position(m) then Settled(t, l, PartFor(l, s)) else Blank(t, l);
        if Position(l) == Position(m) { PositionInjective(l, m); }
      }
    }
  }

  method GiveRatio(t: Table, m: Metric, num: nat, den: nat, reason: string, ghost n: nat, ghost s: Subject)
    returns (r: Table)
    requires Tabulates(t, n, s) && Position(m) == n && PartFor(m, s) == RatioOr(num, den, reason)
    ensures Tabulates(r, n + 1, s)
  {
    if den > 0 { r := Give(t, m, Share(num, den), n, s); } else { r := Exclude(t, m, reason, n, s); }
  }

  method AddVtcr(t: Table, s: Subject) returns (r: Table)
    requires Tabulates(t, 0, s)
    ensures Tabulates(r, 1, s)
  {
    var statuses := Statuses(s.run.events);
    if statuses != [] {
      r := Give(t, Vtcr, Share(One(statuses[|statuses| - 1] == "confirmed"), 1), 0, s);
    } else {
      r := Exclude(t, Vtcr, "no verification record", 0, s);
    }
  }

  method AddFalseCompletion(t: Table, s: Subject) returns (r: Table)
    requires Tabulates(t, 1, s)
    ensures Tabulates(r, 2, s)
  {
    var statuses := Statuses(s.run.events);
    if s.audited {
      var claimed := statuses != [] && statuses[|statuses| - 1] == "confirmed";
      r := Give(t, FalseCompletionCount, Count(One(claimed && s.oracle != Some("confirmed"))), 1, s);
    } else {
      r := Exclude(t, FalseCompletionCount, "no human false-completion audit was supplied", 1, s);
    }
  }

  method AddRecovery(t: Table, s: Subject) returns (r: Table)
    requires Tabulates(t, 2, s)
    ensures Tabulates(r, 3, s)
  {
    var statuses := Statuses(s.run.events);
    if |statuses| > 1 && "refuted" in statuses[..|statuses| - 1] {
      r := Give(t, RecoveryRate, Share(One(statuses[|statuses| - 1] == "confirmed"), 1), 2, s);
    } else {
      r := Exclude(t, RecoveryRate, "no intermediate refuted verification", 2, s);
    }
  }

  method AddDuration(t: Table, m: Metric, ghost n: nat, s: Subject) returns (r: Table)
    requires Tabulates(t, n, s) && Position(m) == n && (m.DurationP50? || m.DurationP95?)
    ensures Tabulates(r, n + 1, s)
  {
    if |s.run.events| < 2 {
      r := Exclude(t, m, "fewer than two events, so no duration was measured", n, s);
    } else {
      r := Give(t, m, Measure(s.run.elapsed), n, s);
    }
  }

  method AddEventRatio(t: Table, m: Metric, reason: string, ghost n: nat, s: Subject) returns (r: Table)
    requires Tabulates(t, n, s) && Position(m) == n
    requires PartFor(m, s) == RatioOr(SucceedIn(m, s.run.events), CountedIn(m, s.run.events), reason)
    ensures Tabulates(r, n + 1, s)
  {
    var hits, all := EventRatio(m, s.run.events);
    r := GiveRatio(t, m, hits, all, reason, n, s);
  }

  method EventRatio(m: Metric, events: seq<Event>) returns (hits: nat, all: nat)
    ensures hits == SucceedIn(m, events) && all == CountedIn(m, events)
  {
    hits, all := 0, 0;
    for i := 0 to |events|
      invariant hits == SucceedIn(m, events[..i]) && all == CountedIn(m, events[..i])
    {
      assert events[..i + 1] == events[..i] + [events[i]];
      CountAppend(m, events[..i], [events[i]]);
      if Counted(m, events[i]) { all := all + 1; }
      if Succeeds(m, events[i]) { hits := hits + 1; }
    }
    assert events[..|events|] == events;
  }

  method AddGoalConditions(t: Table, s: Subject) returns (r: Table)
    requires Tabulates(t, 9, s)
    ensures Tabulates(r, 10, s)
  {
    var final := FinalVerification(s.run.events);
    var required, evaluated := {}, {};
    if final.Some? && final.value.Verification? {
      required, evaluated := final.value.required, final.value.evaluated;
    }
    assert required * evaluated == Evaluated(s.run);
    r := GiveRatio(t, GoalConditionCoverage, |required * evaluated|, |required|,
                   "the final verification required no condition", 9, s);
  }

  method BlankTable(ghost s: Subject) returns (t: Table)
    ensures Tabulates(t, 0, s)
  {
    t := Table(map[], map[]);
    forall m: Metric ensures if Position(m) < 0 then Settled(t, m, PartFor(m, s)) else Blank(t, m) {}
  }

  method VerificationParts(v: Table, s: Subject) returns (t: Table)
    requires Tabulates(v, 0, s)
    ensures Tabulates(t, 3, s)
  {
    t := AddVtcr(v, s);
    t := AddFalseCompletion(t, s);
    t := AddRecovery(t, s);
  }

  method DurationParts(v: Table, s: Subject) returns (t: Table)
    requires Tabulates(v, 3, s)
    ensures Tabulates(t, 5, s)
  {
    t := AddMedian(v, s);
    t := AddTail(t, s);
  }

  method AddMedian(v: Table, s: Subject) returns (t: Table)
    requires Tabulates(v, 3, s)
    ensures Tabulates(t, 4, s)
  {
    t := AddDuration(v, DurationP50, 3, s);
  }

  method AddTail(v: Table, s: Subject) returns (t: Table)
    requires Tabulates(v, 4, s)
    ensures Tabulates(t, 5, s)
  {
    t := AddDuration(v, DurationP95, 4, s);
  }

  method EventParts(v: Table, s: Subject) returns (t: Table)
    requires Tabulates(v, 5, s)
    ensures Tabulates(t, 10, s)
  {
    t := AddEventRatio(v, ToolCallValidity, "no action_request", 5, s);
    t := AddEventRatio(t, LocalPlanningCoverage, "no task_graph", 6, s);
    t := AddEventRatio(t, ObservationCompleteness, "no observation", 7, s);
    t := AddEventRatio(t, EvidenceCoverage, "no verification", 8, s);
    t := AddGoalConditions(t, s);
  }

  method CountParts(v: Table, s: Subject) returns (t: Table)
    requires Tabulates(v, 10, s)
    ensures Tabulates(t, 13, s)
  {
    t := Give(v, CollisionCount, Count(CountedIn(CollisionCount, s.run.events)), 10, s);
    t := Give(t, PolicyViolationCount, Count(CountedIn(PolicyViolationCount, s.run.events)), 11, s);
    t := Give(t, StateHashConsistency, Share(One(s.run.forward == s.run.permuted), 1), 12, s);
  }

  method RunParts(v: Table, s: Subject) returns (t: Table)
    requires Tabulates(v, 13, s)
    ensures Tabulates(t, 17, s)
  {
    t := Give(v, ReplaySuccessRate, Share(1, 1), 13, s);
    t := Give(t, ComplexTaskRate, Share(One(TaskFamily(s.run.events) != BASELINE), 1), 14, s);
    t := Give(t, MeanObservedEntities, Share(|Observed(s.run.events)|, 1), 15, s);
    t := Give(t, TaskFamilyCount, Label(TaskFamily(s.run.events)), 16, s);
  }

  /** Every run has, for each of the seventeen metrics, a contribution or a named
      exclusion, and never both. */
  method RunContributions(s: Subject) returns (t: Table)
    ensures forall m: Metric :: Settled(t, m, PartFor(m, s))
    ensures forall m: Metric :: m in t.given <==> m !in t.excluded
  {
    t := BlankTable(s);
    t := VerificationParts(t, s);
    t := DurationParts(t, s);
    t := EventParts(t, s);
    t := CountParts(t, s);
    t := RunParts(t, s);
    forall m: Metric ensures Settled(t, m, PartFor(m, s)) && (m in t.given <==> m !in t.excluded) {
      assert if Position(m) < 17 then Settled(t, m, PartFor(m, s)) else Blank(t, m);
    }
  }

  // ------------------------------------------------------------- the index

  datatype Record = Record(id: string, table: Table)

  function SubjectOf(c: Corpus, id: string): Subject
    requires id in c.runs
  {
    Subject(c.runs[id], c.audit.Some?, Oracle(c, id))
  }

  ghost predicate Describes(r: Record, c: Corpus) {
    r.id in c.runs && forall m: Metric :: Settled(r.table, m, PartFor(m, SubjectOf(c, r.id)))
  }

  /** Whether a run moved the top line of a metric, and so is named for it. */
  predicate Moves(m: Metric, t: Table) {
    && m in t.given
    && match ModeOf(m)
       case Sum => t.given[m].Count? && t.given[m].count > 0
       case Ratio => t.given[m].Share? && t.given[m].numerator > 0
       case _ => true
  }

  function Movers(m: Metric, records: seq<Record>): seq<string> {
    if records == [] then []
    else
      var last := records[|records| - 1];
      Movers(m, records[..|records| - 1]) + if Moves(m, last.table) then [last.id] else []
  }

  function FromRecords(m: Metric, records: seq<Record>): seq<Contribution> {
    if records == [] then []
    else (if m in records[0].table.given then [records[0].table.given[m]] else []) + FromRecords(m, records[1..])
  }

  ghost predicate Indexes(records: seq<Record>, c: Corpus, ids: seq<string>) {
    && |records| == |ids|
    && forall i | 0 <= i < |ids| :: records[i].id == ids[i] && Describes(records[i], c)
  }

  lemma {:induction false} IndexGivesContributions(m: Metric, records: seq<Record>, c: Corpus, ids: seq<string>)
    requires Loaded(c, ids) && Indexes(records, c, ids)
    ensures FromRecords(m, records) == Contributions(c, m, ids)
  {
    if ids == [] {
    } else {
      assert Settled(records[0].table, m, PartFor(m, SubjectOf(c, ids[0])));
      assert Indexes(records[1..], c, ids[1..]);
      IndexGivesContributions(m, records[1..], c, ids[1..]);
    }
  }

  ghost predicate Names(contributors: map<Metric, seq<string>>, records: seq<Record>) {
    forall m: Metric :: m in contributors && contributors[m] == Movers(m, records)
  }

  /** The runs a metric excludes for one reason, in order. */
  function ExcludedFor(m: Metric, reason: string, records: seq<Record>): seq<string> {
    if records == [] then []
    else
      var last := records[|records| - 1];
      ExcludedFor(m, reason, records[..|records| - 1]) +
      if m in last.table.excluded && last.table.excluded[m] == reason then [last.id] else []
  }

  type Exclusions = map<Metric, map<string, seq<string>>>

  /** Per metric, every reason that occurs with exactly the runs it excludes. */
  ghost predicate Groups(exclusions: Exclusions, records: seq<Record>) {
    forall m: Metric ::
      && m in exclusions
      && forall reason: string ::
           && (reason in exclusions[m] <==> ExcludedFor(m, reason, records) != [])
           && (reason in exclusions[m] ==> exclusions[m][reason] == ExcludedFor(m, reason, records))
  }

  function Listed(groups: map<string, seq<string>>, reason: string, id: string): map<string, seq<string>> {
    groups[reason := (if reason in groups then groups[reason] else []) + [id]]
  }

  method GroupRun(exclusions: Exclusions, ghost records: seq<Record>, r: Record) returns (more: Exclusions)
    requires Groups(exclusions, records)
    ensures Groups(more, records + [r])
  {
    more := map m | m in exclusions ::
      if m in r.table.excluded then Listed(exclusions[m], r.table.excluded[m], r.id) else exclusions[m];
    assert (records + [r])[..|records|] == records;
    forall m: Metric, reason: string
      ensures reason in more[m] <==> ExcludedFor(m, reason, records + [r]) != []
      ensures reason in more[m] ==> more[m][reason] == ExcludedFor(m, reason, records + [r])
    {
      assert reason in exclusions[m] <==> ExcludedFor(m, reason, records) != [];
    }
  }

  method BuildIndex(c: Corpus, ids: seq<string>)
    returns (records: seq<Record>, contributors: map<Metric, seq<string>>, exclusions: Exclusions)
    requires Loaded(c, ids)
    ensures Indexes(records, c, SortedUnique(ids)) && Names(contributors, records) && Groups(exclusions, records)
  {
    SortedLoaded(c, ids);
    var sorted := SortedUnique(ids);
    records := [];
    contributors, exclusions := map m: Metric | true :: Movers(m, []), NoExclusions();
    for i := 0 to |sorted|
      invariant Indexes(records, c, sorted[..i]) && Names(contributors, records) && Groups(exclusions, records)
    {
      var t := RunContributions(SubjectOf(c, sorted[i]));
      contributors := NameRun(contributors, records, Record(sorted[i], t));
      exclusions := GroupRun(exclusions, records, Record(sorted[i], t));
      records := records + [Record(sorted[i], t)];
      assert sorted[..i + 1] == sorted[..i] + [sorted[i]];
    }
    assert sorted[..|sorted|] == sorted;
  }

  function NoExclusions(): Exclusions { map m: Metric | Position(m) >= 0 :: map[] }

  method NameRun(contributors: map<Metric, seq<string>>, ghost records: seq<Record>, r: Record)
    returns (more: map<Metric, seq<string>>)
    requires Names(contributors, records)
    ensures Names(more, records + [r])
  {
    more := map m | m in contributors :: contributors[m] + if Moves(m, r.table) then [r.id] else [];
    assert (records + [r])[..|records|] == records;
  }

  // -------------------------------------------------------------- collection

  datatype Report = Report(
    aggregates: map<Metric, Value>, records: seq<Record>, contributors: map<Metric, seq<string>>,
    exclusions: Exclusions)

  function RecordIds(records: seq<Record>): seq<string> {
    seq(|records|, i requires 0 <= i < |records| => records[i].id)
  }

  /** The consumer's check: the index is canonical, and every aggregate and every
      contributor list follows from it. */
  predicate Verifies(r: Report) {
    && r.records != [] && RecordIds(r.records) == SortedUnique(RecordIds(r.records))
    && forall m: Metric ::
         && m in r.aggregates && Rebuild(m, FromRecords(m, r.records)) == Some(r.aggregates[m])
         && m in r.contributors && r.contributors[m] == Movers(m, r.records)
  }

  /** A human audit, when there is one, has a decision for every run. */
  predicate AuditCovers(c: Corpus) { c.audit.Some? ==> c.runs.Keys <= c.audit.value.Keys }

  method AllUsable(c: Corpus, ids: seq<string>) returns (ok: bool)
    requires Loaded(c, ids)
    ensures ok <==> forall id | id in ids :: Usable(c.runs[id])
  {
    for i := 0 to |ids|
      invariant forall j | 0 <= j < i :: Usable(c.runs[ids[j]])
    {
      if !Usable(c.runs[ids[i]]) { return false; }
    }
    return true;
  }

  /** Collection publishes exactly when there are runs, every one can be timed and
      replayed, the index can hold them and the audit covers them: the self-check
      never refuses, each published aggregate is the direct one, and the index is
      the sorted one with its exclusions grouped. */
  method Collect(c: Corpus, ids: seq<string>) returns (r: Option<Report>)
    requires Loaded(c, ids) && NoRepeats(ids) && Members(ids) == c.runs.Keys
    ensures r.Some? <==>
            0 < |ids| <= MAX_INDEXED_RUNS && AuditCovers(c) && forall id | id in ids :: Usable(c.runs[id])
    ensures r.Some? ==> Verifies(r.value) && Indexes(r.value.records, c, SortedUnique(ids))
    ensures r.Some? ==> Groups(r.value.exclusions, r.value.records)
    ensures r.Some? ==> forall m: Metric :: r.value.aggregates[m] == Direct(c, m, ids)
  {
    var usable := AllUsable(c, ids);
    if ids == [] || |ids| > MAX_INDEXED_RUNS || !usable || !AuditCovers(c) { return None; }
    var records, contributors, exclusions := BuildIndex(c, ids);
    var report := Report(map m: Metric | true :: Direct(c, m, ids), records, contributors, exclusions);
    CollectedVerifies(c, ids, report);
    if !Verifies(report) { return None; }
    return Some(report);
  }

  lemma CollectedVerifies(c: Corpus, ids: seq<string>, r: Report)
    requires Loaded(c, ids) && NoRepeats(ids) && ids != []
    requires Indexes(r.records, c, SortedUnique(ids)) && Names(r.contributors, r.records)
    requires forall m: Metric :: m in r.aggregates && r.aggregates[m] == Direct(c, m, ids)
    ensures Verifies(r)
  {
    var sorted := SortedUnique(ids);
    SortedLoaded(c, ids);
    EmptyMembers(ids);
    EmptyMembers(sorted);
    assert RecordIds(r.records) == sorted;
    SortedIsCanonical(SortedUnique(sorted), sorted);
    forall m: Metric ensures Rebuild(m, FromRecords(m, r.records)) == Some(r.aggregates[m]) {
      IndexGivesContributions(m, r.records, c, sorted);
      DirectIsIndexed(c, m, ids);
    }
  }

  /** Reading the run files in another order publishes the same report. */
  lemma ReportIsCanonical(c: Corpus, ids: seq<string>, js: seq<string>, m: Metric)
    requires Loaded(c, ids) && NoRepeats(ids) && ids != [] && NoRepeats(js) && Members(js) == Members(ids)
    ensures Loaded(c, js) && SortedUnique(ids) == SortedUnique(js) && Direct(c, m, ids) == Direct(c, m, js)
  {
    OrderIndependent(c, m, ids, js);
    SortedIsCanonical(SortedUnique(ids), SortedUnique(js));
  }
}
