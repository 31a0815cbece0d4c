/** Every aggregate computed directly from the events equals its rebuild from the
    per-run contributions, in whatever order the runs were read. */
module MetricsRebuild {
  import opened Text
  import opened Metrics

  // ------------------------------------------------- the direct computations

  function Flat(c: Corpus, ids: seq<string>): seq<Event>
    requires Loaded(c, ids)
  {
    if ids == [] then [] else c.runs[ids[0]].events + Flat(c, ids[1..])
  }

  function FinalStatuses(c: Corpus, ids: seq<string>): seq<string>
    requires Loaded(c, ids)
  {
    if ids == [] then [] else LastOf(Statuses(c.runs[ids[0]].events)) + FinalStatuses(c, ids[1..])
  }

  function LastOf(s: seq<string>): (l: seq<string>) { if s == [] then [] else [s[|s| - 1]] }

  function Occurrences(s: seq<string>, x: string): nat {
    if s == [] then 0 else One(s[0] == x) + Occurrences(s[1..], x)
  }

  function RecoverableRuns(c: Corpus, ids: seq<string>): seq<Run>
    requires Loaded(c, ids)
  {
    if ids == [] then []
    else (if Recoverable(c.runs[ids[0]]) then [c.runs[ids[0]]] else []) + RecoverableRuns(c, ids[1..])
  }

  function Completed(runs: seq<Run>): nat {
    if runs == [] then 0 else One(ClaimsComplete(runs[0])) + Completed(runs[1..])
  }

  function Durations(c: Corpus, ids: seq<string>): seq<real>
    requires Loaded(c, ids)
  {
    if ids == [] then []
    else (if |c.runs[ids[0]].events| >= 2 then [c.runs[ids[0]].elapsed] else []) + Durations(c, ids[1..])
  }

  function Families(c: Corpus, ids: seq<string>): set<string>
    requires Loaded(c, ids)
  {
    set id | id in ids :: TaskFamily(c.runs[id].events)
  }

  function FalseCompletions(c: Corpus, ids: seq<string>): nat
    requires Loaded(c, ids)
  {
    if ids == [] then 0
    else One(FalselyCompleted(c.runs[ids[0]], Oracle(c, ids[0]))) + FalseCompletions(c, ids[1..])
  }

  /** Sums over runs: stable hashes, complex tasks, observed entities, conditions. */
  function RunSum(c: Corpus, m: Metric, ids: seq<string>): nat
    requires Loaded(c, ids)
  {
    if ids == [] then 0 else RunTerm(m, c.runs[ids[0]]) + RunSum(c, m, ids[1..])
  }

  function RunTerm(m: Metric, run: Run): nat {
    match m
    case StateHashConsistency => One(run.forward == run.permuted)
    case ComplexTaskRate => One(TaskFamily(run.events) != BASELINE)
    case MeanObservedEntities => |Observed(run.events)|
    case GoalConditionCoverage => |Evaluated(run)|
    case _ => 1
  }

  function RequiredSum(c: Corpus, ids: seq<string>): nat
    requires Loaded(c, ids)
  {
    if ids == [] then 0 else |Required(c.runs[ids[0]])| + RequiredSum(c, ids[1..])
  }

  function Over(num: nat, den: nat, empty: Value): Value {
    if den == 0 then empty else Number(num as real / den as real)
  }

  /** The published aggregates, from the flattened events and the runs themselves. */
  function Direct(c: Corpus, m: Metric, ids: seq<string>): Value
    requires Loaded(c, ids)
  {
    match m
    case FalseCompletionCount => if c.audit.None? then Absent else Number(FalseCompletions(c, ids) as real)
    case CollisionCount | PolicyViolationCount => Number(CountedIn(m, Flat(c, ids)) as real)
    case Vtcr =>
      var f := FinalStatuses(c, ids);
      Over(Occurrences(f, "confirmed"), |f|, Number(0.0))
    case RecoveryRate =>
      var r := RecoverableRuns(c, ids);
      Over(Completed(r), |r|, Absent)
    case DurationP50 => Percentile(Durations(c, ids), 0.5)
    case DurationP95 => Percentile(Durations(c, ids), 0.95)
    case ToolCallValidity | ObservationCompleteness =>
      Over(SucceedIn(m, Flat(c, ids)), CountedIn(m, Flat(c, ids)), Number(1.0))
    case LocalPlanningCoverage | EvidenceCoverage =>
      Over(SucceedIn(m, Flat(c, ids)), CountedIn(m, Flat(c, ids)), Number(0.0))
    case StateHashConsistency | ReplaySuccessRate | ComplexTaskRate | MeanObservedEntities =>
      Over(RunSum(c, m, ids), |ids|, Number(0.0))
    case GoalConditionCoverage => Over(RunSum(c, m, ids), RequiredSum(c, ids), Number(0.0))
    case TaskFamilyCount => Number(|Families(c, ids)| as real)
  }

  // ------------------------------------------- direct = rebuilt, run by run

  lemma TotalsPrepend(g: seq<Contribution>, cs: seq<Contribution>)
    requires |g| <= 1
    ensures Counts(g + cs) == Counts(g) + Counts(cs)
    ensures Numerators(g + cs) == Numerators(g) + Numerators(cs)
    ensures Denominators(g + cs) == Denominators(g) + Denominators(cs)
    ensures Measures(g + cs) == Measures(g) + Measures(cs)
  {
    if g == [] {
      assert g + cs == cs;
    } else {
      assert (g + cs)[1..] == cs && g[1..] == [];
    }
  }

  lemma {:induction false} CountAppend(m: Metric, a: seq<Event>, b: seq<Event>)
    ensures CountedIn(m, a + b) == CountedIn(m, a) + CountedIn(m, b)
    ensures SucceedIn(m, a + b) == SucceedIn(m, a) + SucceedIn(m, b)
  {
    if a == [] {
      assert a + b == b;
    } else {
      assert (a + b)[1..] == a[1..] + b;
      CountAppend(m, a[1..], b);
    }
  }

  lemma {:induction false} SucceedOnlyCounted(m: Metric, events: seq<Event>)
    requires Eventwise(m)
    ensures SucceedIn(m, events) <= CountedIn(m, events)
  {
    if events == [] {
    } else {
      SucceedOnlyCounted(m, events[1..]);
    }
  }

  /** What one run gives to an event ratio is what its own events count. */
  lemma EventGives(c: Corpus, m: Metric, id: string)
    requires id in c.runs && Eventwise(m)
    ensures Numerators(Gives(c, m, id)) == SucceedIn(m, c.runs[id].events)
    ensures Denominators(Gives(c, m, id)) == CountedIn(m, c.runs[id].events)
  {
    SucceedOnlyCounted(m, c.runs[id].events);
  }

  lemma {:induction false} EventTotals(c: Corpus, m: Metric, ids: seq<string>)
    requires Loaded(c, ids) && Eventwise(m)
    ensures Numerators(Contributions(c, m, ids)) == SucceedIn(m, Flat(c, ids))
    ensures Denominators(Contributions(c, m, ids)) == CountedIn(m, Flat(c, ids))
  {
    if ids == [] {
    } else {
      EventTotals(c, m, ids[1..]);
      EventGives(c, m, ids[0]);
      CountAppend(m, c.runs[ids[0]].events, Flat(c, ids[1..]));
      TotalsPrepend(Gives(c, m, ids[0]), Contributions(c, m, ids[1..]));
    }
  }

  lemma {:induction false} CountTotals(c: Corpus, m: Metric, ids: seq<string>)
    requires Loaded(c, ids) && (m.CollisionCount? || m.PolicyViolationCount?)
    ensures Counts(Contributions(c, m, ids)) == CountedIn(m, Flat(c, ids))
    ensures |Contributions(c, m, ids)| == |ids|
  {
    if ids == [] {
    } else {
      CountTotals(c, m, ids[1..]);
      CountAppend(m, c.runs[ids[0]].events, Flat(c, ids[1..]));
      TotalsPrepend(Gives(c, m, ids[0]), Contributions(c, m, ids[1..]));
    }
  }

  lemma {:induction false} FalseTotals(c: Corpus, ids: seq<string>)
    requires Loaded(c, ids)
    ensures c.audit.None? ==> Contributions(c, FalseCompletionCount, ids) == []
    ensures c.audit.Some? ==> |Contributions(c, FalseCompletionCount, ids)| == |ids|
    ensures c.audit.Some? ==> Counts(Contributions(c, FalseCompletionCount, ids)) == FalseCompletions(c, ids)
  {
    if ids == [] {
    } else {
      FalseTotals(c, ids[1..]);
      TotalsPrepend(Gives(c, FalseCompletionCount, ids[0]), Contributions(c, FalseCompletionCount, ids[1..]));
    }
  }

  lemma {:induction false} VtcrTotals(c: Corpus, ids: seq<string>)
    requires Loaded(c, ids)
    ensures Numerators(Contributions(c, Vtcr, ids)) == Occurrences(FinalStatuses(c, ids), "confirmed")
    ensures Denominators(Contributions(c, Vtcr, ids)) == |FinalStatuses(c, ids)|
  {
    if ids == [] {
    } else {
      VtcrTotals(c, ids[1..]);
      TotalsPrepend(Gives(c, Vtcr, ids[0]), Contributions(c, Vtcr, ids[1..]));
      VtcrOfRun(c, ids[0]);
      OccurrencesPrepend(LastOf(Statuses(c.runs[ids[0]].events)), FinalStatuses(c, ids[1..]), "confirmed");
    }
  }

  lemma OccurrencesPrepend(g: seq<string>, s: seq<string>, x: string)
    requires |g| <= 1
    ensures Occurrences(g + s, x) == Occurrences(g, x) + Occurrences(s, x)
  {
    if g == [] {
      assert g + s == s;
    } else {
      assert (g + s)[1..] == s && g[1..] == [];
    }
  }

  lemma VtcrOfRun(c: Corpus, id: string)
    requires id in c.runs
    ensures var l := LastOf(Statuses(c.runs[id].events));
            && Numerators(Gives(c, Vtcr, id)) == Occurrences(l, "confirmed")
            && Denominators(Gives(c, Vtcr, id)) == |l|
  {
    var s := Statuses(c.runs[id].events);
    if s != [] {
      assert Gives(c, Vtcr, id) == [Share(One(ClaimsComplete(c.runs[id])), 1)];
    }
  }

  lemma {:induction false} RecoveryTotals(c: Corpus, ids: seq<string>)
    requires Loaded(c, ids)
    ensures Numerators(Contributions(c, RecoveryRate, ids)) == Completed(RecoverableRuns(c, ids))
    ensures Denominators(Contributions(c, RecoveryRate, ids)) == |RecoverableRuns(c, ids)|
  {
    if ids == [] {
    } else {
      RecoveryTotals(c, ids[1..]);
      TotalsPrepend(Gives(c, RecoveryRate, ids[0]), Contributions(c, RecoveryRate, ids[1..]));
      var rest := RecoverableRuns(c, ids[1..]);
      if Recoverable(c.runs[ids[0]]) {
        assert RecoverableRuns(c, ids)[1..] == rest;
      } else {
        assert RecoverableRuns(c, ids) == rest;
      }
    }
  }

  lemma {:induction false} DurationTotals(c: Corpus, m: Metric, ids: seq<string>)
    requires Loaded(c, ids) && ModeOf(m).Sample?
    ensures Measures(Contributions(c, m, ids)) == Durations(c, ids)
    ensures |Contributions(c, m, ids)| == |Durations(c, ids)|
  {
    if ids == [] {
    } else {
      DurationTotals(c, m, ids[1..]);
      TotalsPrepend(Gives(c, m, ids[0]), Contributions(c, m, ids[1..]));
    }
  }

  lemma {:induction false} RunTotals(c: Corpus, m: Metric, ids: seq<string>)
    requires Loaded(c, ids)
    requires m.StateHashConsistency? || m.ReplaySuccessRate? || m.ComplexTaskRate? || m.MeanObservedEntities?
    ensures Numerators(Contributions(c, m, ids)) == RunSum(c, m, ids)
    ensures Denominators(Contributions(c, m, ids)) == |ids|
  {
    if ids == [] {
    } else {
      RunTotals(c, m, ids[1..]);
      TotalsPrepend(Gives(c, m, ids[0]), Contributions(c, m, ids[1..]));
    }
  }

  lemma {:induction false} GoalTotals(c: Corpus, ids: seq<string>)
    requires Loaded(c, ids)
    ensures Numerators(Contributions(c, GoalConditionCoverage, ids)) == RunSum(c, GoalConditionCoverage, ids)
    ensures Denominators(Contributions(c, GoalConditionCoverage, ids)) == RequiredSum(c, ids)
  {
    if ids == [] {
    } else {
      GoalTotals(c, ids[1..]);
      TotalsPrepend(Gives(c, GoalConditionCoverage, ids[0]), Contributions(c, GoalConditionCoverage, ids[1..]));
      var run := c.runs[ids[0]];
      assert Required(run) == {} ==> Evaluated(run) == {};
    }
  }

  lemma {:induction false} FamilyLabels(c: Corpus, ids: seq<string>)
    requires Loaded(c, ids)
    ensures Labels(Contributions(c, TaskFamilyCount, ids)) == Families(c, ids)
    ensures |Contributions(c, TaskFamilyCount, ids)| == |ids|
  {
    if ids == [] {
    } else {
      FamilyLabels(c, ids[1..]);
      var one, rest := Label(TaskFamily(c.runs[ids[0]].events)), Contributions(c, TaskFamilyCount, ids[1..]);
      assert Contributions(c, TaskFamilyCount, ids) == [one] + rest;
      assert Labels([one] + rest) == {one.name} + Labels(rest);
      assert ids == [ids[0]] + ids[1..];
    }
  }

  /** A ratio contribution always brings a denominator, so an empty total means no
      run contributed. */
  lemma RatioGives(c: Corpus, m: Metric, id: string)
    requires id in c.runs && ModeOf(m).Ratio?
    ensures Denominators(Gives(c, m, id)) >= |Gives(c, m, id)|
  {
  }

  lemma {:induction false} RatiosCount(c: Corpus, m: Metric, ids: seq<string>)
    requires Loaded(c, ids) && ModeOf(m).Ratio?
    ensures Denominators(Contributions(c, m, ids)) >= |Contributions(c, m, ids)|
  {
    if ids == [] {
    } else {
      RatiosCount(c, m, ids[1..]);
      RatioGives(c, m, ids[0]);
      TotalsPrepend(Gives(c, m, ids[0]), Contributions(c, m, ids[1..]));
    }
  }

  /** For every metric, run set and audit, the aggregate computed directly equals
      its rebuild from the contributions, empty values included. */
  lemma DirectIsRebuilt(c: Corpus, m: Metric, ids: seq<string>)
    requires Loaded(c, ids) && ids != []
    ensures Rebuild(m, Contributions(c, m, ids)) == Some(Direct(c, m, ids))
  {
    match ModeOf(m) {
      case Sum =>
        if m.FalseCompletionCount? { FalseTotals(c, ids); } else { CountTotals(c, m, ids); }
      case Distinct => FamilyLabels(c, ids);
      case Sample => DurationTotals(c, m, ids);
      case Ratio =>
        RatiosCount(c, m, ids);
        RatioTotals(c, m, ids);
    }
  }

  /** `v` is the quotient of the contributions' sums, or the value for none. */
  predicate IsRatio(m: Metric, cs: seq<Contribution>, v: Value) {
    && (Denominators(cs) > 0 ==> v == Number(Numerators(cs) as real / Denominators(cs) as real))
    && (Denominators(cs) == 0 ==> EmptyValue(m) == Some(v))
  }

  lemma EventRatios(c: Corpus, m: Metric, ids: seq<string>)
    requires Loaded(c, ids) && ids != [] && Eventwise(m)
    ensures IsRatio(m, Contributions(c, m, ids), Direct(c, m, ids))
  {
    EventTotals(c, m, ids);
  }

  lemma RatioTotals(c: Corpus, m: Metric, ids: seq<string>)
    requires Loaded(c, ids) && ids != [] && ModeOf(m).Ratio?
    ensures IsRatio(m, Contributions(c, m, ids), Direct(c, m, ids))
  {
    if Eventwise(m) {
      EventRatios(c, m, ids);
    } else if m.Vtcr? {
      VtcrTotals(c, ids);
    } else if m.RecoveryRate? {
      RecoveryTotals(c, ids);
    } else if m.GoalConditionCoverage? {
      GoalTotals(c, ids);
    } else {
      RunTotals(c, m, ids);
    }
  }

  // ---------------------------------------------------------- order of reading

  /** Everything a rebuild reads off a list of contributions, labels apart. */
  datatype Summary = Summary(size: nat, counts: nat, numerators: nat, denominators: nat, sorted: seq<real>)

  function Summarise(cs: seq<Contribution>): Summary {
    Summary(|cs|, Counts(cs), Numerators(cs), Denominators(cs), Sort(Measures(cs)))
  }

  lemma SummaryDecides(m: Metric, cs: seq<Contribution>, ds: seq<Contribution>)
    requires Summarise(cs) == Summarise(ds) && Labels(cs) == Labels(ds)
    ensures Rebuild(m, cs) == Rebuild(m, ds)
  {
  }

  lemma SortPrepend(g: seq<real>, s: seq<real>, t: seq<real>)
    requires |g| <= 1 && Sort(s) == Sort(t)
    ensures Sort(g + s) == Sort(g + t)
  {
    if g == [] {
      assert g + s == s && g + t == t;
    } else {
      assert (g + s)[1..] == s && (g + t)[1..] == t;
    }
  }

  lemma SortSwap(g: seq<real>, h: seq<real>, s: seq<real>)
    requires |g| <= 1 && |h| <= 1
    ensures Sort(g + (h + s)) == Sort(h + (g + s))
  {
    if g == [] || h == [] {
      assert g + (h + s) == h + (g + s);
    } else {
      SortMiddle(g, h[0], s);
      assert g + (h + s) == g + [h[0]] + s;
      assert (h + (g + s))[1..] == g + s;
    }
  }

  lemma SummaryPrepend(g: seq<Contribution>, cs: seq<Contribution>, ds: seq<Contribution>)
    requires |g| <= 1 && Summarise(cs) == Summarise(ds)
    ensures Summarise(g + cs) == Summarise(g + ds)
  {
    TotalsPrepend(g, cs);
    TotalsPrepend(g, ds);
    SortPrepend(Measures(g), Measures(cs), Measures(ds));
  }

  lemma SummarySwap(g: seq<Contribution>, h: seq<Contribution>, cs: seq<Contribution>)
    requires |g| <= 1 && |h| <= 1
    ensures Summarise(g + (h + cs)) == Summarise(h + (g + cs))
  {
    TotalsPrepend(g, h + cs);
    TotalsPrepend(h, cs);
    TotalsPrepend(h, g + cs);
    TotalsPrepend(g, cs);
    SortSwap(Measures(g), Measures(h), Measures(cs));
  }

  lemma InsertLoaded(c: Corpus, x: string, s: seq<string>)
    requires StrictlySorted(s) && Loaded(c, s) && x in c.runs
    ensures Loaded(c, Insert(x, s))
  {
    assert forall id | id in Insert(x, s) :: id in Members(Insert(x, s));
  }

  lemma ContributionsCons(c: Corpus, m: Metric, x: string, s: seq<string>)
    requires Loaded(c, s) && x in c.runs
    ensures Loaded(c, [x] + s) && Contributions(c, m, [x] + s) == Gives(c, m, x) + Contributions(c, m, s)
  {
    assert ([x] + s)[1..] == s;
  }

  lemma {:induction false} InsertSummary(c: Corpus, m: Metric, x: string, s: seq<string>)
    requires StrictlySorted(s) && x !in s && Loaded(c, s) && x in c.runs
    ensures Loaded(c, Insert(x, s))
    ensures Summarise(Contributions(c, m, Insert(x, s))) == Summarise(Gives(c, m, x) + Contributions(c, m, s))
  {
    InsertLoaded(c, x, s);
    if s == [] || Less(x, s[0]) {
      ContributionsCons(c, m, x, s);
      assert Insert(x, s) == [x] + s;
    } else {
      var more := Insert(x, s[1..]);
      InsertSummary(c, m, x, s[1..]);
      ContributionsCons(c, m, s[0], more);
      var g, h, rest := Gives(c, m, s[0]), Gives(c, m, x), Contributions(c, m, s[1..]);
      SummaryPrepend(g, Contributions(c, m, more), h + rest);
      SummarySwap(g, h, rest);
    }
  }

  predicate NoRepeats(ids: seq<string>) { forall i, j | 0 <= i < j < |ids| :: ids[i] != ids[j] }

  lemma SortedLoaded(c: Corpus, ids: seq<string>)
    requires Loaded(c, ids)
    ensures Loaded(c, SortedUnique(ids))
  {
    assert forall id | id in SortedUnique(ids) :: id in Members(SortedUnique(ids)) && id in Members(ids);
  }

  lemma HeadUnsorted(ids: seq<string>)
    requires NoRepeats(ids) && ids != []
    ensures ids[0] !in SortedUnique(ids[1..]) && NoRepeats(ids[1..])
  {
    var s := SortedUnique(ids[1..]);
    assert ids[0] !in Members(ids[1..]);
    assert forall x | x in s :: x in Members(s);
  }

  lemma {:induction false} SortSummary(c: Corpus, m: Metric, ids: seq<string>)
    requires Loaded(c, ids) && NoRepeats(ids)
    ensures Loaded(c, SortedUnique(ids))
    ensures Summarise(Contributions(c, m, SortedUnique(ids))) == Summarise(Contributions(c, m, ids))
  {
    SortedLoaded(c, ids);
    if ids == [] {
    } else {
      var x, s := ids[0], SortedUnique(ids[1..]);
      HeadUnsorted(ids);
      SortSummary(c, m, ids[1..]);
      InsertSummary(c, m, x, s);
      SummaryPrepend(Gives(c, m, x), Contributions(c, m, s), Contributions(c, m, ids[1..]));
    }
  }

  lemma NoLabelGiven(c: Corpus, m: Metric, id: string)
    requires id in c.runs && !m.TaskFamilyCount?
    ensures forall x | x in Gives(c, m, id) :: !x.Label?
  {
  }

  lemma {:induction false} NoLabels(c: Corpus, m: Metric, ids: seq<string>)
    requires Loaded(c, ids) && !m.TaskFamilyCount?
    ensures Labels(Contributions(c, m, ids)) == {}
  {
    if ids == [] {
    } else {
      NoLabels(c, m, ids[1..]);
      NoLabelGiven(c, m, ids[0]);
    }
  }

  lemma SameLabels(c: Corpus, m: Metric, ids: seq<string>)
    requires Loaded(c, ids)
    ensures Loaded(c, SortedUnique(ids))
    ensures Labels(Contributions(c, m, SortedUnique(ids))) == Labels(Contributions(c, m, ids))
  {
    SortedLoaded(c, ids);
    var s := SortedUnique(ids);
    if m.TaskFamilyCount? {
      FamilyLabels(c, ids);
      FamilyLabels(c, s);
      assert forall id :: id in ids <==> id in Members(ids);
      assert forall id :: id in s <==> id in Members(s);
    } else {
      NoLabels(c, m, ids);
      NoLabels(c, m, s);
    }
  }

  /** The published aggregate is what the index, sorted by run id, rebuilds to. */
  lemma DirectIsIndexed(c: Corpus, m: Metric, ids: seq<string>)
    requires Loaded(c, ids) && ids != [] && NoRepeats(ids)
    ensures Loaded(c, SortedUnique(ids))
    ensures Rebuild(m, Contributions(c, m, SortedUnique(ids))) == Some(Direct(c, m, ids))
  {
    SortSummary(c, m, ids);
    SameLabels(c, m, ids);
    SummaryDecides(m, Contributions(c, m, SortedUnique(ids)), Contributions(c, m, ids));
    DirectIsRebuilt(c, m, ids);
  }

  /** The order in which the run files are read cannot change an aggregate. */
  lemma OrderIndependent(c: Corpus, m: Metric, ids: seq<string>, js: seq<string>)
    requires Loaded(c, ids) && ids != [] && NoRepeats(ids)
    requires NoRepeats(js) && Members(js) == Members(ids)
    ensures Loaded(c, js) && Direct(c, m, ids) == Direct(c, m, js)
  {
    assert forall id | id in js :: id in Members(js) && id in Members(ids);
    EmptyMembers(ids);
    EmptyMembers(js);
    SortedIsCanonical(SortedUnique(ids), SortedUnique(js));
    DirectIsIndexed(c, m, ids);
    DirectIsIndexed(c, m, js);
  }
}
