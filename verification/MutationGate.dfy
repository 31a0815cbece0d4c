/** The mutation gate: each registered mutation is applied to a throwaway copy,
    probed by its named tests and undone, and the verdict is read off the probes. */
module MutationGate {
  import opened Text

  // ------------------------------------------------------------ one mutation

  /** Python's `count`: occurrences that do not overlap. */
  function CountOf(s: string, p: string): nat
    requires p != ""
    decreases |s|
  {
    match Find(s, p)
    case None => 0
    case Some(i) => 1 + CountOf(s[i + |p|..], p)
  }

  /** The mutated text, or None when the mutation is refused as inexact. */
  function Mutate(s: string, literal: string, replacement: string): Option<string>
    requires literal != ""
  {
    var i := Find(s, literal);
    if CountOf(s, literal) != 1 || i.None? then None
    else
      var mutated := s[..i.value] + replacement + s[i.value + |literal|..];
      if mutated == s then None else Some(mutated)
  }

  /** The literal stands at `i` and nowhere after it. */
  predicate OnlyAt(s: string, literal: string, i: nat) {
    FirstAt(s, literal, i) && !Contains(s[i + |literal|..], literal)
  }

  /** `t` is `s` with the literal at `i` replaced. */
  predicate Replaced(s: string, t: string, literal: string, replacement: string, i: nat) {
    && OccursAt(s, literal, i)
    && s == s[..i] + literal + s[i + |literal|..] && t == s[..i] + replacement + s[i + |literal|..]
  }

  lemma OnlyAtIsFound(s: string, literal: string)
    ensures forall i: nat | OnlyAt(s, literal, i) :: Find(s, literal) == Some(i)
  {
    forall i: nat | OnlyAt(s, literal, i) ensures Find(s, literal) == Some(i) { FindIsFirst(s, literal, i); }
  }

  lemma CountIsOne(s: string, p: string)
    requires p != ""
    ensures CountOf(s, p) == 1 <==> Find(s, p).Some? && OnlyAt(s, p, Find(s, p).value)
  {
    if Find(s, p).Some? { FindsIfContains(s[Find(s, p).value + |p|..], p); }
  }

  lemma FindsIfContains(s: string, p: string)
    ensures Find(s, p).Some? <==> Contains(s, p)
  {
    if Find(s, p).Some? { assert OccursAt(s, p, Find(s, p).value); }
  }

  lemma SpliceEqual(a: string, x: string, y: string, b: string)
    ensures a + x + b == a + y + b <==> x == y
  {
    if a + x + b == a + y + b {
      assert |x| == |y|;
      assert (a + x + b)[|a|..|a| + |x|] == x && (a + y + b)[|a|..|a| + |y|] == y;
    }
  }

  /** A mutation takes effect exactly when the literal occurs once and is really
      replaced; it then changes that occurrence and nothing else. */
  lemma MutatesIff(s: string, literal: string, replacement: string)
    requires literal != ""
    ensures Mutate(s, literal, replacement).Some? <==>
            literal != replacement && Find(s, literal).Some? && OnlyAt(s, literal, Find(s, literal).value)
    ensures Mutate(s, literal, replacement).Some? ==>
              var i := Find(s, literal).value;
              && s == s[..i] + literal + s[i + |literal|..]
              && Mutate(s, literal, replacement).value == s[..i] + replacement + s[i + |literal|..]
  {
    CountIsOne(s, literal);
    if Find(s, literal).Some? {
      var i := Find(s, literal).value;
      var a, b := s[..i], s[i + |literal|..];
      assert s[i..i + |literal|] == literal;
      assert s == a + literal + b;
      SpliceEqual(a, literal, replacement, b);
    }
  }

  // -------------------------------------------------------------- the sandbox

  datatype Entry =
    | NotAnObject
    | Entry(boundary: string, file: string, literal: string, replacement: string,
            tests: Option<seq<string>>, guarded: bool)

  datatype TestRun = TestRun(files: map<string, string>, tests: seq<string>, code: int)

  datatype Probe = Undetermined | Recorded(caught: bool)

  /** The registry entry is well formed and may be probed on these files. */
  predicate Eligible(e: Entry, files: map<string, string>, quarantine: set<string>) {
    && e.Entry? && e.file != "" && e.literal != "" && e.replacement != ""
    && e.tests.Some? && !e.guarded
    && (forall t | t in e.tests.value :: t !in quarantine)
    && e.file in files
  }

  function MutatedFiles(e: Entry, files: map<string, string>): Option<map<string, string>>
    requires Eligible(e, files, {})
  {
    var t := Mutate(files[e.file], e.literal, e.replacement);
    if t.None? then None else Some(files[e.file := t.value])
  }

  /** The named tests passed on the unmutated copies, and a later run of the same
      tests on the copies with this one mutation failed exactly when `caught`. */
  predicate Probed(e: Entry, files: map<string, string>, runs: seq<TestRun>, caught: bool) {
    && Eligible(e, files, {}) && MutatedFiles(e, files).Some?
    && exists c, m | 0 <= c < m < |runs| ::
         && runs[c] == TestRun(files, e.tests.value, 0)
         && runs[m].files == MutatedFiles(e, files).value && runs[m].tests == e.tests.value
         && (runs[m].code != 0) == caught
  }

  lemma ProbedNow(e: Entry, files: map<string, string>, mutation: map<string, string>, runs: seq<TestRun>, code: int)
    requires Eligible(e, files, {}) && MutatedFiles(e, files) == Some(mutation)
    ensures Probed(e, files, runs + [TestRun(files, e.tests.value, 0)] + [TestRun(mutation, e.tests.value, code)],
                   code != 0)
  {
    var control := TestRun(files, e.tests.value, 0);
    var all := runs + [control] + [TestRun(mutation, e.tests.value, code)];
    assert all[|runs|] == control && all[|runs| + 1] == TestRun(mutation, e.tests.value, code);
  }

  lemma ProbedLater(e: Entry, files: map<string, string>, runs: seq<TestRun>, more: seq<TestRun>, caught: bool)
    requires Probed(e, files, runs, caught) && runs <= more
    ensures Probed(e, files, more, caught)
  {
    var c, m :| 0 <= c < m < |runs| &&
      runs[c] == TestRun(files, e.tests.value, 0) &&
      runs[m].files == MutatedFiles(e, files).value && runs[m].tests == e.tests.value &&
      (runs[m].code != 0) == caught;
    assert more[c] == runs[c] && more[m] == runs[m];
  }

  /** The answers of the environment: the clock readings past the budget, and the
      exit codes of the test runs, each by its place among all readings and runs. */
  datatype Schedule = Schedule(late: nat -> bool, exit: nat -> int, quarantine: set<string>)

  /** A probe that begins at reading `t` is recorded: its entry is eligible and in
      time, its control passes and its mutation applies. */
  predicate Recordable(w: Schedule, e: Entry, files: map<string, string>, t: nat) {
    Eligible(e, files, w.quarantine) && !w.late(t) && w.exit(t + 1) == 0 && MutatedFiles(e, files).Some?
  }

  /** It leaves the entry in doubt: not recorded, or finished past the budget. */
  predicate Doubtful(w: Schedule, e: Entry, files: map<string, string>, t: nat) {
    !Recordable(w, e, files, t) || w.late(t + 3)
  }

  predicate Catches(w: Schedule, t: nat) { w.exit(t + 2) != 0 }

  /** The reading after a probe that begins at `t`. */
  function ProbeEnd(w: Schedule, e: Entry, files: map<string, string>, t: nat): nat {
    if e.NotAnObject? then t
    else if w.late(t) || !Eligible(e, files, w.quarantine) then t + 1
    else if w.exit(t + 1) != 0 || MutatedFiles(e, files).None? then t + 2
    else t + 4
  }

  /** The reading at which the probe of entry `j` begins. */
  function ProbeStart(w: Schedule, entries: seq<Entry>, files: map<string, string>, t: nat, j: nat): nat
    requires j <= |entries|
  {
    if j == 0 then t
    else ProbeEnd(w, entries[j - 1], files, ProbeStart(w, entries, files, t, j - 1))
  }

  class Sandbox {
    var files: map<string, string>
    var tick: nat
    ghost var runs: seq<TestRun>
    const late: nat -> bool     // whether the n-th reading of the clock is past the budget
    const exit: nat -> int      // the exit code of the n-th test run

    constructor (files: map<string, string>, late: nat -> bool, exit: nat -> int)
      ensures this.files == files && runs == []
    {
      this.files, this.late, this.exit := files, late, exit;
      tick, runs := 0, [];
    }

    method PastBudget() returns (past: bool)
      modifies this`tick
      ensures past == late(old(tick)) && tick == old(tick) + 1
    {
      past := late(tick);
      tick := tick + 1;
    }

    method RunTests(tests: seq<string>) returns (code: int)
      modifies this`tick, this`runs
      ensures runs == old(runs) + [TestRun(files, tests, code)]
      ensures code == exit(old(tick)) && tick == old(tick) + 1
    {
      code := exit(tick);
      tick := tick + 1;
      runs := runs + [TestRun(files, tests, code)];
    }

    /** Applied exactly when the literal stands in the file once and is really
        replaced; the file then differs at that occurrence and nothing else does. */
    method ApplyMutation(file: string, literal: string, replacement: string) returns (ok: bool)
      requires file in files && literal != ""
      modifies this`files
      ensures ok <==> literal != replacement && exists i: nat :: OnlyAt(old(files[file]), literal, i)
      ensures !ok ==> files == old(files)
      ensures ok ==> file in files && files == old(files)[file := files[file]]
      ensures ok ==> forall i: nat | OnlyAt(old(files[file]), literal, i) ::
                       Replaced(old(files[file]), files[file], literal, replacement, i)
      ensures Mutate(old(files[file]), literal, replacement) == if ok then Some(files[file]) else None
    {
      MutatesIff(files[file], literal, replacement);
      OnlyAtIsFound(files[file], literal);
      var mutated := Mutate(files[file], literal, replacement);
      ok := mutated.Some?;
      if ok { files := files[file := mutated.value]; }
    }

    function Plan(quarantine: set<string>): Schedule { Schedule(late, exit, quarantine) }

    /** One probe: control run, mutation, mutated run, restoration. Whatever happens
        the files end as they began. */
    method ProbeEntry(e: Entry, quarantine: set<string>) returns (r: Probe)
      modifies this`files, this`tick, this`runs
      ensures files == old(files) && old(runs) <= runs
      ensures r.Recorded? ==> Probed(e, files, runs, r.caught)
      ensures r.Recorded? <==> Recordable(Plan(quarantine), e, files, old(tick))
      ensures r.Recorded? ==> r.caught == Catches(Plan(quarantine), old(tick)) && tick == old(tick) + 3
      ensures !r.Recorded? ==> tick == ProbeEnd(Plan(quarantine), e, files, old(tick))
    {
      if e.NotAnObject? { return Undetermined; }
      var past := PastBudget();
      if past || !Eligible(e, files, quarantine) { return Undetermined; }
      ghost var whole := files;
      var original := files[e.file];
      var control := RunTests(e.tests.value);
      if control != 0 { return Undetermined; }
      var ok := ApplyMutation(e.file, e.literal, e.replacement);
      if !ok {
        files := files[e.file := original];
        return Undetermined;
      }
      ghost var mutation := files;
      var mutated := RunTests(e.tests.value);
      files := files[e.file := original];
      assert files == whole;
      ProbedNow(e, whole, mutation, old(runs), mutated);
      return Recorded(mutated != 0);
    }
  }

  // ------------------------------------------------------------------ the gate

  datatype Record = Record(entry: nat, caught: bool)

  datatype Status = Pass | Fail | Incomplete

  /** A gate over a sandbox whose readings begin at `t`. */
  datatype Gate = Gate(w: Schedule, entries: seq<Entry>, files: map<string, string>, t: nat)

  predicate InDoubt(g: Gate, j: nat)
    requires j < |g.entries|
  {
    Doubtful(g.w, g.entries[j], g.files, ProbeStart(g.w, g.entries, g.files, g.t, j))
  }

  predicate OnRecord(g: Gate, j: nat)
    requires j < |g.entries|
  {
    Recordable(g.w, g.entries[j], g.files, ProbeStart(g.w, g.entries, g.files, g.t, j))
  }

  predicate IsCaught(g: Gate, j: nat)
    requires j < |g.entries|
  {
    Catches(g.w, ProbeStart(g.w, g.entries, g.files, g.t, j))
  }

  /** The lists after `n` entries: a record for exactly the recordable probes, with
      what they showed, a reason for exactly the entries in doubt, and the survivors
      for exactly the recorded mutations that were not caught. */
  ghost predicate Tallies(g: Gate, n: nat, records: seq<Record>, indeterminate: seq<nat>, survived: seq<nat>)
    requires n <= |g.entries|
  {
    && (forall r | r in records :: r.entry < n && OnRecord(g, r.entry) && r.caught == IsCaught(g, r.entry))
    && (forall j | 0 <= j < n && OnRecord(g, j) :: Record(j, IsCaught(g, j)) in records)
    && (forall j: nat :: j in indeterminate <==> j < n && InDoubt(g, j))
    && (forall j: nat :: j in survived <==> j < n && OnRecord(g, j) && !IsCaught(g, j))
  }

  predicate RecordsProbed(entries: seq<Entry>, files: map<string, string>, runs: seq<TestRun>, records: seq<Record>) {
    forall r | r in records :: r.entry < |entries| && Probed(entries[r.entry], files, runs, r.caught)
  }

  lemma TallyUndetermined(g: Gate, n: nat, records: seq<Record>, indeterminate: seq<nat>, survived: seq<nat>)
    requires n < |g.entries| && Tallies(g, n, records, indeterminate, survived) && !OnRecord(g, n)
    ensures Tallies(g, n + 1, records, indeterminate + [n], survived)
  {
  }

  lemma TallyRecorded(g: Gate, n: nat, records: seq<Record>, indeterminate: seq<nat>, survived: seq<nat>)
    requires n < |g.entries| && Tallies(g, n, records, indeterminate, survived) && OnRecord(g, n)
    ensures Tallies(g, n + 1, records + [Record(n, IsCaught(g, n))],
                    indeterminate + (if InDoubt(g, n) then [n] else []),
                    survived + (if IsCaught(g, n) then [] else [n]))
  {
    var more := records + [Record(n, IsCaught(g, n))];
    forall j | 0 <= j <= n && OnRecord(g, j) ensures Record(j, IsCaught(g, j)) in more {
      if j < n { assert Record(j, IsCaught(g, j)) in records; } else { assert more[|records|] in more; }
    }
  }

  /** The probe loop. At its head the sandbox files are always the unmutated ones,
      and the lists are exactly what the probes so far showed. */
  method ProbeAll(box: Sandbox, entries: seq<Entry>, quarantine: set<string>)
    returns (records: seq<Record>, indeterminate: seq<nat>, survived: seq<nat>)
    modifies box`files, box`tick, box`runs
    ensures box.files == old(box.files)
    ensures Tallies(Gate(box.Plan(quarantine), entries, box.files, old(box.tick)), |entries|,
                    records, indeterminate, survived)
    ensures RecordsProbed(entries, box.files, box.runs, records)
  {
    ghost var g := Gate(box.Plan(quarantine), entries, box.files, box.tick);
    records, indeterminate, survived := [], [], [];
    for i := 0 to |entries|
      invariant box.files == g.files && box.tick == ProbeStart(g.w, entries, g.files, g.t, i)
      invariant Tallies(g, i, records, indeterminate, survived)
      invariant RecordsProbed(entries, box.files, box.runs, records)
    {
      ghost var was := box.runs;
      var p, past := ProbeInTime(box, entries[i], quarantine);
      RecordsLater(entries, box.files, was, box.runs, records);
      if p.Undetermined? {
        TallyUndetermined(g, i, records, indeterminate, survived);
        indeterminate := indeterminate + [i];
      } else {
        TallyRecorded(g, i, records, indeterminate, survived);
        records := records + [Record(i, p.caught)];
        survived := survived + (if p.caught then [] else [i]);
        indeterminate := indeterminate + (if past then [i] else []);
      }
    }
  }

  /** One probe, and for a recorded one the reading of the clock after it. */
  method ProbeInTime(box: Sandbox, e: Entry, quarantine: set<string>) returns (p: Probe, past: bool)
    modifies box`files, box`tick, box`runs
    ensures box.files == old(box.files) && old(box.runs) <= box.runs
    ensures box.tick == ProbeEnd(box.Plan(quarantine), e, box.files, old(box.tick))
    ensures p.Recorded? <==> Recordable(box.Plan(quarantine), e, box.files, old(box.tick))
    ensures p.Recorded? ==> Probed(e, box.files, box.runs, p.caught)
    ensures p.Recorded? ==> p.caught == Catches(box.Plan(quarantine), old(box.tick))
    ensures p.Recorded? ==> past == Doubtful(box.Plan(quarantine), e, box.files, old(box.tick))
  {
    past := false;
    p := box.ProbeEntry(e, quarantine);
    if p.Recorded? { past := box.PastBudget(); }
  }

  lemma RecordsLater(entries: seq<Entry>, files: map<string, string>, runs: seq<TestRun>, more: seq<TestRun>,
                     records: seq<Record>)
    requires RecordsProbed(entries, files, runs, records) && runs <= more
    ensures RecordsProbed(entries, files, more, records)
  {
    forall r | r in records ensures Probed(entries[r.entry], files, more, r.caught) {
      ProbedLater(entries[r.entry], files, runs, more, r.caught);
    }
  }

  predicate Boundaries(entries: seq<Entry>, required: set<string>) {
    forall b | b in required :: exists j | 0 <= j < |entries| :: entries[j].Entry? && entries[j].boundary == b
  }

  /** Nothing is in doubt: not a probe, not a boundary, not the quarantine, not the
      repository itself. */
  ghost predicate Certain(g: Gate, required: set<string>, problems: nat, repositoryChanged: nat) {
    && g.entries != [] && Boundaries(g.entries, required) && problems == 0 && repositoryChanged == 0
    && forall j: nat | j < |g.entries| :: !InDoubt(g, j)
  }

  /** PASS exactly when nothing is in doubt and every mutation was caught; FAIL
      exactly when nothing is in doubt and one survived. PASS means that every
      registered mutation had a passing control and a failing mutated run. The
      sandbox is back as it was. */
  method RunMutationGate(box: Sandbox, entries: seq<Entry>, required: set<string>, quarantine: set<string>,
                         problems: nat, repositoryChanged: nat) returns (status: Status)
    modifies box`files, box`tick, box`runs
    ensures box.files == old(box.files)
    ensures var g := Gate(box.Plan(quarantine), entries, box.files, old(box.tick));
            var certain := Certain(g, required, problems, repositoryChanged);
            && (status.Incomplete? <==> !certain)
            && (status.Pass? <==> certain && forall j: nat | j < |entries| :: IsCaught(g, j))
            && (status.Fail? <==> certain && exists j: nat | j < |entries| :: !IsCaught(g, j))
    ensures status.Pass? ==> forall j: nat | j < |entries| :: Probed(entries[j], box.files, box.runs, true)
    ensures status.Fail? ==> exists j: nat | j < |entries| :: Probed(entries[j], box.files, box.runs, false)
  {
    if entries == [] { return Incomplete; }
    ghost var g := Gate(box.Plan(quarantine), entries, box.files, box.tick);
    var boundaries := set e | e in entries && e.Entry? :: e.boundary;
    BoundarySet(entries, required, boundaries);
    var records, indeterminate, survived := ProbeAll(box, entries, quarantine);
    NoneInDoubt(g, records, indeterminate, survived);
    if indeterminate != [] || repositoryChanged != 0 || problems != 0 || !(required <= boundaries) {
      return Incomplete;
    }
    VerdictOf(g, records, survived, box.runs);
    return if survived != [] then Fail else Pass;
  }

  lemma NoneInDoubt(g: Gate, records: seq<Record>, indeterminate: seq<nat>, survived: seq<nat>)
    requires Tallies(g, |g.entries|, records, indeterminate, survived)
    ensures indeterminate == [] <==> forall j: nat | j < |g.entries| :: !InDoubt(g, j)
    ensures survived == [] <==> forall j: nat | j < |g.entries| && OnRecord(g, j) :: IsCaught(g, j)
  {
    if indeterminate != [] { assert indeterminate[0] in indeterminate; }
    if survived != [] { assert survived[0] in survived; }
  }

  lemma VerdictOf(g: Gate, records: seq<Record>, survived: seq<nat>, runs: seq<TestRun>)
    requires Tallies(g, |g.entries|, records, [], survived) && RecordsProbed(g.entries, g.files, runs, records)
    requires forall j: nat | j < |g.entries| :: !InDoubt(g, j)
    ensures forall j: nat | j < |g.entries| :: OnRecord(g, j) && Probed(g.entries[j], g.files, runs, IsCaught(g, j))
  {
    forall j: nat | j < |g.entries|
      ensures OnRecord(g, j) && Probed(g.entries[j], g.files, runs, IsCaught(g, j))
    {
      assert !InDoubt(g, j);
      assert Record(j, IsCaught(g, j)) in records;
    }
  }

  lemma BoundarySet(entries: seq<Entry>, required: set<string>, boundaries: set<string>)
    requires boundaries == set e | e in entries && e.Entry? :: e.boundary
    ensures required <= boundaries <==> Boundaries(entries, required)
  {
    if Boundaries(entries, required) {
      forall b | b in required ensures b in boundaries {
        var j :| 0 <= j < |entries| && entries[j].Entry? && entries[j].boundary == b;
        assert entries[j] in entries;
      }
    }
    if required <= boundaries {
      forall b | b in required ensures exists j | 0 <= j < |entries| :: entries[j].Entry? && entries[j].boundary == b {
        assert b in boundaries;
      }
    }
  }
}
