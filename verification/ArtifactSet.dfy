/** Publication of a generated artifact set: stage every file, read every staged
    file back, rename each over its target, and put everything back when any
    operation fails. */
module ArtifactSet {
  import opened Text

  type Bytes = string

  datatype Path = Path(dir: string, name: string)

  datatype Artifact = Artifact(target: Path, content: Bytes, markers: seq<string>)

  /** How the file system answers one operation. `Fails` may leave junk behind
      where a write was cut short; `Garbles` succeeds and stores something else. */
  datatype Answer = Works | Fails(junk: Bytes) | Garbles(junk: Bytes)

  type Files = map<Path, Bytes>

  predicate SameAt(f: Files, g: Files, p: Path) {
    (p in f <==> p in g) && (p in f ==> f[p] == g[p])
  }

  lemma FrameStep(f: Files, g: Files, before: Files, t: Path)
    requires f - {t} == g - {t}
    ensures forall p | p != t :: SameAt(f, before, p) <==> SameAt(g, before, p)
  {
    forall p | p != t ensures SameAt(f, before, p) <==> SameAt(g, before, p) {
      assert p in f <==> p in f - {t};
      assert p in g <==> p in g - {t};
      if p in f { assert f[p] == (f - {t})[p] == (g - {t})[p] == g[p]; }
    }
  }

  /** Target files, the staged files of one publication by artifact index, and
      the answers every future operation will get. `writes` lists the targets
      written, renamed over or removed, in order. */
  class Disk {
    const answers: nat -> Answer
    var clock: nat
    var files: Files
    var staged: map<nat, Bytes>
    var writes: seq<Path>

    constructor (answers: nat -> Answer, files: Files)
      ensures this.answers == answers && this.files == files && clock == 0 && writes == []
    {
      this.answers := answers;
      this.files := files;
      clock, staged, writes := 0, map[], [];
    }

    /** Every operation between two instants worked. */
    ghost predicate Smooth(from: nat, to: nat)
      reads this
    {
      forall n | from <= n < to :: answers(n).Works?
    }

    /** Every operation from an instant on works. */
    ghost predicate Works(from: nat) { forall n | from <= n :: answers(n).Works? }

    method Answered() returns (a: Answer)
      modifies this`clock
      ensures clock == old(clock) + 1 && a == answers(old(clock))
    {
      a := answers(clock);
      clock := clock + 1;
    }

    method WriteStaged(k: nat, bytes: Bytes) returns (ok: bool)
      modifies this`clock, this`staged
      ensures clock == old(clock) + 1
      ensures answers(old(clock)).Works? ==> ok && staged == old(staged)[k := bytes]
    {
      var a := Answered();
      match a
      case Works => staged, ok := staged[k := bytes], true;
      case Garbles(junk) => staged, ok := staged[k := junk], true;
      case Fails(junk) => staged, ok := staged[k := junk], false;
    }

    method ReadStaged(k: nat) returns (r: Option<Bytes>)
      modifies this`clock
      ensures clock == old(clock) + 1
      ensures r.Some? ==> k in staged && r.value == staged[k]
      ensures answers(old(clock)).Works? && k in staged ==> r.Some?
    {
      var a := Answered();
      if a.Works? && k in staged { r := Some(staged[k]); } else { r := None; }
    }

    method ReadTarget(p: Path) returns (r: Option<Bytes>)
      modifies this`clock
      ensures clock == old(clock) + 1
      ensures r == if answers(old(clock)).Works? && p in files then Some(files[p]) else None
    {
      var a := Answered();
      if a.Works? && p in files { r := Some(files[p]); } else { r := None; }
    }

    /** A rename either happens or does not. */
    method Replace(k: nat, p: Path) returns (ok: bool)
      modifies this`clock, this`files, this`staged, this`writes
      ensures clock == old(clock) + 1
      ensures files - {p} == old(files) - {p} && staged - {k} == old(staged) - {k}
      ensures answers(old(clock)).Works? && k in old(staged) ==> ok && p in files && files[p] == old(staged)[k]
      ensures writes == old(writes) + [p]
    {
      var a := Answered();
      writes := writes + [p];
      if a.Fails? || k !in staged { return false; }
      files := files[p := if a.Garbles? then a.junk else staged[k]];
      staged := staged - {k};
      return true;
    }

    /** A write that stores something else reports success like any other. */
    method WriteTarget(p: Path, bytes: Bytes) returns (ok: bool)
      modifies this`clock, this`files, this`writes
      ensures clock == old(clock) + 1
      ensures files - {p} == old(files) - {p}
      ensures ok == !answers(old(clock)).Fails?
      ensures p in files && files[p] == if answers(old(clock)).Works? then bytes else answers(old(clock)).junk
      ensures writes == old(writes) + [p]
    {
      var a := Answered();
      writes := writes + [p];
      ok := !a.Fails?;
      files := files[p := if a.Works? then bytes else a.junk];
    }

    /** A removal either happens or does not. */
    method Unlink(p: Path) returns (ok: bool)
      modifies this`clock, this`files, this`writes
      ensures clock == old(clock) + 1
      ensures files - {p} == old(files) - {p}
      ensures ok == !answers(old(clock)).Fails? && (ok ==> p !in files)
      ensures writes == old(writes) + [p]
    {
      var a := Answered();
      writes := writes + [p];
      ok := !a.Fails?;
      if ok { files := files - {p}; }
    }
  }

  datatype Action = Renamed | LeftUnchanged

  datatype Outcome =
    | Refused                          // nothing to publish, or two artifacts on one target
    | Published(actions: seq<Action>)
    | RolledBack
    | RestoreFailed(failures: set<Path>)

  /** A target already replaced, with the content it had. */
  datatype Undo = Undo(target: Path, previous: Option<Bytes>)

  predicate UndoesTo(u: Undo, before: Files) {
    if u.previous.Some? then u.target in before && before[u.target] == u.previous.value else u.target !in before
  }

  function Paths(replaced: seq<Undo>): set<Path> {
    set u | u in replaced :: u.target
  }

  lemma PathsSnoc(replaced: seq<Undo>, u: Undo)
    ensures Paths(replaced + [u]) == Paths(replaced) + {u.target}
  {
    assert u in replaced + [u];
    forall v | v in replaced ensures v in replaced + [u] {}
  }

  /** Nothing outside the journal differs from the files as they were. */
  ghost predicate Covered(files: Files, before: Files, replaced: seq<Undo>) {
    && (forall u | u in replaced :: UndoesTo(u, before))
    && (forall p | p !in Paths(replaced) :: SameAt(files, before, p))
  }

  predicate DistinctTargets(artifacts: seq<Artifact>) {
    forall i, j | 0 <= i < j < |artifacts| :: artifacts[i].target != artifacts[j].target
  }

  /** What a failed publication put back: the journal, and the instant at which
      restoring began. One operation restores one target, newest first. */
  datatype Rollback = Rollback(at: nat, journal: seq<Undo>)

  /** How the disk answers the operation that restores the journal's `i`-th target. */
  function Restoring(answers: nat -> Answer, back: Rollback, i: nat): Answer
    requires i < |back.journal|
  {
    answers(back.at + (|back.journal| - 1 - i))
  }

  /** The restoring write reports success and stores something else. */
  predicate Spoils(a: Answer, u: Undo) { a.Garbles? && u.previous.Some? && a.junk != u.previous.value }

  /** The targets from the journal's `k`-th on whose restoring operation failed. */
  ghost function Unrestored(answers: nat -> Answer, back: Rollback, k: nat): set<Path> {
    set i: nat | k <= i < |back.journal| && Restoring(answers, back, i).Fails? :: back.journal[i].target
  }

  /** Those whose restoring write silently stored something else. */
  ghost function Spoiled(answers: nat -> Answer, back: Rollback, k: nat): set<Path> {
    set i: nat | k <= i < |back.journal| && Spoils(Restoring(answers, back, i), back.journal[i]) ::
      back.journal[i].target
  }

  lemma RestoringStep(answers: nat -> Answer, back: Rollback, k: nat)
    requires k < |back.journal|
    ensures var a, u := Restoring(answers, back, k), back.journal[k];
            && Unrestored(answers, back, k) == Unrestored(answers, back, k + 1) + (if a.Fails? then {u.target} else {})
            && Spoiled(answers, back, k) == Spoiled(answers, back, k + 1) + (if Spoils(a, u) then {u.target} else {})
  {
  }

  predicate DistinctUndos(journal: seq<Undo>) {
    forall i, j | 0 <= i < j < |journal| :: journal[i].target != journal[j].target
  }

  /** The journal from `k` on has been put back: every file outside the part still
      to restore is as before, except the targets whose restoring operation failed
      and those that were spoiled, which do differ. */
  ghost predicate PutBackFrom(files: Files, before: Files, answers: nat -> Answer, back: Rollback, k: nat)
    requires k <= |back.journal|
  {
    var failed, spoiled := Unrestored(answers, back, k), Spoiled(answers, back, k);
    && (forall p | p !in failed && p !in spoiled && p !in Paths(back.journal[..k]) :: SameAt(files, before, p))
    && (forall p | p in spoiled :: !SameAt(files, before, p))
  }

  lemma PutBackStep(was: Files, now: Files, before: Files, answers: nat -> Answer, back: Rollback, k: nat)
    requires k < |back.journal| && DistinctUndos(back.journal) && PutBackFrom(was, before, answers, back, k + 1)
    requires var u := back.journal[k]; was - {u.target} == now - {u.target} && UndoesTo(u, before)
    requires var a, u := Restoring(answers, back, k), back.journal[k];
             (Spoils(a, u) ==> !UndoesTo(u, now)) && (!a.Fails? && !Spoils(a, u) ==> UndoesTo(u, now))
    ensures PutBackFrom(now, before, answers, back, k)
  {
    var u := back.journal[k];
    RestoringStep(answers, back, k);
    FrameStep(was, now, before, u.target);
    assert back.journal[..k + 1] == back.journal[..k] + [u];
    PathsSnoc(back.journal[..k], u);
    assert u.target !in Spoiled(answers, back, k + 1);
  }

  /** Put back every journalled target, newest first. Exactly the targets whose
      restoring operation failed are reported; everything else is as it was, but
      for the spoiled targets, which nothing reports. */
  method Restore(disk: Disk, replaced: seq<Undo>, ghost before: Files) returns (failures: set<Path>)
    requires Covered(disk.files, before, replaced) && DistinctUndos(replaced)
    modifies disk`clock, disk`files, disk`writes
    ensures disk.clock == old(disk.clock) + |replaced| && old(disk.writes) <= disk.writes
    ensures failures == Unrestored(disk.answers, Rollback(old(disk.clock), replaced), 0)
    ensures PutBackFrom(disk.files, before, disk.answers, Rollback(old(disk.clock), replaced), 0)
  {
    ghost var back := Rollback(disk.clock, replaced);
    failures := {};
    var k := |replaced|;
    assert replaced[..k] == replaced;
    while k > 0
      invariant 0 <= k <= |replaced| && disk.clock == back.at + (|replaced| - k) && old(disk.writes) <= disk.writes
      invariant failures == Unrestored(disk.answers, back, k)
      invariant PutBackFrom(disk.files, before, disk.answers, back, k)
    {
      k := k - 1;
      var u := replaced[k];
      ghost var was := disk.files;
      RestoringStep(disk.answers, back, k);
      assert u in replaced && UndoesTo(u, before);
      var ok := PutBack(disk, u);
      if !ok {
        failures := failures + {u.target};
      }
      PutBackStep(was, disk.files, before, disk.answers, back, k);
    }
  }

  method PutBack(disk: Disk, u: Undo) returns (ok: bool)
    modifies disk`clock, disk`files, disk`writes
    ensures disk.clock == old(disk.clock) + 1 && ok == !disk.answers(old(disk.clock)).Fails?
    ensures disk.writes == old(disk.writes) + [u.target]
    ensures disk.files - {u.target} == old(disk.files) - {u.target}
    ensures ok && !Spoils(disk.answers(old(disk.clock)), u) ==> UndoesTo(u, disk.files)
    ensures Spoils(disk.answers(old(disk.clock)), u) ==> !UndoesTo(u, disk.files)
  {
    if u.previous.None? {
      ok := disk.Unlink(u.target);
    } else {
      ok := disk.WriteTarget(u.target, u.previous.value);
    }
  }

  /** A restoring write that stores something else is not noticed: nothing is
      reported, and the target does not hold what it held. */
  method SpoiledUnnoticed(p: Path, was: Bytes, junk: Bytes) returns (disk: Disk, failures: set<Path>)
    requires junk != was
    ensures failures == {} && !SameAt(disk.files, map[p := was], p)
  {
    disk := new Disk(n => Garbles(junk), map[p := junk]);
    var journal := [Undo(p, Some(was))];
    assert Paths(journal) == {p} by { assert journal[0] in journal; }
    ghost var back := Rollback(0, journal);
    failures := Restore(disk, journal, map[p := was]);
    assert Spoils(Restoring(disk.answers, back, 0), back.journal[0]);
    assert p in Spoiled(disk.answers, back, 0);
  }

  /** Write and then re-read every staged file; the set is published from what
      the disk holds. The staging hook may raise after any write. */
  method Stage(disk: Disk, artifacts: seq<Artifact>) returns (ok: bool)
    modifies disk`clock, disk`staged
    ensures disk.clock >= old(disk.clock)
    ensures ok ==> forall k | 0 <= k < |artifacts| :: Verified(disk.staged, artifacts, k)
    ensures !ok && disk.Smooth(old(disk.clock), disk.clock) ==> exists a | a in artifacts :: !MarkersPresent(a)
  {
    for k := 0 to |artifacts|
      invariant disk.clock >= old(disk.clock)
      invariant disk.Smooth(old(disk.clock), disk.clock) ==>
                  forall j | 0 <= j < k :: j in disk.staged && disk.staged[j] == artifacts[j].content
    {
      var written := disk.WriteStaged(k, artifacts[k].content);
      if !written { return false; }
      var hook := disk.Answered();
      if !hook.Works? { return false; }
    }
    for k := 0 to |artifacts|
      invariant disk.clock >= old(disk.clock)
      invariant disk.Smooth(old(disk.clock), disk.clock) ==>
                  forall j | 0 <= j < |artifacts| :: j in disk.staged && disk.staged[j] == artifacts[j].content
      invariant forall j | 0 <= j < k :: Verified(disk.staged, artifacts, j)
    {
      var bytes := disk.ReadStaged(k);
      if bytes.None? || bytes.value != artifacts[k].content { return false; }
      if exists m | m in artifacts[k].markers :: !Contains(bytes.value, m) {
        assert artifacts[k] in artifacts && !MarkersPresent(artifacts[k]);
        return false;
      }
    }
    return true;
  }

  predicate Verified(staged: map<nat, Bytes>, artifacts: seq<Artifact>, k: int)
    requires 0 <= k < |artifacts|
  {
    k in staged && staged[k] == artifacts[k].content && MarkersPresent(artifacts[k])
  }

  predicate MarkersPresent(a: Artifact) {
    forall m | m in a.markers :: Contains(a.content, m)
  }

  /** A rollback of this publication: it journalled only its targets, with the
      content each had, and took one operation for each. */
  ghost predicate RollsBack(back: Rollback, artifacts: seq<Artifact>, before: Files, from: nat, to: nat) {
    && Paths(back.journal) <= Targets(artifacts) && (forall u | u in back.journal :: UndoesTo(u, before))
    && from <= back.at && to == back.at + |back.journal| && DistinctUndos(back.journal)
  }

  /** Publication is all or nothing. On success every target holds its staged
      bytes, other files are as before, and a target that already held its bytes
      is not touched. On failure every file is as it was before the call, except
      the journalled targets whose restoring operation failed, which are exactly
      those reported, and those whose restoring write stored something else. */
  method Publish(disk: Disk, artifacts: seq<Artifact>) returns (r: Outcome, ghost back: Rollback)
    modifies disk
    ensures disk.clock >= old(disk.clock) && old(disk.writes) <= disk.writes
    ensures r.Refused? <==> artifacts == [] || !DistinctTargets(artifacts)
    ensures r.Refused? ==> disk.files == old(disk.files) && disk.writes == old(disk.writes)
    ensures !r.Refused? && !r.Published? ==> RollsBack(back, artifacts, old(disk.files), old(disk.clock), disk.clock)
    ensures !r.Refused? && !r.Published? && disk.Smooth(back.at, disk.clock) ==> disk.files == old(disk.files)
    ensures !r.Refused? && !r.Published? ==> PutBackFrom(disk.files, old(disk.files), disk.answers, back, 0)
    ensures r.RolledBack? ==> Unrestored(disk.answers, back, 0) == {}
    ensures r.RolledBack? ==> (disk.files == old(disk.files) <==> Spoiled(disk.answers, back, 0) == {})
    ensures r.RestoreFailed? ==> r.failures != {} && r.failures == Unrestored(disk.answers, back, 0)
    ensures !r.Published? && !r.Refused? && disk.Smooth(old(disk.clock), disk.clock) ==>
              r.RolledBack? && exists a | a in artifacts :: !MarkersPresent(a)
    ensures r.Published? ==> forall a | a in artifacts :: MarkersPresent(a)
    ensures r.Published? ==>
              AllHandled(disk.files, Since(disk.writes, |old(disk.writes)|), old(disk.files), artifacts, r.actions)
    ensures r.Published? ==> Since(disk.writes, |old(disk.writes)|) <= Targets(artifacts)
    ensures r.Published? ==> forall p | p !in Targets(artifacts) :: SameAt(disk.files, old(disk.files), p)
  {
    back := Rollback(disk.clock, []);
    if artifacts == [] || !DistinctTargets(artifacts) {
      return Refused, back;
    }
    // Target directories and staging directories.
    for k := 0 to |artifacts|
      invariant disk.clock >= old(disk.clock)
      invariant disk.files == old(disk.files) && disk.writes == old(disk.writes)
    {
      var made := disk.Answered();
      if !made.Works? { return RolledBack, Rollback(disk.clock, []); }
    }
    var staged := Stage(disk, artifacts);
    if !staged { return RolledBack, Rollback(disk.clock, []); }
    assert forall k | 0 <= k < |artifacts| :: MarkersPresent(artifacts[k]) by {
      forall k | 0 <= k < |artifacts| ensures MarkersPresent(artifacts[k]) {
        assert Verified(disk.staged, artifacts, k);
      }
    }
    var failed, replaced, actions := RenameAll(disk, artifacts);
    if !failed {
      return Published(actions), back;
    }
    back := Rollback(disk.clock, replaced);
    var failures := Restore(disk, replaced, old(disk.files));
    AllPutBack(disk.files, old(disk.files), disk.answers, back);
    if failures != {} {
      return RestoreFailed(failures), back;
    }
    return RolledBack, back;
  }

  /** Everything is back exactly when nothing was spoiled, once nothing failed. */
  lemma AllPutBack(files: Files, before: Files, answers: nat -> Answer, back: Rollback)
    requires PutBackFrom(files, before, answers, back, 0)
    ensures Unrestored(answers, back, 0) == {} ==> (files == before <==> Spoiled(answers, back, 0) == {})
    ensures (forall n | back.at <= n < back.at + |back.journal| :: answers(n).Works?) ==> files == before
  {
    if Unrestored(answers, back, 0) == {} && Spoiled(answers, back, 0) == {} {
      assert back.journal[..0] == [];
      SameEverywhere(files, before);
    }
  }

  /** The targets touched since the log of writes had length `n`. */
  function Since(writes: seq<Path>, n: nat): set<Path>
    requires n <= |writes|
  {
    set p | p in writes[n..]
  }

  lemma SinceSnoc(writes: seq<Path>, n: nat, p: Path)
    requires n <= |writes|
    ensures Since(writes + [p], n) == Since(writes, n) + {p}
  {
    assert (writes + [p])[n..] == writes[n..] + [p];
  }

  function Targets(artifacts: seq<Artifact>): set<Path> {
    set a | a in artifacts :: a.target
  }

  lemma SameEverywhere(f: Files, g: Files)
    requires forall p :: SameAt(f, g, p)
    ensures f == g
  {
    assert forall p :: p in f <==> p in g by {
      forall p ensures p in f <==> p in g { assert SameAt(f, g, p); }
    }
    forall p | p in f ensures f[p] == g[p] { assert SameAt(f, g, p); }
  }

  /** What is known of an artifact once it has been handled. */
  predicate Handled(files: Files, touched: set<Path>, before: Files, a: Artifact, action: Action) {
    && a.target in files && files[a.target] == a.content
    && (action.LeftUnchanged? <==> a.target in before && before[a.target] == a.content)
    && (action.LeftUnchanged? ==> a.target !in touched)
  }

  /** Rename one verified staged file over its target and read it back. A target
      that already holds the bytes is left alone; any other target is journalled
      before the rename is tried. `None` is a failure. */
  method RenameOne(disk: Disk, k: nat, a: Artifact) returns (action: Option<Action>, journal: seq<Undo>)
    requires k in disk.staged && disk.staged[k] == a.content
    modifies disk
    ensures journal == [] ==>
              disk.files == old(disk.files) && disk.writes == old(disk.writes) && disk.staged == old(disk.staged)
    ensures journal != [] ==>
              && |journal| == 1 && journal[0].target == a.target && UndoesTo(journal[0], old(disk.files))
              && disk.files - {a.target} == old(disk.files) - {a.target}
              && disk.staged - {k} == old(disk.staged) - {k}
              && disk.writes == old(disk.writes) + [a.target]
    ensures disk.clock >= old(disk.clock)
    ensures action.None? ==> !disk.Smooth(old(disk.clock), disk.clock)
    ensures action.Some? ==> a.target in disk.files && disk.files[a.target] == a.content
    ensures action.Some? ==> (journal == [] <==> action.value.LeftUnchanged?)
    ensures action.Some? ==>
              (journal == [] <==> a.target in old(disk.files) && old(disk.files)[a.target] == a.content)
  {
    journal := [];
    var previous := None;
    if a.target in disk.files {
      previous := disk.ReadTarget(a.target);
      if previous.None? { return None, journal; }
    }
    if previous == Some(a.content) {
      return Some(LeftUnchanged), journal;
    }
    journal := [Undo(a.target, previous)];
    var renamed := disk.Replace(k, a.target);
    if !renamed { return None, journal; }
    var now := disk.ReadTarget(a.target);
    if now != Some(a.content) { return None, journal; }
    return Some(Renamed), journal;
  }

  method RenameAll(disk: Disk, artifacts: seq<Artifact>)
    returns (failed: bool, replaced: seq<Undo>, actions: seq<Action>)
    requires DistinctTargets(artifacts)
    requires forall k | 0 <= k < |artifacts| :: Verified(disk.staged, artifacts, k)
    modifies disk
    ensures disk.clock >= old(disk.clock) && old(disk.writes) <= disk.writes
    ensures failed ==> !disk.Smooth(old(disk.clock), disk.clock)
    ensures Covered(disk.files, old(disk.files), replaced) && DistinctUndos(replaced)
    ensures Paths(replaced) <= Targets(artifacts)
    ensures Since(disk.writes, |old(disk.writes)|) <= Targets(artifacts)
    ensures !failed ==>
              AllHandled(disk.files, Since(disk.writes, |old(disk.writes)|), old(disk.files), artifacts, actions)
  {
    ghost var before, n, touched := disk.files, |disk.writes|, {};
    replaced, actions := [], [];
    for k := 0 to |artifacts|
      invariant |actions| == k && disk.clock >= old(disk.clock)
      invariant old(disk.writes) <= disk.writes && touched == Since(disk.writes, n)
      invariant Covered(disk.files, before, replaced) && DistinctUndos(replaced)
      invariant Paths(replaced) + touched <= Targets(artifacts[..k])
      invariant forall j | k <= j < |artifacts| :: Verified(disk.staged, artifacts, j)
      invariant AllHandled(disk.files, touched, before, artifacts[..k], actions)
    {
      var a := artifacts[k];
      TargetsSnoc(artifacts, k);
      assert Verified(disk.staged, artifacts, k);
      assert SameAt(disk.files, before, a.target);
      ghost var was, stagedWas, writesWas, touchedWas := disk.files, disk.staged, disk.writes, touched;
      var action, journal := RenameOne(disk, k, a);
      if journal == [] {
        assert replaced + journal == replaced;
      } else {
        JournalStep(was, disk.files, before, replaced, journal[0]);
        PathsSnoc(replaced, journal[0]);
        SinceSnoc(writesWas, n, a.target);
        touched := touched + {a.target};
        assert journal == [journal[0]];
      }
      replaced := replaced + journal;
      if action.None? {
        TargetsPrefix(artifacts, k + 1);
        return true, replaced, actions;
      }
      StagedKept(stagedWas, disk.staged, artifacts, k);
      HandledKept(was, disk.files, touchedWas, touched, before, artifacts[..k], actions, a.target);
      actions := actions + [action.value];
      assert artifacts[..k + 1] == artifacts[..k] + [a];
    }
    assert artifacts[..|artifacts|] == artifacts;
    return false, replaced, actions;
  }

  lemma StagedKept(was: map<nat, Bytes>, now: map<nat, Bytes>, artifacts: seq<Artifact>, k: nat)
    requires was - {k} == now - {k} && forall j | k <= j < |artifacts| :: Verified(was, artifacts, j)
    ensures forall j | k < j < |artifacts| :: Verified(now, artifacts, j)
  {
    forall j | k < j < |artifacts| ensures Verified(now, artifacts, j) {
      assert Verified(was, artifacts, j);
      assert j in was - {k};
    }
  }

  lemma JournalStep(was: Files, now: Files, before: Files, replaced: seq<Undo>, u: Undo)
    requires Covered(was, before, replaced) && DistinctUndos(replaced) && u.target !in Paths(replaced)
    requires was - {u.target} == now - {u.target} && UndoesTo(u, was)
    ensures Covered(now, before, replaced + [u]) && DistinctUndos(replaced + [u])
  {
    FrameStep(was, now, before, u.target);
    PathsSnoc(replaced, u);
    UndosSnoc(replaced, u);
    assert SameAt(was, before, u.target);
  }

  lemma UndosSnoc(replaced: seq<Undo>, u: Undo)
    requires DistinctUndos(replaced) && u.target !in Paths(replaced)
    ensures DistinctUndos(replaced + [u])
  {
    assert forall i | 0 <= i < |replaced| :: replaced[i] in replaced;
  }

  predicate AllHandled(files: Files, touched: set<Path>, before: Files, artifacts: seq<Artifact>,
                       actions: seq<Action>)
  {
    |actions| == |artifacts| &&
    forall j | 0 <= j < |artifacts| :: Handled(files, touched, before, artifacts[j], actions[j])
  }

  lemma HandledKept(was: Files, now: Files, touched: set<Path>, more: set<Path>, before: Files,
                    artifacts: seq<Artifact>, actions: seq<Action>, t: Path)
    requires was - {t} == now - {t} && more <= touched + {t} && t !in Targets(artifacts)
    requires AllHandled(was, touched, before, artifacts, actions)
    ensures AllHandled(now, more, before, artifacts, actions)
  {
    forall j | 0 <= j < |artifacts| ensures Handled(now, more, before, artifacts[j], actions[j]) {
      var p := artifacts[j].target;
      assert Handled(was, touched, before, artifacts[j], actions[j]);
      assert p in Targets(artifacts);
      assert p in was - {t} && (was - {t})[p] == (now - {t})[p];
    }
  }

  lemma TargetsSnoc(artifacts: seq<Artifact>, k: nat)
    requires DistinctTargets(artifacts) && k < |artifacts|
    ensures artifacts[k].target !in Targets(artifacts[..k])
    ensures Targets(artifacts[..k + 1]) == Targets(artifacts[..k]) + {artifacts[k].target}
  {
    assert artifacts[..k + 1] == artifacts[..k] + [artifacts[k]];
  }

  lemma TargetsPrefix(artifacts: seq<Artifact>, k: nat)
    requires k <= |artifacts|
    ensures Targets(artifacts[..k]) <= Targets(artifacts)
  {
    forall a | a in artifacts[..k] ensures a in artifacts {}
  }
}
