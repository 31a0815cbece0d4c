/** The readiness generator's four outputs: the report, the page and the block in
    two READMEs, rendered from one document and published as one set. */
module ReadinessOutputs {
  import opened Text
  import opened ReadmeBlock
  import opened ArtifactSet

  // ---------------------------------------------------------------- document

  type Value = string

  datatype Field = Field(key: string, value: Value)

  /** A JSON object with its members in writing order. */
  type Document = seq<Field>

  predicate Volatile(key: string) { key == "generated_at" || key == "source_commit" }

  predicate DistinctKeys(d: Document) {
    forall i, j | 0 <= i < j < |d| :: d[i].key != d[j].key
  }

  /** What a document states, as opposed to when it was built. */
  function Stated(d: Document): set<Field> {
    set f | f in d && !Volatile(f.key)
  }

  function Lookup(d: Document, key: string, default: Value): Value {
    if d == [] then default else if d[0].key == key then d[0].value else Lookup(d[1..], key, default)
  }

  lemma {:induction false} LookupAt(d: Document, i: nat, default: Value)
    requires DistinctKeys(d) && i < |d|
    ensures Lookup(d, d[i].key, default) == d[i].value
  {
    if i > 0 { LookupAt(d[1..], i - 1, default); }
  }

  /** Keep the committed stamps when nothing the document states would change. */
  function Stabilize(built: Document, committed: Option<Document>): Document {
    if committed.None? || Stated(built) != Stated(committed.value) then built
    else seq(|built|, i requires 0 <= i < |built| => Restamp(built[i], committed.value))
  }

  function Restamp(f: Field, committed: Document): Field {
    if Volatile(f.key) then Field(f.key, Lookup(committed, f.key, f.value)) else f
  }

  /** Two builds of the same checkout: the same members in the same order, equal
      in everything but the volatile ones. */
  predicate SameBuild(a: Document, b: Document) {
    |a| == |b| && forall i | 0 <= i < |a| :: a[i].key == b[i].key && (!Volatile(a[i].key) ==> a[i] == b[i])
  }

  lemma StabilizeIsSameBuild(built: Document, committed: Option<Document>)
    ensures SameBuild(built, Stabilize(built, committed))
  {
  }

  lemma SameBuildStates(a: Document, b: Document)
    requires SameBuild(a, b)
    ensures Stated(a) == Stated(b)
  {
    forall f ensures f in Stated(a) <==> f in Stated(b) {
      if f in Stated(a) { var i :| 0 <= i < |a| && a[i] == f; assert b[i] == f; }
      if f in Stated(b) { var i :| 0 <= i < |b| && b[i] == f; assert a[i] == f; }
    }
  }

  /** A build reproduces the committed document to the letter exactly when it
      differs from it only in volatile members: then nothing is republished, and
      whatever states something new is. */
  lemma ReproducesIff(committed: Document, built: Document)
    requires DistinctKeys(committed)
    ensures Stabilize(built, Some(committed)) == committed <==> SameBuild(committed, built)
  {
    if SameBuild(committed, built) {
      SameBuildStates(committed, built);
      forall i | 0 <= i < |built| ensures Stabilize(built, Some(committed))[i] == committed[i] {
        LookupAt(committed, i, built[i].value);
      }
    } else {
      StabilizeIsSameBuild(built, Some(committed));
    }
  }

  // ----------------------------------------------------------------- outputs

  const BEGIN := "<!-- BEGIN GENERATED: " + "scenario-readiness" + " -->"
  const END := "<!-- END GENERATED: " + "scenario-readiness" + " -->"

  /** The renderers and the targets. What is written can be read
      back, for documents that name no member twice. */
  datatype Config = Config(
    encode: Document -> string, decode: string -> Option<Document>,
    page: Document -> string, block: Document -> string, blockZh: Document -> string,
    reportPath: Path, pagePath: Path, readmePath: Path, readmeZhPath: Path)

  ghost predicate ConfigOk(c: Config) {
    && (forall d | DistinctKeys(d) :: c.decode(c.encode(d)) == Some(d))
    && (forall d :: IsBlock(Strip(c.block(d)), BEGIN, END) && IsBlock(Strip(c.blockZh(d)), BEGIN, END))
  }

  function Committed(c: Config, files: Files): Option<Document> {
    if c.reportPath in files then c.decode(files[c.reportPath]) else None
  }

  /** Everything one run stages for a document. The Chinese README is optional. */
  function Outputs(c: Config, files: Files, d: Document): seq<Artifact>
    requires c.readmePath in files
  {
    var base := [
      Artifact(c.reportPath, c.encode(d), []),
      Artifact(c.pagePath, c.page(d), []),
      Artifact(c.readmePath, Apply(files[c.readmePath], c.block(d), BEGIN, END), [BEGIN, END])];
    if c.readmeZhPath in files
    then base + [Artifact(c.readmeZhPath, Apply(files[c.readmeZhPath], c.blockZh(d), BEGIN, END), [BEGIN, END])]
    else base
  }

  /** What a run renders when every file can be read; the English README must exist. */
  function Rendered(c: Config, files: Files, built: Document): Option<seq<Artifact>> {
    if c.readmePath !in files then None
    else Some(Outputs(c, files, Stabilize(built, Committed(c, files))))
  }

  /** What a run read before it renders. A README that cannot be read, or a lock
      that cannot be taken, stops it; a report that cannot be read counts as absent. */
  datatype Opening = Stopped | Ready(committed: Option<Document>)

  function Ticks(files: Files, p: Path): nat { if p in files then 1 else 0 }

  function Opened(c: Config, files: Files, answers: nat -> Answer, t: nat): Opening {
    var readme := t + Ticks(files, c.reportPath);
    var zh := readme + 1;
    var lock := zh + Ticks(files, c.readmeZhPath);
    if c.readmePath !in files || !answers(readme).Works? then Stopped
    else if c.readmeZhPath in files && !answers(zh).Works? then Stopped
    else if !answers(lock).Works? then Stopped
    else Ready(if answers(t).Works? then Committed(c, files) else None)
  }

  /** What a run that starts at `t` stages, or None when it is stopped first. */
  function Staged(c: Config, files: Files, answers: nat -> Answer, t: nat, built: Document): Option<seq<Artifact>> {
    var o := Opened(c, files, answers, t);
    if o.Stopped? then None else Some(Outputs(c, files, Stabilize(built, o.committed)))
  }

  /** On a disk that works the run renders from what is there. */
  lemma StagedWhenWorking(c: Config, files: Files, answers: nat -> Answer, t: nat, built: Document)
    requires forall n | t <= n :: answers(n).Works?
    ensures Staged(c, files, answers, t, built) == Rendered(c, files, built)
  {
  }

  /** Every marker of a staged set is in place, whatever could be read. */
  lemma OutputsMarked(c: Config, files: Files, d: Document)
    requires ConfigOk(c) && c.readmePath in files
    ensures forall a | a in Outputs(c, files, d) :: MarkersPresent(a)
  {
    MarkersAreMarkers();
    SplicedIsMarked(c.readmePath, files[c.readmePath], c.block(d), BEGIN, END);
    if c.readmeZhPath in files {
      SplicedIsMarked(c.readmeZhPath, files[c.readmeZhPath], c.blockZh(d), BEGIN, END);
    }
  }

  predicate InPlace(files: Files, artifacts: seq<Artifact>) {
    forall k | 0 <= k < |artifacts| ::
      artifacts[k].target in files && files[artifacts[k].target] == artifacts[k].content
  }

  predicate Spliceable(c: Config, files: Files) {
    && (c.readmePath in files ==> !Orphaned(files[c.readmePath], BEGIN, END))
    && (c.readmeZhPath in files ==> !Orphaned(files[c.readmeZhPath], BEGIN, END))
  }

  lemma MarkersAreMarkers()
    ensures Marker(BEGIN) && Marker(END)
  {
    MarkerJoins("<!-- BEGIN GENERATED: ", "scenario-readiness", " -->");
    MarkerJoins("<!-- END GENERATED: ", "scenario-readiness", " -->");
  }

  lemma MarkerJoins(a: string, b: string, c: string)
    requires Marker(a) && Marker(b) && Marker(c)
    ensures Marker(a + b + c)
  {
  }

  /** With the first run's outputs in place, a second run of the same build over
      an undisturbed checkout renders every target to what it already holds, unless
      a README could not be spliced twice. */
  lemma SecondRunIsCurrent(c: Config, before: Files, built: Document, files: Files, again: Document)
    requires ConfigOk(c) && DistinctKeys(built) && SameBuild(built, again)
    requires Rendered(c, before, built).Some? && InPlace(files, Rendered(c, before, built).value)
    requires c.readmeZhPath in files <==> c.readmeZhPath in before
    ensures Rendered(c, files, again).Some?
    ensures InPlace(files, Rendered(c, files, again).value) <==> Spliceable(c, before)
  {
    var d := Stabilize(built, Committed(c, before));
    SameDocument(c, before, built, files, again);
    OutputsAgain(c, before, files, d);
  }

  /** The second run reads the first run's document back and keeps it. */
  lemma SameDocument(c: Config, before: Files, built: Document, files: Files, again: Document)
    requires ConfigOk(c) && DistinctKeys(built) && SameBuild(built, again) && c.readmePath in before
    requires InPlace(files, Outputs(c, before, Stabilize(built, Committed(c, before))))
    ensures Stabilize(again, Committed(c, files)) == Stabilize(built, Committed(c, before)) && c.readmePath in files
  {
    var d := Stabilize(built, Committed(c, before));
    var first := Outputs(c, before, d);
    StabilizeIsSameBuild(built, Committed(c, before));
    assert first[0].target in files && first[2].target in files;
    assert Committed(c, files) == Some(d);
    ReproducesIff(d, again);
  }

  lemma OutputsAgain(c: Config, before: Files, files: Files, d: Document)
    requires ConfigOk(c) && c.readmePath in before && c.readmePath in files
    requires InPlace(files, Outputs(c, before, d)) && (c.readmeZhPath in files <==> c.readmeZhPath in before)
    ensures InPlace(files, Outputs(c, files, d)) <==> Spliceable(c, before)
  {
    var first, second := Outputs(c, before, d), Outputs(c, files, d);
    MarkersAreMarkers();
    assert first[2].target in files;
    IdempotentIff(before[c.readmePath], c.block(d), BEGIN, END);
    assert second[2].content == Apply(first[2].content, c.block(d), BEGIN, END);
    if c.readmeZhPath in before {
      assert first[3].target in files;
      IdempotentIff(before[c.readmeZhPath], c.blockZh(d), BEGIN, END);
      assert second[3].content == Apply(first[3].content, c.blockZh(d), BEGIN, END);
    }
    SameTargets(files, first, second);
  }

  /** Over outputs in place, others for the same targets are in place exactly when
      they are the same. */
  lemma SameTargets(files: Files, first: seq<Artifact>, second: seq<Artifact>)
    requires InPlace(files, first) && |first| == |second|
    requires forall k | 0 <= k < |first| :: first[k].target == second[k].target
    ensures InPlace(files, second) <==> forall k | 0 <= k < |first| :: first[k].content == second[k].content
  {
    forall k | 0 <= k < |first| ensures second[k].target in files && files[second[k].target] == first[k].content {
      assert first[k].target == second[k].target;
    }
  }

  /** The four targets are four files. */
  predicate DistinctPaths(c: Config) {
    && c.reportPath != c.pagePath && c.reportPath != c.readmePath && c.reportPath != c.readmeZhPath
    && c.pagePath != c.readmePath && c.pagePath != c.readmeZhPath && c.readmePath != c.readmeZhPath
  }

  lemma RenderedDistinct(c: Config, files: Files, built: Document)
    requires DistinctPaths(c) && Rendered(c, files, built).Some?
    ensures DistinctTargets(Rendered(c, files, built).value)
  {
  }

  lemma SplicedIsMarked(target: Path, text: string, block: string, begin: string, end: string)
    requires Marker(begin) && Marker(end) && IsBlock(Strip(block), begin, end)
    ensures MarkersPresent(Artifact(target, Apply(text, block, begin, end), [begin, end]))
  {
    SplicedHasMarkers(text, block, begin, end);
  }

  /** Every marker of a rendered set is in place. */
  lemma RenderedMarked(c: Config, files: Files, built: Document)
    requires ConfigOk(c) && Rendered(c, files, built).Some?
    ensures forall a | a in Rendered(c, files, built).value :: MarkersPresent(a)
  {
    OutputsMarked(c, files, Stabilize(built, Committed(c, files)));
  }

  /** Read the committed report and the READMEs, and take the generation lock. */
  method Open(disk: Disk, c: Config) returns (o: Opening)
    modifies disk`clock
    ensures disk.clock >= old(disk.clock) && o == Opened(c, disk.files, disk.answers, old(disk.clock))
  {
    var committed := None;
    if c.reportPath in disk.files {
      var text := disk.ReadTarget(c.reportPath);
      if text.Some? { committed := c.decode(text.value); }
    }
    if c.readmePath !in disk.files { return Stopped; }
    var readme := disk.ReadTarget(c.readmePath);
    if readme.None? { return Stopped; }
    if c.readmeZhPath in disk.files {
      var zh := disk.ReadTarget(c.readmeZhPath);
      if zh.None? { return Stopped; }
    }
    var locked := disk.Answered();
    if !locked.Works? { return Stopped; }
    return Ready(committed);
  }

  /** Render from the files as read and publish as one set: every guarantee of the
      publication, over the staged set. A run that is stopped before writes nothing. */
  method WriteOutputs(disk: Disk, c: Config, built: Document) returns (r: Outcome, ghost back: Rollback)
    modifies disk
    ensures disk.clock >= old(disk.clock) && old(disk.writes) <= disk.writes
    ensures var staged := Staged(c, old(disk.files), disk.answers, old(disk.clock), built);
            r.Refused? <==> staged.None? || !DistinctTargets(staged.value)
    ensures r.Refused? ==> disk.files == old(disk.files) && disk.writes == old(disk.writes)
    ensures !r.Refused? ==>
              var artifacts := Staged(c, old(disk.files), disk.answers, old(disk.clock), built).value;
              if r.Published? then
                && AllHandled(disk.files, Since(disk.writes, |old(disk.writes)|), old(disk.files), artifacts, r.actions)
                && Since(disk.writes, |old(disk.writes)|) <= Targets(artifacts)
                && forall p | p !in Targets(artifacts) :: SameAt(disk.files, old(disk.files), p)
              else
                && RollsBack(back, artifacts, old(disk.files), old(disk.clock), disk.clock)
                && PutBackFrom(disk.files, old(disk.files), disk.answers, back, 0)
                && (disk.Smooth(back.at, disk.clock) ==> disk.files == old(disk.files))
                && (disk.Smooth(old(disk.clock), disk.clock) ==>
                      r.RolledBack? && exists a | a in artifacts :: !MarkersPresent(a))
    ensures r.RolledBack? ==> Unrestored(disk.answers, back, 0) == {}
    ensures r.RolledBack? ==> (disk.files == old(disk.files) <==> Spoiled(disk.answers, back, 0) == {})
    ensures r.RestoreFailed? ==> r.failures != {} && r.failures == Unrestored(disk.answers, back, 0)
  {
    var o := Open(disk, c);
    if o.Stopped? {
      return Refused, Rollback(disk.clock, []);
    }
    r, back := Publish(disk, Outputs(c, disk.files, Stabilize(built, o.committed)));
  }

  lemma HandledInPlace(files: Files, touched: set<Path>, before: Files, artifacts: seq<Artifact>,
                       actions: seq<ArtifactSet.Action>)
    requires AllHandled(files, touched, before, artifacts, actions)
    ensures InPlace(files, artifacts)
    ensures InPlace(before, artifacts) <==> forall a | a in actions :: a.LeftUnchanged?
    ensures InPlace(before, artifacts) ==> touched !! Targets(artifacts)
  {
    forall k | 0 <= k < |artifacts| ensures Handled(files, touched, before, artifacts[k], actions[k]) {}
    assert forall k | 0 <= k < |actions| :: actions[k] in actions;
    if InPlace(before, artifacts) {
      forall a | a in artifacts ensures a.target !in touched {
        var k :| 0 <= k < |artifacts| && artifacts[k] == a;
        assert Handled(files, touched, before, artifacts[k], actions[k]);
      }
    }
  }

  lemma BothInPlace(files: Files, before: Files, artifacts: seq<Artifact>)
    requires InPlace(files, artifacts) && InPlace(before, artifacts)
    requires forall p | p !in Targets(artifacts) :: SameAt(files, before, p)
    ensures files == before
  {
    forall p ensures SameAt(files, before, p) {
      if p in Targets(artifacts) {
        var k :| 0 <= k < |artifacts| && artifacts[k].target == p;
      }
    }
    SameEverywhere(files, before);
  }

  /** The build's outputs are in place, and the files are otherwise as before. */
  ghost predicate Landed(c: Config, before: Files, built: Document, files: Files) {
    && Rendered(c, before, built).Some? && InPlace(files, Rendered(c, before, built).value)
    && forall p | p !in Targets(Rendered(c, before, built).value) :: SameAt(files, before, p)
  }

  predicate Current(c: Config, files: Files, built: Document) {
    Rendered(c, files, built).Some? && InPlace(files, Rendered(c, files, built).value)
  }

  /** A run over readable, distinct targets on a disk that works lands its outputs;
      where they already are it writes nothing and reports every target unchanged. */
  method WriteOnce(disk: Disk, c: Config, built: Document) returns (r: Outcome)
    requires ConfigOk(c) && DistinctPaths(c) && c.readmePath in disk.files
    requires disk.Works(disk.clock)
    modifies disk
    ensures disk.clock >= old(disk.clock)
    ensures r.Published? && Landed(c, old(disk.files), built, disk.files)
    ensures Current(c, old(disk.files), built) <==> forall a | a in r.actions :: a.LeftUnchanged?
    ensures Current(c, old(disk.files), built) ==> disk.files == old(disk.files) && disk.writes == old(disk.writes)
  {
    ghost var artifacts, before, n := Rendered(c, disk.files, built).value, disk.files, |disk.writes|;
    StagedWhenWorking(c, disk.files, disk.answers, disk.clock, built);
    RenderedDistinct(c, disk.files, built);
    RenderedMarked(c, disk.files, built);
    ghost var back;
    r, back := WriteOutputs(disk, c, built);
    HandledInPlace(disk.files, Since(disk.writes, n), before, artifacts, r.actions);
    if InPlace(before, artifacts) {
      BothInPlace(disk.files, before, artifacts);
      NothingSince(disk.writes, n);
    }
  }

  lemma NothingSince(writes: seq<Path>, n: nat)
    requires n <= |writes|
    ensures Since(writes, n) == {} <==> n == |writes|
  {
    if n < |writes| { assert writes[n..][0] in Since(writes, n); }
  }

  /** After a run has landed, a rebuild of the same checkout finds it current,
      unless a README could not be spliced twice. */
  lemma RebuildIsCurrent(c: Config, before: Files, built: Document, files: Files, again: Document)
    requires ConfigOk(c) && DistinctPaths(c) && DistinctKeys(built) && SameBuild(built, again)
    requires Landed(c, before, built, files)
    ensures c.readmePath in files && (Current(c, files, again) <==> Spliceable(c, before))
  {
    var artifacts := Rendered(c, before, built).value;
    assert artifacts[2].target in files;
    if c.readmeZhPath in before {
      assert artifacts[3].target in files;
    } else {
      assert c.readmeZhPath !in Targets(artifacts);
      assert SameAt(files, before, c.readmeZhPath);
    }
    SecondRunIsCurrent(c, before, built, files, again);
  }

  /** Two uncontended runs whose builds differ only in volatile members: the second
      reports every target unchanged, and then writes nothing, exactly when the
      READMEs could be spliced twice to begin with. */
  method WriteTwice(disk: Disk, c: Config, built: Document, again: Document)
    returns (first: Outcome, second: Outcome, ghost files: Files, ghost writes: seq<Path>)
    requires ConfigOk(c) && DistinctPaths(c) && c.readmePath in disk.files
    requires DistinctKeys(built) && SameBuild(built, again)
    requires disk.Works(disk.clock)
    modifies disk
    ensures first.Published? && Landed(c, old(disk.files), built, files)
    ensures second.Published?
    ensures (forall a | a in second.actions :: a.LeftUnchanged?) <==> Spliceable(c, old(disk.files))
    ensures Spliceable(c, old(disk.files)) ==> disk.files == files && disk.writes == writes
  {
    first := WriteOnce(disk, c, built);
    files, writes := disk.files, disk.writes;
    RebuildIsCurrent(c, old(disk.files), built, files, again);
    second := WriteOnce(disk, c, again);
  }
}
