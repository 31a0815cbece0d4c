/** The release manifest's own reader of the dependency lock, and which rendered
    locks it accepts. */
module ReleaseLock {
  import opened Text
  import opened LockText
  import opened DependencyLock

  datatype Entry = Skip | Package(pin: PinLine) | Unpinned

  function ReadEntry(raw: string): Entry {
    var line := Trim(raw);
    if line == "" || line[0] == '#' then Skip
    else
      var hashed, bare := ParsePin(line), SplitPin(line);
      if hashed.Some? then Package(hashed.value.(hashes := SortedUnique(hashed.value.hashes)))
      else if bare.Some? && bare.value.2 == "" then Package(PinLine(bare.value.0, bare.value.1, []))
      else Unpinned
  }

  datatype Revision = Revision(packages: seq<PinLine>, seen: set<string>)

  function Take(r: Option<Revision>, e: Entry): Option<Revision> {
    if r.None? || e.Skip? then r
    else if e.Unpinned? || LowerName(e.pin.name) in r.value.seen then None
    else Some(Revision(r.value.packages + [e.pin], r.value.seen + {LowerName(e.pin.name)}))
  }

  function TakeAll(r: Option<Revision>, lines: seq<string>): Option<Revision>
    decreases lines
  {
    if lines == [] then r else TakeAll(Take(r, ReadEntry(lines[0])), lines[1..])
  }

  const START := Some(Revision([], {}))

  /** The packages of a lock; None when a line is not pinned, a name is pinned
      twice, or nothing is pinned. */
  function Revised(text: string): Option<seq<PinLine>> {
    var r := TakeAll(START, Lines(text));
    if r.None? || r.value.packages == [] then None else Some(r.value.packages)
  }

  lemma {:induction false} RefusedStays(lines: seq<string>)
    ensures TakeAll(None, lines) == None
  {
    if lines == [] {
    } else {
      RefusedStays(lines[1..]);
    }
  }

  lemma {:induction false} TakeAppend(r: Option<Revision>, a: seq<string>, b: seq<string>)
    ensures TakeAll(r, a + b) == TakeAll(TakeAll(r, a), b)
    decreases a
  {
    if a == [] {
      assert a + b == b;
    } else {
      assert (a + b)[1..] == a[1..] + b;
      TakeAppend(Take(r, ReadEntry(a[0])), a[1..], b);
    }
  }

  lemma TakeSnoc(lines: seq<string>, i: nat)
    requires i < |lines|
    ensures TakeAll(START, lines[..i + 1]) == Take(TakeAll(START, lines[..i]), ReadEntry(lines[i]))
  {
    assert lines[..i + 1] == lines[..i] + [lines[i]];
    TakeAppend(START, lines[..i], [lines[i]]);
    assert [lines[i]][1..] == [];
  }

  method LockRevision(text: string) returns (packages: Option<seq<PinLine>>)
    ensures packages == Revised(text)
  {
    var lines := Lines(text);
    var r := Revision([], {});
    for i := 0 to |lines|
      invariant TakeAll(START, lines[..i]) == Some(r)
    {
      TakeSnoc(lines, i);
      var next := Take(Some(r), ReadEntry(lines[i]));
      if next.None? {
        assert lines == lines[..i + 1] + lines[i + 1..];
        TakeAppend(START, lines[..i + 1], lines[i + 1..]);
        RefusedStays(lines[i + 1..]);
        return None;
      }
      r := next.value;
    }
    assert lines[..|lines|] == lines;
    if r.packages == [] { return None; }
    return Some(r.packages);
  }

  // ------------------------------------------------------ on rendered locks

  lemma {:induction false} Skipped(r: Option<Revision>, lines: seq<string>)
    requires forall x | x in lines :: ReadEntry(x) == Skip
    ensures TakeAll(r, lines) == r
  {
    if lines == [] {
    } else {
      assert lines[0] in lines;
      Skipped(r, lines[1..]);
    }
  }

  lemma {:induction false} MetasSkipped(ms: seq<Meta>)
    requires forall m | m in ms :: MetaOk(m)
    ensures forall x | x in MetaLines(ms) :: ReadEntry(x) == Skip
  {
    if ms == [] {
    } else {
      MetaIsTrimmed(ms[0]);
      assert ReadEntry(RenderMeta(ms[0])) == Skip;
      MetasSkipped(ms[1..]);
    }
  }

  lemma TopSkipped(h: Preamble, notes: seq<Note>, count: nat)
    requires PreambleOk(h) && forall n | n in notes :: NoteOk(n)
    ensures forall x | x in TopLines(h, notes, count) :: ReadEntry(x) == Skip
  {
    NotesAreSilent(notes);
    forall x | x in NoteLines(notes) ensures ReadEntry(x) == Skip { SilentIsSkipped(x); }
    MetasOk(h, count);
    MetasSkipped(Metas(h, count));
    assert ReadEntry("") == Skip;
  }

  lemma SilentIsSkipped(x: string)
    requires Silent(x)
    ensures ReadEntry(x) == Skip
  {
  }

  lemma PinEntry(name: string, version: string, digest: string)
    requires NameOk(name) && VersionOk(version) && DigestOk(digest)
    ensures ReadEntry(RenderPin(name, version, digest)) == Package(PinLine(name, version, [digest]))
  {
    PinIsTrimmed(name, version, digest);
    PinReadsBack(name, version, digest);
    SortedIsCanonical(SortedUnique([digest]), [digest]);
  }

  function With(r: Revision, name: string, version: string, digest: string): Revision {
    Revision(r.packages + [PinLine(name, version, [digest])], r.seen + {name})
  }

  lemma TakeFirst(r: Revision, name: string, version: string, digest: string)
    requires NameOk(name) && Canonical(name) && VersionOk(version) && DigestOk(digest)
    ensures Take(Some(r), ReadEntry(RenderPin(name, version, digest))) ==
            if name in r.seen then None else Some(With(r, name, version, digest))
  {
    PinEntry(name, version, digest);
    CanonicalFixed(name);
  }

  lemma TakeCons(r: Option<Revision>, line: string, lines: seq<string>)
    ensures TakeAll(r, [line] + lines) == TakeAll(Take(r, ReadEntry(line)), lines)
  {
    assert ([line] + lines)[1..] == lines;
  }

  /** A second hash line of the same name is a second pin to this reader. */
  lemma OneName(r: Revision, name: string, p: Pin)
    requires PinOk(name, p) && name !in r.seen
    ensures TakeAll(Some(r), HashLines(name, p.version, p.hashes)) ==
            if |p.hashes| == 1 then Some(With(r, name, p.version, p.hashes[0])) else None
  {
    var h := p.hashes;
    var first := With(r, name, p.version, h[0]);
    TakeFirst(r, name, p.version, h[0]);
    TakeCons(Some(r), RenderPin(name, p.version, h[0]), HashLines(name, p.version, h[1..]));
    if |h| == 1 {
      assert HashLines(name, p.version, h[1..]) == [];
    } else {
      var t := h[1..];
      TakeFirst(first, name, p.version, t[0]);
      TakeCons(Some(first), RenderPin(name, p.version, t[0]), HashLines(name, p.version, t[1..]));
      RefusedStays(HashLines(name, p.version, t[1..]));
    }
  }

  function Packages(pins: map<string, Pin>, names: seq<string>): seq<PinLine>
    requires forall n | n in names :: n in pins
  {
    if names == [] then []
    else [PinLine(names[0], pins[names[0]].version, pins[names[0]].hashes)] + Packages(pins, names[1..])
  }

  predicate SingleHashes(pins: map<string, Pin>, names: seq<string>) {
    forall n | n in names :: n in pins && |pins[n].hashes| == 1
  }

  lemma SingleCons(pins: map<string, Pin>, names: seq<string>)
    requires names != [] && names[0] in pins
    ensures SingleHashes(pins, names) <==> |pins[names[0]].hashes| == 1 && SingleHashes(pins, names[1..])
  {
    assert names == [names[0]] + names[1..];
  }

  lemma NameThenRest(r: Revision, pins: map<string, Pin>, names: seq<string>)
    requires PinsOk(pins) && names != [] && (forall n | n in names :: n in pins) && names[0] !in r.seen
    ensures var n := names[0];
            var p := pins[n];
            TakeAll(Some(r), PinLines(pins, names)) ==
            if |p.hashes| == 1 then TakeAll(Some(With(r, n, p.version, p.hashes[0])), PinLines(pins, names[1..]))
            else None
  {
    var n, p := names[0], pins[names[0]];
    assert PinOk(n, p);
    TakeAppend(Some(r), HashLines(n, p.version, p.hashes), PinLines(pins, names[1..]));
    OneName(r, n, p);
    RefusedStays(PinLines(pins, names[1..]));
  }

  predicate Unseen(r: Revision, names: seq<string>) { forall n | n in names :: n !in r.seen }

  lemma UnseenRest(r: Revision, names: seq<string>, version: string, digest: string)
    requires StrictlySorted(names) && names != [] && Unseen(r, names)
    ensures Unseen(With(r, names[0], version, digest), names[1..])
  {
    HeadOnce(names);
  }

  lemma {:induction false} SinglesRead(r: Revision, pins: map<string, Pin>, names: seq<string>)
    requires PinsOk(pins) && StrictlySorted(names) && Unseen(r, names) && SingleHashes(pins, names)
    ensures TakeAll(Some(r), PinLines(pins, names)).Some?
    ensures TakeAll(Some(r), PinLines(pins, names)).value.packages == r.packages + Packages(pins, names)
    decreases names
  {
    if names == [] {
      assert r.packages + [] == r.packages;
    } else {
      var n, p := names[0], pins[names[0]];
      NameThenRest(r, pins, names);
      SingleCons(pins, names);
      UnseenRest(r, names, p.version, p.hashes[0]);
      SinglesRead(With(r, n, p.version, p.hashes[0]), pins, names[1..]);
      PackagesCons(r, pins, names);
    }
  }

  lemma PackagesCons(r: Revision, pins: map<string, Pin>, names: seq<string>)
    requires names != [] && SingleHashes(pins, names)
    ensures var p := pins[names[0]];
            With(r, names[0], p.version, p.hashes[0]).packages + Packages(pins, names[1..]) ==
            r.packages + Packages(pins, names)
  {
    var p := pins[names[0]];
    assert [p.hashes[0]] == p.hashes;
  }

  lemma {:induction false} DoublesRefused(r: Revision, pins: map<string, Pin>, names: seq<string>)
    requires PinsOk(pins) && StrictlySorted(names) && Unseen(r, names)
    requires (forall n | n in names :: n in pins) && !SingleHashes(pins, names)
    ensures TakeAll(Some(r), PinLines(pins, names)).None?
    decreases names
  {
    var n, p := names[0], pins[names[0]];
    NameThenRest(r, pins, names);
    SingleCons(pins, names);
    if |p.hashes| == 1 {
      UnseenRest(r, names, p.version, p.hashes[0]);
      DoublesRefused(With(r, n, p.version, p.hashes[0]), pins, names[1..]);
    }
  }

  predicate OneHashEach(pins: map<string, Pin>) { forall n | n in pins :: |pins[n].hashes| == 1 }

  lemma NamesOfPins(pins: map<string, Pin>, order: seq<string>)
    requires Keyed(pins, order)
    ensures forall n | n in SortedUnique(order) :: n in pins
    ensures SingleHashes(pins, SortedUnique(order)) <==> OneHashEach(pins)
    ensures SortedUnique(order) == [] <==> pins == map[]
  {
    SortedKeys(pins, order);
    if SortedUnique(order) != [] { assert SortedUnique(order)[0] in pins; }
    if pins != map[] {
      var n :| n in pins;
      assert n in SortedUnique(order);
    }
  }

  /** The release reader accepts a rendered lock exactly when there are pins and
      every one has one hash, and then reads every package of it. */
  lemma ReleaseAcceptsIff(h: Preamble, notes: seq<Note>, pins: map<string, Pin>, order: seq<string>)
    requires PreambleOk(h) && (forall n | n in notes :: NoteOk(n)) && PinsOk(pins) && Keyed(pins, order)
    ensures Revised(Rendered(h, notes, pins, order)).Some? <==> pins != map[] && OneHashEach(pins)
    ensures forall n | n in SortedUnique(order) :: n in pins
    ensures pins != map[] && OneHashEach(pins) ==>
              Revised(Rendered(h, notes, pins, order)) == Some(Packages(pins, SortedUnique(order)))
  {
    NamesOfPins(pins, order);
    OnlyPinsCount(h, notes, pins, order);
    PinsTaken(pins, SortedUnique(order));
  }

  /** Nothing above the pins concerns this reader. */
  lemma OnlyPinsCount(h: Preamble, notes: seq<Note>, pins: map<string, Pin>, order: seq<string>)
    requires PreambleOk(h) && (forall n | n in notes :: NoteOk(n)) && PinsOk(pins) && Keyed(pins, order)
    ensures forall n | n in SortedUnique(order) :: n in pins
    ensures TakeAll(START, Lines(Rendered(h, notes, pins, order))) ==
            TakeAll(START, PinLines(pins, SortedUnique(order)))
  {
    SortedKeys(pins, order);
    var top, body := TopLines(h, notes, |pins|), PinLines(pins, SortedUnique(order));
    RenderedLines(h, notes, pins, order);
    TakeAppend(START, top, body);
    TopSkipped(h, notes, |pins|);
    Skipped(START, top);
  }

  lemma PinsTaken(pins: map<string, Pin>, names: seq<string>)
    requires PinsOk(pins) && StrictlySorted(names) && forall n | n in names :: n in pins
    ensures var r := TakeAll(START, PinLines(pins, names));
            && (r.Some? <==> SingleHashes(pins, names))
            && (r.Some? ==> r.value.packages == Packages(pins, names))
  {
    var r := Revision([], {});
    if SingleHashes(pins, names) {
      SinglesRead(r, pins, names);
      assert [] + Packages(pins, names) == Packages(pins, names);
    } else {
      DoublesRefused(r, pins, names);
    }
  }

  const ZEROS := seq(64, i => '0')
  const ONES := seq(64, i => '1')
  const UNSORTED := map["a" := Pin("1", [ONES, ZEROS])]

  /** One name with two unsorted digests: the parser does not give the pin back as
      it was, and the release reader refuses the lock. */
  lemma UnsortedPinFails(h: Preamble, notes: seq<Note>)
    requires PreambleOk(h) && forall n | n in notes :: NoteOk(n)
    ensures PinsOk(UNSORTED) && Keyed(UNSORTED, ["a"])
    ensures Parsed(Rendered(h, notes, UNSORTED, ["a"])).pins != UNSORTED
    ensures Revised(Rendered(h, notes, UNSORTED, ["a"])) == None
  {
    assert NameOk("a") && VersionOk("1") && DigestOk(ONES) && DigestOk(ZEROS);
    var hashes := UNSORTED["a"].hashes;
    assert !Less(hashes[0], hashes[1]) by { assert ONES[0] == '1' && ZEROS[0] == '0'; }
    assert !StrictlySorted(hashes);
    SamePinsIff(h, notes, UNSORTED, ["a"]);
    ReleaseAcceptsIff(h, notes, UNSORTED, ["a"]);
  }
}
