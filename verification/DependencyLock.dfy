/** The hashed dependency lock: its renderer, its parser, and the release reader
    of the same text. */
module DependencyLock {
  import opened Text
  import opened LockText

  datatype Pin = Pin(version: string, hashes: seq<string>)

  datatype Finding =
    | MissingHash(line: string)
    | MalformedPin(line: string)
    | DuplicatePin(name: string)
    | EmptyLock
    | MissingMetadata(key: string)

  datatype Lock = Lock(pins: map<string, Pin>, metadata: map<string, string>, findings: seq<Finding>)

  const EMPTY := Lock(map[], map[], [])
  const KEYS := ["schema", "python", "platform", "requirements_hash"]

  // ----------------------------------------------------------------- parsing

  function Reject(l: Lock, f: Finding): Lock { l.(findings := l.findings + [f]) }

  function AddPin(l: Lock, p: PinLine): Lock {
    var name, hashes := Normalise(p.name), SortedUnique(p.hashes);
    if name !in l.pins then l.(pins := l.pins[name := Pin(p.version, hashes)])
    else if l.pins[name].version != p.version then Reject(l, DuplicatePin(name))
    else l.(pins := l.pins[name := Pin(p.version, SortedUnique(l.pins[name].hashes + hashes))])
  }

  /** What one line of a lock says. */
  datatype Item = Nothing | Header(meta: Meta) | Unhashed(line: string) | Malformed(line: string) | Pinned(pin: PinLine)

  function Read(raw: string): Item {
    var line := Trim(raw);
    if line == "" then Nothing
    else if line[0] == '#' then
      var m := MetaOf(line);
      if m.None? then Nothing else Header(m.value)
    else if !Contains(line, "--hash=") then Unhashed(line)
    else
      var p := ParsePin(line);
      if p.None? then Malformed(line) else Pinned(p.value)
  }

  function ReadAll(lines: seq<string>): (items: seq<Item>)
    ensures |items| == |lines|
  {
    if lines == [] then [] else [Read(lines[0])] + ReadAll(lines[1..])
  }

  function Apply(l: Lock, item: Item): Lock {
    match item
    case Nothing => l
    case Header(m) => l.(metadata := l.metadata[m.key := m.value])
    case Unhashed(line) => Reject(l, MissingHash(line))
    case Malformed(line) => Reject(l, MalformedPin(line))
    case Pinned(p) => AddPin(l, p)
  }

  function Gather(l: Lock, items: seq<Item>): Lock
    decreases items
  {
    if items == [] then l else Gather(Apply(l, items[0]), items[1..])
  }

  function MissingKeys(metadata: map<string, string>, keys: seq<string>): seq<Finding> {
    if keys == [] then []
    else
      MissingKeys(metadata, keys[..|keys| - 1]) +
      if keys[|keys| - 1] in metadata then [] else [MissingMetadata(keys[|keys| - 1])]
  }

  function Checked(l: Lock): Lock {
    l.(findings := l.findings + (if l.pins == map[] then [EmptyLock] else []) + MissingKeys(l.metadata, KEYS))
  }

  function Parsed(text: string): Lock { Checked(Gather(EMPTY, ReadAll(Lines(text)))) }

  lemma {:induction false} GatherAppend(l: Lock, a: seq<Item>, b: seq<Item>)
    ensures Gather(l, a + b) == Gather(Gather(l, a), b)
    decreases a
  {
    if a == [] {
      assert a + b == b;
    } else {
      assert (a + b)[1..] == a[1..] + b;
      GatherAppend(Apply(l, a[0]), a[1..], b);
    }
  }

  lemma {:induction false} ReadAppend(a: seq<string>, b: seq<string>)
    ensures ReadAll(a + b) == ReadAll(a) + ReadAll(b)
  {
    if a == [] {
      assert a + b == b;
    } else {
      assert (a + b)[1..] == a[1..] + b;
      ReadAppend(a[1..], b);
    }
  }

  method GatherLines(lines: seq<string>) returns (l: Lock)
    ensures l == Gather(EMPTY, ReadAll(lines))
  {
    l := EMPTY;
    for i := 0 to |lines|
      invariant l == Gather(EMPTY, ReadAll(lines[..i]))
    {
      GatherSnoc(lines, i);
      l := Apply(l, Read(lines[i]));
    }
    assert lines[..|lines|] == lines;
  }

  lemma GatherSnoc(lines: seq<string>, i: nat)
    requires i < |lines|
    ensures Gather(EMPTY, ReadAll(lines[..i + 1])) == Apply(Gather(EMPTY, ReadAll(lines[..i])), Read(lines[i]))
  {
    assert lines[..i + 1] == lines[..i] + [lines[i]];
    ReadAppend(lines[..i], [lines[i]]);
    assert ReadAll([lines[i]]) == [Read(lines[i])];
    GatherAppend(EMPTY, ReadAll(lines[..i]), [Read(lines[i])]);
  }

  /** The parser: one pass over the lines, then the checks on what it gathered. */
  method ParseLock(text: string) returns (l: Lock)
    ensures l == Parsed(text)
  {
    l := GatherLines(Lines(text));
    var missing: seq<Finding> := [];
    for i := 0 to |KEYS|
      invariant missing == MissingKeys(l.metadata, KEYS[..i])
    {
      assert KEYS[..i + 1][..i] == KEYS[..i];
      if KEYS[i] !in l.metadata { missing := missing + [MissingMetadata(KEYS[i])]; }
    }
    assert KEYS[..|KEYS|] == KEYS;
    l := l.(findings := l.findings + (if l.pins == map[] then [EmptyLock] else []) + missing);
  }

  // --------------------------------------------------------------- rendering

  datatype Preamble = Preamble(schema: string, python: string, platform: string, requirementsHash: string)

  /** A fixed comment line of the preamble: a bare `#`, or a first word that may
      look like a key and the text after it. */
  datatype Note = Bare | Note(word: string, rest: string)

  function NoteLine(n: Note): string { if n.Bare? then "#" else "# " + n.word + n.rest }

  function NoteLines(ns: seq<Note>): seq<string> {
    if ns == [] then [] else [NoteLine(ns[0])] + NoteLines(ns[1..])
  }

  function Metas(h: Preamble, count: nat): seq<Meta> {
    [Meta("schema", h.schema), Meta("python", h.python), Meta("platform", h.platform),
     Meta("requirements_hash", h.requirementsHash), Meta("package_count", Render(count, 10))]
  }

  function MetaLines(ms: seq<Meta>): seq<string> {
    if ms == [] then [] else [RenderMeta(ms[0])] + MetaLines(ms[1..])
  }

  function HashLines(name: string, version: string, hashes: seq<string>): seq<string> {
    if hashes == [] then [] else [RenderPin(name, version, hashes[0])] + HashLines(name, version, hashes[1..])
  }

  function PinLines(pins: map<string, Pin>, names: seq<string>): seq<string>
    requires forall n | n in names :: n in pins
  {
    if names == [] then []
    else HashLines(names[0], pins[names[0]].version, pins[names[0]].hashes) + PinLines(pins, names[1..])
  }

  // ------------------------------------------------------------- round trip

  predicate PinOk(name: string, p: Pin) {
    NameOk(name) && Canonical(name) && VersionOk(p.version) && p.hashes != [] && forall h | h in p.hashes :: DigestOk(h)
  }

  predicate PinsOk(pins: map<string, Pin>) { forall n | n in pins :: PinOk(n, pins[n]) }

  function Tidy(p: Pin): Pin { Pin(p.version, SortedUnique(p.hashes)) }

  function HashItems(name: string, version: string, hashes: seq<string>): seq<Item> {
    if hashes == [] then []
    else [Pinned(PinLine(name, version, [hashes[0]]))] + HashItems(name, version, hashes[1..])
  }

  lemma PinItem(name: string, version: string, digest: string)
    requires NameOk(name) && VersionOk(version) && DigestOk(digest)
    ensures Read(RenderPin(name, version, digest)) == Pinned(PinLine(name, version, [digest]))
  {
    PinIsTrimmed(name, version, digest);
    PinReadsBack(name, version, digest);
  }

  lemma {:induction false} ReadHashLines(name: string, version: string, hashes: seq<string>)
    requires NameOk(name) && VersionOk(version) && forall h | h in hashes :: DigestOk(h)
    ensures ReadAll(HashLines(name, version, hashes)) == HashItems(name, version, hashes)
  {
    if hashes == [] {
    } else {
      PinItem(name, version, hashes[0]);
      assert HashLines(name, version, hashes)[1..] == HashLines(name, version, hashes[1..]);
      ReadHashLines(name, version, hashes[1..]);
    }
  }

  lemma MergeSorted(xs: seq<string>, ys: seq<string>)
    ensures SortedUnique(SortedUnique(xs) + SortedUnique(ys)) == SortedUnique(xs + ys)
  {
    var a := SortedUnique(xs) + SortedUnique(ys);
    MembersAppend(SortedUnique(xs), SortedUnique(ys));
    MembersAppend(xs, ys);
    SortedIsCanonical(SortedUnique(a), SortedUnique(xs + ys));
  }

  lemma MembersAppend(xs: seq<string>, ys: seq<string>)
    ensures Members(xs + ys) == Members(xs) + Members(ys)
  {
  }

  function Holding(l: Lock, name: string, p: Pin): Lock { l.(pins := l.pins[name := p]) }

  lemma FirstHash(l: Lock, name: string, version: string, digest: string)
    requires Canonical(name) && name !in l.pins
    ensures Apply(l, Pinned(PinLine(name, version, [digest]))) ==
            Holding(l, name, Pin(version, SortedUnique([digest])))
  {
    CanonicalFixed(name);
  }

  lemma NextHash(l: Lock, name: string, version: string, done: seq<string>, digest: string)
    requires Canonical(name) && name in l.pins && l.pins[name] == Pin(version, SortedUnique(done))
    ensures Apply(l, Pinned(PinLine(name, version, [digest]))) ==
            Holding(l, name, Pin(version, SortedUnique(done + [digest])))
  {
    CanonicalFixed(name);
    MergeSorted(done, [digest]);
  }

  /** Further hashes of a pin already seen are merged into it. */
  lemma {:induction false} MoreHashes(l: Lock, name: string, version: string, done: seq<string>, rest: seq<string>)
    requires Canonical(name) && name in l.pins && l.pins[name] == Pin(version, SortedUnique(done))
    ensures Gather(l, HashItems(name, version, rest)) == Holding(l, name, Pin(version, SortedUnique(done + rest)))
    decreases rest
  {
    if rest == [] {
      assert done + rest == done;
      HoldingSame(l, name);
    } else {
      var next := Holding(l, name, Pin(version, SortedUnique(done + [rest[0]])));
      NextHash(l, name, version, done, rest[0]);
      GatherCons(l, Pinned(PinLine(name, version, [rest[0]])), HashItems(name, version, rest[1..]));
      MoreHashes(next, name, version, done + [rest[0]], rest[1..]);
      Shift(done, rest);
      HoldingAgain(l, name, Pin(version, SortedUnique(done + [rest[0]])), Pin(version, SortedUnique(done + rest)));
    }
  }

  lemma Shift(done: seq<string>, rest: seq<string>)
    requires rest != []
    ensures done + [rest[0]] + rest[1..] == done + rest
  {
  }

  lemma GatherCons(l: Lock, item: Item, items: seq<Item>)
    ensures Gather(l, [item] + items) == Gather(Apply(l, item), items)
  {
    assert ([item] + items)[1..] == items;
  }

  lemma HoldingSame(l: Lock, name: string)
    requires name in l.pins
    ensures Holding(l, name, l.pins[name]) == l
  {
    assert l.pins[name := l.pins[name]] == l.pins;
  }

  lemma HoldingAgain(l: Lock, name: string, p: Pin, q: Pin)
    ensures Holding(Holding(l, name, p), name, q) == Holding(l, name, q)
  {
    assert l.pins[name := p][name := q] == l.pins[name := q];
  }

  lemma OnePin(l: Lock, name: string, p: Pin)
    requires Canonical(name) && p.hashes != [] && name !in l.pins
    ensures Gather(l, HashItems(name, p.version, p.hashes)) == Holding(l, name, Tidy(p))
  {
    var h := p.hashes;
    var first := Pin(p.version, SortedUnique([h[0]]));
    FirstHash(l, name, p.version, h[0]);
    GatherCons(l, Pinned(PinLine(name, p.version, [h[0]])), HashItems(name, p.version, h[1..]));
    MoreHashes(Holding(l, name, first), name, p.version, [h[0]], h[1..]);
    assert [h[0]] + h[1..] == h;
    HoldingAgain(l, name, first, Tidy(p));
  }

  function TidyPins(pins: map<string, Pin>, names: seq<string>): map<string, Pin>
    requires forall n | n in names :: n in pins
  {
    map n | n in names :: Tidy(pins[n])
  }

  lemma {:induction false} AllPins(l: Lock, pins: map<string, Pin>, names: seq<string>)
    requires PinsOk(pins) && StrictlySorted(names)
    requires forall n | n in names :: n in pins && n !in l.pins
    ensures Gather(l, ReadAll(PinLines(pins, names))) == l.(pins := l.pins + TidyPins(pins, names))
    decreases names
  {
    if names == [] {
      assert l.pins + TidyPins(pins, names) == l.pins;
    } else {
      var n := names[0];
      var p := pins[n];
      assert PinOk(n, p);
      var lines, more := HashLines(n, p.version, p.hashes), PinLines(pins, names[1..]);
      ReadAppend(lines, more);
      ReadHashLines(n, p.version, p.hashes);
      GatherAppend(l, ReadAll(lines), ReadAll(more));
      OnePin(l, n, p);
      HeadOnce(names);
      AllPins(Holding(l, n, Tidy(p)), pins, names[1..]);
      TidyCons(l, pins, names);
    }
  }

  lemma TidyCons(l: Lock, pins: map<string, Pin>, names: seq<string>)
    requires names != [] && forall n | n in names :: n in pins
    ensures Holding(l, names[0], Tidy(pins[names[0]])).pins + TidyPins(pins, names[1..]) ==
            l.pins + TidyPins(pins, names)
  {
    assert names == [names[0]] + names[1..];
  }

  lemma HeadOnce(names: seq<string>)
    requires StrictlySorted(names) && names != []
    ensures names[0] !in names[1..]
  {
    if names[0] in names[1..] { LessIrreflexive(names[0]); }
  }

  // ----------------------------------------------------------------- header

  predicate Silent(line: string) { Read(line) == Nothing && '\n' !in line }

  lemma {:induction false} SilentLines(l: Lock, lines: seq<string>)
    requires forall x | x in lines :: Silent(x)
    ensures Gather(l, ReadAll(lines)) == l
  {
    if lines == [] {
    } else {
      assert Silent(lines[0]);
      SilentLines(l, lines[1..]);
      GatherCons(l, Nothing, ReadAll(lines[1..]));
    }
  }

  lemma CommentIsSilent(line: string)
    requires Trimmed(line) && line[0] == '#' && MetaOf(line) == None && '\n' !in line
    ensures Silent(line)
  {
  }

  /** The first word of the comment is not followed by a colon. */
  predicate NoteOk(n: Note) {
    n.Bare? ||
    (&& All(n.word, KeyChar) && '\n' !in n.rest
     && n.rest != "" && !KeyChar(n.rest[0]) && n.rest[0] != ':'
     && (n.word == "" ==> !Space(n.rest[0])) && !Space(n.rest[|n.rest| - 1]))
  }

  lemma NoteIsTrimmed(word: string, rest: string)
    requires All(word, KeyChar) && '\n' !in rest && rest != "" && !Space(rest[|rest| - 1])
    ensures var line := "# " + (word + rest); Trimmed(line) && line[0] == '#' && '\n' !in line
  {
    var line, k := "# " + (word + rest), 2 + |word|;
    assert line[|line| - 1] == rest[|rest| - 1];
    forall i | 0 <= i < |line| ensures line[i] != '\n' {
      if i < 2 {
        assert line[i] == "# "[i];
      } else if i < k {
        assert line[i] == word[i - 2];
      } else {
        assert line[i] == rest[i - k];
      }
    }
  }

  lemma NoteIsSilent(n: Note)
    requires NoteOk(n)
    ensures Silent(NoteLine(n))
  {
    var line := NoteLine(n);
    if n.Bare? {
      assert line[1..] == "";
    } else {
      assert line == "# " + (n.word + n.rest);
      NoMeta(n.word, n.rest);
      NoteIsTrimmed(n.word, n.rest);
    }
    CommentIsSilent(line);
  }

  lemma {:induction false} NotesAreSilent(ns: seq<Note>)
    requires forall n | n in ns :: NoteOk(n)
    ensures forall x | x in NoteLines(ns) :: Silent(x)
  {
    if ns == [] {
    } else {
      NoteIsSilent(ns[0]);
      NotesAreSilent(ns[1..]);
    }
  }

  function PutMetas(m: map<string, string>, ms: seq<Meta>): map<string, string>
    decreases ms
  {
    if ms == [] then m else PutMetas(m[ms[0].key := ms[0].value], ms[1..])
  }

  lemma {:induction false} MetasGather(l: Lock, ms: seq<Meta>)
    requires forall m | m in ms :: MetaOk(m)
    ensures Gather(l, ReadAll(MetaLines(ms))) == l.(metadata := PutMetas(l.metadata, ms))
    ensures forall x | x in MetaLines(ms) :: '\n' !in x
    decreases ms
  {
    if ms == [] {
    } else {
      var m := ms[0];
      MetaIsTrimmed(m);
      MetaReadsBack(m);
      assert Read(RenderMeta(m)) == Header(m);
      assert MetaLines(ms)[1..] == MetaLines(ms[1..]);
      GatherCons(l, Header(m), ReadAll(MetaLines(ms[1..])));
      MetasGather(l.(metadata := l.metadata[m.key := m.value]), ms[1..]);
    }
  }

  lemma {:induction false} PutMetasHas(m: map<string, string>, ms: seq<Meta>)
    ensures forall k | k in m :: k in PutMetas(m, ms)
    ensures forall i | 0 <= i < |ms| :: ms[i].key in PutMetas(m, ms)
    decreases ms
  {
    if ms == [] {
    } else {
      var next := m[ms[0].key := ms[0].value];
      PutMetasHas(next, ms[1..]);
      assert ms[0].key in next;
      assert forall i | 1 <= i < |ms| :: ms[i] == ms[1..][i - 1];
    }
  }

  predicate PlainValue(v: string) { Trimmed(v) && '\n' !in v }

  predicate PreambleOk(h: Preamble) {
    && PlainValue(h.schema) && PlainValue(h.python) && PlainValue(h.platform) && PlainValue(h.requirementsHash)
  }

  lemma CountIsMeta(n: nat)
    ensures PlainValue(Render(n, 10))
  {
    var s := Render(n, 10);
    assert forall i | 0 <= i < |s| :: DigitValue(s[i]) < 10;
  }

  // ----------------------------------------------------------- the whole text

  predicate Keyed(pins: map<string, Pin>, order: seq<string>) { Members(order) == pins.Keys }

  /** Everything above the pins. */
  function TopLines(h: Preamble, notes: seq<Note>, count: nat): seq<string> {
    NoteLines(notes) + MetaLines(Metas(h, count)) + [""]
  }

  function AllLines(h: Preamble, notes: seq<Note>, pins: map<string, Pin>, order: seq<string>): seq<string>
    requires Keyed(pins, order)
  {
    SortedKeys(pins, order);
    TopLines(h, notes, |pins|) + PinLines(pins, SortedUnique(order))
  }

  lemma SortedKeys(pins: map<string, Pin>, order: seq<string>)
    requires Keyed(pins, order)
    ensures forall n | n in SortedUnique(order) :: n in pins
    ensures forall n | n in pins :: n in SortedUnique(order)
  {
    assert forall n :: n in SortedUnique(order) <==> n in Members(SortedUnique(order));
  }

  function Rendered(h: Preamble, notes: seq<Note>, pins: map<string, Pin>, order: seq<string>): string
    requires Keyed(pins, order)
  {
    Unlines(AllLines(h, notes, pins, order))
  }

  lemma KeysOk()
    ensures All("schema", KeyChar) && All("python", KeyChar) && All("platform", KeyChar)
    ensures All("requirements_hash", KeyChar) && All("package_count", KeyChar)
  {
  }

  lemma MetasOk(h: Preamble, count: nat)
    requires PreambleOk(h)
    ensures forall m | m in Metas(h, count) :: MetaOk(m)
  {
    CountIsMeta(count);
    KeysOk();
  }

  lemma TopGathers(h: Preamble, notes: seq<Note>, count: nat)
    requires PreambleOk(h) && forall n | n in notes :: NoteOk(n)
    ensures Gather(EMPTY, ReadAll(TopLines(h, notes, count))) == Lock(map[], PutMetas(map[], Metas(h, count)), [])
    ensures forall x | x in TopLines(h, notes, count) :: '\n' !in x
  {
    var a, b := NoteLines(notes), MetaLines(Metas(h, count));
    NotesAreSilent(notes);
    SilentLines(EMPTY, a);
    MetasOk(h, count);
    MetasGather(EMPTY, Metas(h, count));
    ReadAppend(a + b, [""]);
    ReadAppend(a, b);
    GatherAppend(EMPTY, ReadAll(a) + ReadAll(b), ReadAll([""]));
    GatherAppend(EMPTY, ReadAll(a), ReadAll(b));
    assert Silent("");
    SilentLines(Gather(EMPTY, ReadAll(b)), [""]);
  }

  lemma {:induction false} HashLinesPlain(name: string, version: string, hashes: seq<string>)
    requires NameOk(name) && VersionOk(version) && forall d | d in hashes :: DigestOk(d)
    ensures forall x | x in HashLines(name, version, hashes) :: '\n' !in x
  {
    if hashes == [] {
    } else {
      PinIsTrimmed(name, version, hashes[0]);
      HashLinesPlain(name, version, hashes[1..]);
    }
  }

  lemma {:induction false} PinLinesPlain(pins: map<string, Pin>, names: seq<string>)
    requires PinsOk(pins) && forall n | n in names :: n in pins
    ensures forall x | x in PinLines(pins, names) :: '\n' !in x
  {
    if names == [] {
    } else {
      assert PinOk(names[0], pins[names[0]]);
      HashLinesPlain(names[0], pins[names[0]].version, pins[names[0]].hashes);
      PinLinesPlain(pins, names[1..]);
    }
  }

  /** Reading the rendered text yields its lines again. */
  lemma RenderedLines(h: Preamble, notes: seq<Note>, pins: map<string, Pin>, order: seq<string>)
    requires PreambleOk(h) && (forall n | n in notes :: NoteOk(n)) && PinsOk(pins) && Keyed(pins, order)
    ensures Lines(Rendered(h, notes, pins, order)) == AllLines(h, notes, pins, order)
  {
    SortedKeys(pins, order);
    TopGathers(h, notes, |pins|);
    PinLinesPlain(pins, SortedUnique(order));
    LinesOfUnlines(AllLines(h, notes, pins, order));
  }

  function TidyAll(pins: map<string, Pin>): map<string, Pin> { map n | n in pins :: Tidy(pins[n]) }

  lemma RenderedGathers(h: Preamble, notes: seq<Note>, pins: map<string, Pin>, order: seq<string>)
    requires PreambleOk(h) && (forall n | n in notes :: NoteOk(n)) && PinsOk(pins) && Keyed(pins, order)
    ensures Gather(EMPTY, ReadAll(AllLines(h, notes, pins, order))) ==
            Lock(TidyAll(pins), PutMetas(map[], Metas(h, |pins|)), [])
  {
    var names := SortedUnique(order);
    SortedKeys(pins, order);
    GatherLinesAppend(TopLines(h, notes, |pins|), PinLines(pins, names));
    TopGathers(h, notes, |pins|);
    AllPins(Lock(map[], PutMetas(map[], Metas(h, |pins|)), []), pins, names);
    AllTidied(pins, names);
  }

  lemma GatherLinesAppend(a: seq<string>, b: seq<string>)
    ensures Gather(EMPTY, ReadAll(a + b)) == Gather(Gather(EMPTY, ReadAll(a)), ReadAll(b))
  {
    ReadAppend(a, b);
    GatherAppend(EMPTY, ReadAll(a), ReadAll(b));
  }

  lemma AllTidied(pins: map<string, Pin>, names: seq<string>)
    requires (forall n | n in names :: n in pins) && (forall n | n in pins :: n in names)
    ensures map[] + TidyPins(pins, names) == TidyAll(pins)
  {
  }

  /** Parsing a rendered lock gives back every pin, its hashes sorted and without
      repeats, and the header, in whatever order the pins were held; the only
      finding there can be is that nothing is pinned. */
  lemma RoundTrip(h: Preamble, notes: seq<Note>, pins: map<string, Pin>, order: seq<string>)
    requires PreambleOk(h) && (forall n | n in notes :: NoteOk(n)) && PinsOk(pins) && Keyed(pins, order)
    ensures Parsed(Rendered(h, notes, pins, order)) ==
            Lock(TidyAll(pins), PutMetas(map[], Metas(h, |pins|)), if pins == map[] then [EmptyLock] else [])
  {
    RenderedLines(h, notes, pins, order);
    RenderedGathers(h, notes, pins, order);
    NothingMissing(h, |pins|);
    TidyIsEmptyIff(pins);
  }

  lemma TidyIsEmptyIff(pins: map<string, Pin>)
    ensures TidyAll(pins) == map[] <==> pins == map[]
  {
    if pins != map[] {
      var n :| n in pins;
      assert n in TidyAll(pins);
    }
  }

  lemma NothingMissing(h: Preamble, count: nat)
    ensures MissingKeys(PutMetas(map[], Metas(h, count)), KEYS) == []
  {
    var ms := Metas(h, count);
    PutMetasHas(map[], ms);
    forall i | 0 <= i < |KEYS| ensures KEYS[i] in PutMetas(map[], ms) { assert KEYS[i] == ms[i].key; }
    NoneMissing(PutMetas(map[], ms), KEYS);
  }

  lemma {:induction false} NoneMissing(m: map<string, string>, keys: seq<string>)
    requires forall i | 0 <= i < |keys| :: keys[i] in m
    ensures MissingKeys(m, keys) == []
  {
    if keys == [] {
    } else {
      NoneMissing(m, keys[..|keys| - 1]);
    }
  }

  /** The very same pins come back exactly when each pin's hashes were sorted. */
  lemma SamePinsIff(h: Preamble, notes: seq<Note>, pins: map<string, Pin>, order: seq<string>)
    requires PreambleOk(h) && (forall n | n in notes :: NoteOk(n)) && PinsOk(pins) && Keyed(pins, order)
    ensures Parsed(Rendered(h, notes, pins, order)).pins == pins <==>
            forall n | n in pins :: StrictlySorted(pins[n].hashes)
  {
    RoundTrip(h, notes, pins, order);
    TidyAlreadyIff(pins);
  }

  lemma TidyAlreadyIff(pins: map<string, Pin>)
    ensures TidyAll(pins) == pins <==> forall n | n in pins :: StrictlySorted(pins[n].hashes)
  {
    var tidy := TidyAll(pins);
    if forall n | n in pins :: StrictlySorted(pins[n].hashes) {
      forall n | n in pins ensures tidy[n] == pins[n] {
        SortedIsCanonical(SortedUnique(pins[n].hashes), pins[n].hashes);
      }
    }
    if tidy == pins {
      forall n | n in pins ensures StrictlySorted(pins[n].hashes) { assert tidy[n] == pins[n]; }
    }
  }

  /** The renderer: the preamble, then one line per hash, name by name. */
  method RenderLock(h: Preamble, notes: seq<Note>, pins: map<string, Pin>, order: seq<string>) returns (text: string)
    requires Keyed(pins, order)
    ensures text == Rendered(h, notes, pins, order)
  {
    SortedKeys(pins, order);
    var names := SortedUnique(order);
    var lines := TopLines(h, notes, |pins|);
    ghost var all := AllLines(h, notes, pins, order);
    for i := 0 to |names|
      invariant lines + PinLines(pins, names[i..]) == all
    {
      PinLinesFrom(lines, pins, names, i);
      lines := AppendHashes(lines, names[i], pins[names[i]]);
    }
    assert lines + [] == lines;
    text := Unlines(lines);
  }

  lemma PinLinesFrom(lines: seq<string>, pins: map<string, Pin>, names: seq<string>, i: nat)
    requires i < |names| && forall n | n in names :: n in pins
    ensures lines + PinLines(pins, names[i..]) ==
            lines + HashLines(names[i], pins[names[i]].version, pins[names[i]].hashes) + PinLines(pins, names[i + 1..])
  {
    assert names[i..][1..] == names[i + 1..];
  }

  method AppendHashes(lines: seq<string>, name: string, p: Pin) returns (more: seq<string>)
    ensures more == lines + HashLines(name, p.version, p.hashes)
  {
    more := lines;
    for j := 0 to |p.hashes|
      invariant more + HashLines(name, p.version, p.hashes[j..]) == lines + HashLines(name, p.version, p.hashes)
    {
      assert p.hashes[j..][1..] == p.hashes[j + 1..];
      more := more + [RenderPin(name, p.version, p.hashes[j])];
    }
    assert more + [] == more;
  }
}
