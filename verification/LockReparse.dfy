/** What the parser of the dependency lock gathers from any text can be rendered
    and parsed again without loss. */
module LockReparse {
  import opened Text
  import opened LockText
  import opened DependencyLock

  predicate DigestsOk(hashes: seq<string>) { forall h | h in hashes :: DigestOk(h) }

  lemma {:induction false} HashesAreDigests(s: string)
    ensures Hashes(s).Some? ==> DigestsOk(Hashes(s).value)
    decreases |s|
  {
    if s == "" {
    } else if Hashes(s).Some? {
      var t := s[Span(s, Space)..];
      HashesAreDigests(t[|TAG| + 64..]);
    }
  }

  predicate PinLineOk(p: PinLine) {
    NameOk(p.name) && VersionOk(p.version) && p.hashes != [] && DigestsOk(p.hashes)
  }

  lemma ParsedPinOk(line: string)
    requires ParsePin(line).Some?
    ensures PinLineOk(ParsePin(line).value)
  {
    HashesAreDigests(SplitPin(line).value.2);
  }

  lemma {:induction false} CollapseKeepsNames(s: string)
    requires All(s, NameChar)
    ensures All(Collapse(s), NameChar)
    decreases |s|
  {
    if s == "" {
    } else {
      var t := if Separator(s[0]) then s[1..][Span(s[1..], Separator)..] else s[1..];
      CollapseKeepsNames(t);
      assert Collapse(s) == [if Separator(s[0]) then '-' else s[0]] + Collapse(t);
    }
  }

  /** A normalised name is again a name, in canonical form. */
  lemma NormaliseKeepsNames(name: string)
    requires NameOk(name)
    ensures NameOk(Normalise(name)) && Canonical(Normalise(name))
  {
    CollapseKeepsNames(name);
    CollapseDashes(name);
    NormaliseIsCanonical(name);
    LowerKeepsNames(Collapse(name));
  }

  lemma LowerKeepsNames(s: string)
    requires NameOk(s)
    ensures NameOk(LowerName(s))
  {
    var l := LowerName(s);
    forall i | 0 <= i < |l| ensures NameChar(l[i]) && (AlNum(s[i]) ==> AlNum(l[i])) {
      assert l[i] == LowerChar(s[i]) && NameChar(s[i]);
    }
  }

  /** Pins the renderer accepts, each with its hashes in order. */
  predicate Clean(pins: map<string, Pin>) {
    PinsOk(pins) && forall n | n in pins :: StrictlySorted(pins[n].hashes)
  }

  lemma SortedDigests(hashes: seq<string>)
    requires hashes != [] && DigestsOk(hashes)
    ensures SortedUnique(hashes) != [] && DigestsOk(SortedUnique(hashes))
  {
    var s := SortedUnique(hashes);
    assert hashes[0] in Members(s);
    forall h | h in s ensures DigestOk(h) { assert h in Members(s) && h in Members(hashes); }
  }

  lemma AddKeepsClean(l: Lock, p: PinLine)
    requires Clean(l.pins) && PinLineOk(p)
    ensures Clean(AddPin(l, p).pins)
  {
    var name, hashes := Normalise(p.name), SortedUnique(p.hashes);
    NormaliseKeepsNames(p.name);
    SortedDigests(p.hashes);
    if name in l.pins && l.pins[name].version == p.version {
      assert PinOk(name, l.pins[name]);
      SortedDigests(l.pins[name].hashes + hashes);
    }
  }

  predicate ItemOk(item: Item) { item.Pinned? ==> PinLineOk(item.pin) }

  lemma ReadIsOk(raw: string)
    ensures ItemOk(Read(raw))
  {
    if Read(raw).Pinned? { ParsedPinOk(Trim(raw)); }
  }

  lemma ApplyKeepsClean(l: Lock, item: Item)
    requires Clean(l.pins) && ItemOk(item)
    ensures Clean(Apply(l, item).pins)
  {
    if item.Pinned? { AddKeepsClean(l, item.pin); }
  }

  lemma {:induction false} GatherKeepsClean(l: Lock, lines: seq<string>)
    requires Clean(l.pins)
    ensures Clean(Gather(l, ReadAll(lines)).pins)
    decreases lines
  {
    if lines == [] {
    } else {
      ReadIsOk(lines[0]);
      ApplyKeepsClean(l, Read(lines[0]));
      assert ReadAll(lines)[1..] == ReadAll(lines[1..]);
      GatherKeepsClean(Apply(l, Read(lines[0])), lines[1..]);
    }
  }

  /** Whatever the text, the pins parsed from it are ones the renderer accepts:
      canonical names, hashes in order and without repeats. */
  lemma ParsedIsClean(text: string)
    ensures Clean(Parsed(text).pins)
  {
    GatherKeepsClean(EMPTY, Lines(text));
  }

  /** For every text, accepted or not: rendering the parsed pins and parsing again
      gives the very same pins, and no finding unless there were none to render. */
  lemma ReparseGivesSamePins(text: string, h: Preamble, notes: seq<Note>, order: seq<string>)
    requires PreambleOk(h) && (forall n | n in notes :: NoteOk(n)) && Keyed(Parsed(text).pins, order)
    ensures var pins := Parsed(text).pins;
            var again := Parsed(Rendered(h, notes, pins, order));
            again.pins == pins && again.findings == if pins == map[] then [EmptyLock] else []
  {
    ParsedIsClean(text);
    SamePinsIff(h, notes, Parsed(text).pins, order);
    RoundTrip(h, notes, Parsed(text).pins, order);
  }
}
