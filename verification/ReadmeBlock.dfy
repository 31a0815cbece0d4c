/** Splicing a generated block between two marker lines of a text. The readiness
    generator and the phase-gate generator use the same splice with their own
    markers, on the same README files. */
module ReadmeBlock {
  import opened Text

  // --------------------------------------------------------------- newlines

  function RStrip(s: string): string {
    if s != "" && s[|s| - 1] == '\n' then RStrip(s[..|s| - 1]) else s
  }

  function LStrip(s: string): string {
    if s != "" && s[0] == '\n' then LStrip(s[1..]) else s
  }

  function Strip(s: string): string { RStrip(LStrip(s)) }

  predicate EndsClean(s: string) { s != "" ==> s[|s| - 1] != '\n' }

  predicate StartsClean(s: string) { s != "" ==> s[0] != '\n' }

  /** What stripping the right end keeps is a front part, and the rest newlines. */
  lemma {:induction false} RStripKeeps(s: string)
    ensures RStrip(s) <= s && EndsClean(RStrip(s))
    ensures forall i | |RStrip(s)| <= i < |s| :: s[i] == '\n'
  {
    if s != "" && s[|s| - 1] == '\n' { RStripKeeps(s[..|s| - 1]); }
  }

  lemma {:induction false} LStripKeeps(s: string)
    ensures |LStrip(s)| <= |s| && LStrip(s) == s[|s| - |LStrip(s)|..] && StartsClean(LStrip(s))
    ensures forall i | 0 <= i < |s| - |LStrip(s)| :: s[i] == '\n'
  {
    if s != "" && s[0] == '\n' {
      var t := s[1..];
      var r := LStrip(t);
      LStripKeeps(t);
      assert s[|s| - |r|..] == t[|t| - |r|..];
      assert forall i | 1 <= i < |s| :: s[i] == t[i - 1];
    }
  }

  lemma StripIsClean(s: string)
    ensures StartsClean(Strip(s)) && EndsClean(Strip(s))
  {
    LStripKeeps(s);
    RStripKeeps(LStrip(s));
  }

  lemma RStripNewline(x: string)
    requires EndsClean(x)
    ensures RStrip(x) == x && RStrip(x + "\n") == x && RStrip(x + "\n\n") == x
  {
    assert (x + "\n")[..|x|] == x;
    assert (x + "\n\n")[..|x| + 1] == x + "\n";
  }

  lemma StripPadded(x: string)
    requires StartsClean(x) && EndsClean(x) && x != ""
    ensures Strip("\n\n" + x + "\n") == x
  {
    var y := x + "\n";
    assert "\n\n" + x + "\n" == "\n\n" + y;
    assert ("\n\n" + y)[1..] == "\n" + y;
    assert ("\n" + y)[1..] == y;
    assert LStrip(y) == y && LStrip("\n" + y) == y && LStrip("\n\n" + y) == y;
    RStripNewline(x);
  }

  lemma StripNewline()
    ensures Strip("\n") == ""
  {
    assert "\n"[1..] == "";
  }

  // ------------------------------------------------------------------ splice

  predicate Marker(m: string) { m != "" && '\n' !in m }

  /** The text around the generated block: before the first begin marker, and
      after the first end marker that follows it. */
  datatype Cut = Cut(head: string, tail: string)

  function CutAt(text: string, begin: string, end: string): Cut
    requires Contains(text, begin)
  {
    var i := Find(text, begin).value;
    Cut(text[..i], After(text[i + |begin|..], end))
  }

  /** What follows the first end marker. */
  function After(remainder: string, end: string): string {
    var j := Find(remainder, end);
    if j.None? then "" else remainder[j.value + |end|..]
  }

  function Trailer(tail: string): string {
    if Strip(tail) == "" then "\n" else "\n\n" + Strip(tail) + "\n"
  }

  function Join(head: string, block: string, tail: string): string {
    RStrip(head) + "\n\n" + (block + Trailer(tail))
  }

  /** Replace the block, or append it when the markers are not both there. */
  function Apply(text: string, block: string, begin: string, end: string): string {
    if Contains(text, begin) && Contains(text, end) then
      var cut := CutAt(text, begin, end);
      Join(cut.head, Strip(block), cut.tail)
    else
      RStrip(text) + "\n\n" + (Strip(block) + "\n")
  }

  /** The head the splice keeps, and what it keeps after the block. */
  function Kept(text: string, begin: string, end: string): Cut {
    if Contains(text, begin) && Contains(text, end) then CutAt(text, begin, end) else Cut(text, "")
  }

  /** With an end marker behind the first begin marker, exactly the text between
      and including the two is replaced; an end marker further up stays where it is. */
  lemma SpliceReplaces(text: string, block: string, begin: string, end: string, i: nat, k: nat)
    requires i + |begin| <= |text| && FirstAt(text, begin, i) && FirstAt(text[i + |begin|..], end, k)
    ensures i + |begin| + k + |end| <= |text|
    ensures Apply(text, block, begin, end) == Join(text[..i], Strip(block), text[i + |begin| + k + |end|..])
  {
    var t := text[i + |begin|..];
    assert text == text[..i] + (text[i..i + |begin|] + t);
    EndFollows(text[..i], text[i..i + |begin|], t, end, k);
    CutThere(text, begin, end, i, t);
    AfterThere(t, end, k);
    assert t[k + |end|..] == text[i + |begin| + k + |end|..];
  }

  /** With the only end markers before the first begin marker, the splice keeps
      what stands before the begin marker and drops everything from there on. */
  lemma SpliceDropsRest(text: string, block: string, begin: string, end: string, i: nat)
    requires i + |begin| <= |text| && FirstAt(text, begin, i)
    requires Contains(text, end) && !Contains(text[i + |begin|..], end)
    ensures Apply(text, block, begin, end) == RStrip(text[..i]) + "\n\n" + (Strip(block) + "\n")
  {
    CutThere(text, begin, end, i, text[i + |begin|..]);
    NothingAfter(text[i + |begin|..], end);
    assert Trailer("") == "\n";
  }

  lemma NothingAfter(t: string, end: string)
    requires !Contains(t, end)
    ensures After(t, end) == ""
  {
  }

  lemma ApplyJoins(text: string, block: string, begin: string, end: string)
    ensures Apply(text, block, begin, end) ==
            Join(Kept(text, begin, end).head, Strip(block), Kept(text, begin, end).tail)
  {
    assert Strip("") == "";
  }

  /** What a generator renders: the begin marker, a middle and the end marker,
      with no earlier end marker. */
  predicate IsBlock(b: string, begin: string, end: string) {
    |b| >= |begin| + |end| && b[..|begin|] == begin && FirstAt(b, end, |b| - |end|)
  }

  // --------------------------------------------------- where markers are found

  lemma OccursLeft(a: string, t: string, p: string, k: nat)
    requires k + |p| <= |a|
    ensures OccursAt(a + t, p, k) <==> OccursAt(a, p, k)
  {
    assert (a + t)[k..k + |p|] == a[k..k + |p|];
  }

  lemma OccursRight(a: string, t: string, p: string, k: nat)
    ensures OccursAt(a + t, p, |a| + k) <==> OccursAt(t, p, k)
  {
    if k + |p| <= |t| { assert (a + t)[|a| + k..|a| + k + |p|] == t[k..k + |p|]; }
  }

  /** A newline-free word never lies across a newline. */
  lemma NoStraddle(s: string, p: string, j: nat, at: nat)
    requires Marker(p) && OccursAt(s, p, j) && j <= at < j + |p|
    ensures s[at] != '\n'
  {
    assert s[at] == s[j..j + |p|][at - j] == p[at - j];
  }

  /** A newline-free word first found behind a blank line. */
  lemma FirstBehind(head: string, t: string, p: string, k: nat)
    requires Marker(p) && !Contains(head, p) && FirstAt(t, p, k)
    ensures FirstAt(head + "\n\n" + t, p, |head| + 2 + k)
  {
    var blank := head + "\n\n";
    OccursRight(blank, t, p, k);
    forall j | 0 <= j < |head| + 2 + k ensures !OccursAt(blank + t, p, j) {
      if OccursAt(blank + t, p, j) {
        if j >= |head| + 2 {
          OccursRight(blank, t, p, j - |head| - 2);
        } else if j + |p| <= |head| {
          assert blank + t == head + ("\n\n" + t);
          OccursLeft(head, "\n\n" + t, p, j);
        } else {
          NoStraddle(blank + t, p, j, if j <= |head| then |head| else |head| + 1);
        }
      }
    }
  }

  /** A word first found in the front part is first in the whole. */
  lemma FirstInFront(a: string, t: string, p: string, k: nat)
    requires FirstAt(a, p, k)
    ensures FirstAt(a + t, p, k)
  {
    forall j | 0 <= j <= k ensures OccursAt(a + t, p, j) <==> OccursAt(a, p, j) { OccursLeft(a, t, p, j); }
  }

  /** And the other way round, when the front part reaches past it. */
  lemma FirstOfFront(a: string, t: string, p: string, k: nat)
    requires FirstAt(a + t, p, k) && k + |p| <= |a|
    ensures FirstAt(a, p, k)
  {
    forall j | 0 <= j <= k ensures OccursAt(a + t, p, j) <==> OccursAt(a, p, j) { OccursLeft(a, t, p, j); }
  }

  /** A part of a text that lacks a word lacks it too. */
  lemma PartLacks(a: string, m: string, t: string, p: string)
    requires !Contains(a + m + t, p)
    ensures !Contains(m, p)
  {
    if Contains(m, p) {
      var j :| 0 <= j <= |m| && OccursAt(m, p, j);
      OccursRight(a, m, p, j);
      OccursLeft(a + m, t, p, |a| + j);
    }
  }

  lemma HeadLacks(text: string, p: string, i: nat)
    requires p != "" && FirstAt(text, p, i)
    ensures !Contains(text[..i], p)
  {
    if Contains(text[..i], p) {
      var j :| 0 <= j <= |text[..i]| && OccursAt(text[..i], p, j);
      assert text == text[..i] + text[i..];
      OccursLeft(text[..i], text[i..], p, j);
    }
  }

  /** Cutting `h`, a blank line, and a text that opens with the block. */
  lemma CutOf(h: string, gap: string, rest: string, begin: string, end: string, k: nat)
    requires Marker(begin) && Marker(end) && !Contains(h, begin)
    requires FirstAt(gap + rest, end, k) && k + |end| == |gap|
    ensures var text := h + "\n\n" + (begin + (gap + rest));
            && Contains(text, begin) && Contains(text, end)
            && CutAt(text, begin, end) == Cut(h + "\n\n", rest)
  {
    var t := gap + rest;
    OpensWith(h, begin, t);
    CutFrom(h + "\n\n", begin, t, end, k);
    assert t[k + |end|..] == rest;
  }

  /** The first begin marker after `h` and a blank line opens what follows. */
  lemma OpensWith(h: string, begin: string, t: string)
    requires Marker(begin) && !Contains(h, begin)
    ensures FirstAt(h + "\n\n" + (begin + t), begin, |h| + 2)
  {
    assert (begin + t)[..|begin|] == begin;
    FirstBehind(h, begin + t, begin, 0);
  }

  lemma CutFrom(head: string, begin: string, t: string, end: string, k: nat)
    requires FirstAt(head + (begin + t), begin, |head|) && FirstAt(t, end, k)
    ensures var text := head + (begin + t);
            && Contains(text, begin) && Contains(text, end)
            && CutAt(text, begin, end) == Cut(head, t[k + |end|..])
  {
    EndFollows(head, begin, t, end, k);
    Regions(head, begin, t);
    CutThere(head + (begin + t), begin, end, |head|, t);
    AfterThere(t, end, k);
  }

  /** The cut taken at the position where the begin marker is first found. */
  lemma CutThere(text: string, begin: string, end: string, i: nat, t: string)
    requires FirstAt(text, begin, i) && i + |begin| <= |text| && t == text[i + |begin|..]
    ensures Contains(text, begin) && CutAt(text, begin, end) == Cut(text[..i], After(t, end))
  {
    assert Find(text, begin) == Some(i) by { FindIsFirst(text, begin, i); }
  }

  lemma AfterThere(t: string, end: string, k: nat)
    requires FirstAt(t, end, k)
    ensures k + |end| <= |t| && After(t, end) == t[k + |end|..]
  {
    assert Find(t, end) == Some(k) by { FindIsFirst(t, end, k); }
  }

  lemma EndFollows(head: string, begin: string, t: string, end: string, k: nat)
    requires OccursAt(t, end, k)
    ensures Contains(head + (begin + t), end)
  {
    OccursRight(head + begin, t, end, k);
    assert head + (begin + t) == head + begin + t;
    assert OccursAt(head + (begin + t), end, |head + begin| + k);
  }

  lemma Regions(head: string, begin: string, t: string)
    ensures var text := head + (begin + t); text[..|head|] == head && text[|head| + |begin|..] == t
  {
  }

  /** A block without its begin marker ends in its first end marker. */
  lemma EndInBlock(b: string, begin: string, end: string)
    requires IsBlock(b, begin, end)
    ensures FirstAt(b[|begin|..], end, |b| - |begin| - |end|)
  {
    var m := b[|begin|..];
    assert b == begin + m;
    forall k | 0 <= k <= |m| - |end| ensures OccursAt(m, end, k) <==> OccursAt(b, end, |begin| + k) {
      OccursRight(begin, m, end, k);
    }
  }

  lemma StripTrailer(tail: string)
    ensures Strip(Trailer(tail)) == Strip(tail)
  {
    StripNewline();
    StripIsClean(tail);
    if Strip(tail) != "" { StripPadded(Strip(tail)); }
  }

  lemma CutOfSplice(h: string, block: string, t: string, begin: string, end: string)
    requires Marker(begin) && Marker(end) && IsBlock(block, begin, end) && !Contains(h, begin)
    ensures var text := h + "\n\n" + (block + t);
            && Contains(text, begin) && Contains(text, end) && CutAt(text, begin, end) == Cut(h + "\n\n", t)
  {
    var m := block[|begin|..];
    assert block + t == begin + (m + t);
    EndInBlock(block, begin, end);
    FirstInFront(m, t, end, |m| - |end|);
    CutOf(h, m, t, begin, end, |m| - |end|);
  }

  /** The result of a splice, cut again, gives back what was kept. */
  lemma CutOfJoin(head: string, block: string, tail: string, begin: string, end: string)
    requires Marker(begin) && Marker(end) && IsBlock(block, begin, end) && !Contains(RStrip(head), begin)
    ensures var text := Join(head, block, tail);
            && Contains(text, begin) && Contains(text, end)
            && CutAt(text, begin, end) == Cut(RStrip(head) + "\n\n", Trailer(tail))
  {
    CutOfSplice(RStrip(head), block, Trailer(tail), begin, end);
  }

  /** Whatever the text was, the spliced text holds both markers. */
  lemma SplicedHasMarkers(text: string, block: string, begin: string, end: string)
    requires Marker(begin) && Marker(end) && IsBlock(Strip(block), begin, end)
    ensures Contains(Apply(text, block, begin, end), begin) && Contains(Apply(text, block, begin, end), end)
  {
    var b, kept := Strip(block), Kept(text, begin, end);
    ApplyJoins(text, block, begin, end);
    BlockHasMarkers(RStrip(kept.head) + "\n\n", b, Trailer(kept.tail), begin, end);
  }

  lemma BlockHasMarkers(h: string, b: string, t: string, begin: string, end: string)
    requires IsBlock(b, begin, end)
    ensures Contains(h + (b + t), begin) && Contains(h + (b + t), end)
  {
    EndInBlock(b, begin, end);
    var n := |b| - |end|;
    assert b[n..] == b[|begin|..][n - |begin|..];
    assert b[n..n + |end|] == end && b[..|begin|] == begin;
    assert (h + (b + t))[|h|..|h| + |begin|] == begin;
    assert (h + (b + t))[|h| + n..|h| + n + |end|] == end;
    assert OccursAt(h + (b + t), begin, |h|) && OccursAt(h + (b + t), end, |h| + n);
  }

  lemma RStripLacks(s: string, p: string)
    requires !Contains(s, p)
    ensures !Contains(RStrip(s), p)
  {
    var r := RStrip(s);
    RStripKeeps(s);
    assert s == "" + r + s[|r|..];
    PartLacks("", r, s[|r|..], p);
  }

  // ------------------------------------------------------------- idempotence

  /** The text names the begin marker but nowhere an end marker. */
  predicate Orphaned(text: string, begin: string, end: string) {
    Contains(text, begin) && !Contains(text, end)
  }

  lemma KeptHeadLacks(text: string, begin: string, end: string)
    requires Marker(begin) && !Orphaned(text, begin, end)
    ensures !Contains(RStrip(Kept(text, begin, end).head), begin)
  {
    if Contains(text, begin) { HeadLacks(text, begin, Find(text, begin).value); }
    RStripLacks(Kept(text, begin, end).head, begin);
  }

  lemma SpliceTwice(text: string, block: string, begin: string, end: string)
    requires Marker(begin) && Marker(end) && IsBlock(Strip(block), begin, end)
    requires !Orphaned(text, begin, end)
    ensures var once := Apply(text, block, begin, end); Apply(once, block, begin, end) == once
  {
    var kept := Kept(text, begin, end);
    ApplyJoins(text, block, begin, end);
    KeptHeadLacks(text, begin, end);
    CutOfJoin(kept.head, Strip(block), kept.tail, begin, end);
    RStripKeeps(kept.head);
    RStripNewline(RStrip(kept.head));
    StripTrailer(kept.tail);
  }

  /** The first begin marker of a stripped text is that of the text. */
  lemma MarkerSurvives(text: string, p: string, i: nat)
    requires Marker(p) && FirstAt(text, p, i)
    ensures FirstAt(RStrip(text), p, i)
  {
    var t := RStrip(text);
    RStripKeeps(text);
    if i + |p| > |t| { NoStraddle(text, p, i, i + |p| - 1); }
    assert text == t + text[|t|..];
    FirstOfFront(t, text[|t|..], p, i);
  }

  lemma SpliceTwiceLosesText(text: string, block: string, begin: string, end: string)
    requires Marker(begin) && Marker(end) && IsBlock(Strip(block), begin, end)
    requires Orphaned(text, begin, end)
    ensures var once := Apply(text, block, begin, end);
            |Apply(once, block, begin, end)| < |once|
  {
    var b, t, i := Strip(block), RStrip(text), Find(text, begin).value;
    MarkerSurvives(text, begin, i);
    var before, gap := t[..i], t[i + |begin|..];
    assert t == before + begin + gap;
    RStripLacks(text, end);
    AppendedEndCloses(before, gap, b, begin, end);
    StripNewline();
    RStripKeeps(before);
  }

  /** The end marker of a block appended behind an orphaned begin marker closes
      that marker: cutting again keeps only what is before it. */
  lemma AppendedEndCloses(before: string, gap: string, b: string, begin: string, end: string)
    requires Marker(begin) && Marker(end) && IsBlock(b, begin, end)
    requires FirstAt(before + begin + gap, begin, |before|) && !Contains(before + begin + gap, end)
    ensures var text := before + begin + gap + "\n\n" + (b + "\n");
            && Contains(text, begin) && Contains(text, end)
            && CutAt(text, begin, end) == Cut(before, "\n")
  {
    var region := gap + "\n\n" + b;
    Regrouped(before, begin, gap, b);
    RegionCloses(before + begin, gap, b, end);
    FirstInFront(before + begin + gap, "\n\n" + b, begin, |before|);
    CutOfOrphan(before, region, begin, end);
  }

  lemma Regrouped(before: string, begin: string, gap: string, b: string)
    ensures var region := gap + "\n\n" + b;
            && before + begin + region == before + begin + gap + ("\n\n" + b)
            && before + (begin + (region + "\n")) == before + begin + gap + "\n\n" + (b + "\n")
  {
  }

  lemma RegionCloses(front: string, gap: string, b: string, end: string)
    requires Marker(end) && |b| >= |end| && FirstAt(b, end, |b| - |end|) && !Contains(front + gap, end)
    ensures var region := gap + "\n\n" + b;
            |region| >= |end| && FirstAt(region + "\n", end, |region| - |end|)
  {
    assert front + gap + "" == front + gap;
    PartLacks(front, gap, "", end);
    FirstInFront(b, "\n", end, |b| - |end|);
    FirstBehind(gap, b + "\n", end, |b| - |end|);
    assert gap + "\n\n" + b + "\n" == gap + "\n\n" + (b + "\n");
  }

  /** Cutting a text whose first begin marker follows `before` and whose first end
      marker after that closes `region`. */
  lemma CutOfOrphan(before: string, region: string, begin: string, end: string)
    requires Marker(begin) && Marker(end)
    requires FirstAt(before + begin + region, begin, |before|)
    requires |region| >= |end| && FirstAt(region + "\n", end, |region| - |end|)
    ensures var text := before + (begin + (region + "\n"));
            && Contains(text, begin) && Contains(text, end)
            && CutAt(text, begin, end) == Cut(before, "\n")
  {
    var text := before + (begin + (region + "\n"));
    assert text == before + begin + region + "\n";
    FirstInFront(before + begin + region, "\n", begin, |before|);
    FindIsFirst(text, begin, |before|);
    assert text[|before| + |begin|..] == region + "\n";
    FindIsFirst(region + "\n", end, |region| - |end|);
    assert (region + "\n")[|region|..] == "\n";
    OccursRight(before + begin, region + "\n", end, |region| - |end|);
    assert text == before + begin + (region + "\n");
  }

  /** Splicing is idempotent exactly when the text does not name the begin marker
      without an end marker; then a second run would drop what lies between. */
  lemma IdempotentIff(text: string, block: string, begin: string, end: string)
    requires Marker(begin) && Marker(end) && IsBlock(Strip(block), begin, end)
    ensures var once := Apply(text, block, begin, end);
            Apply(once, block, begin, end) == once <==> !Orphaned(text, begin, end)
  {
    if Orphaned(text, begin, end) {
      SpliceTwiceLosesText(text, block, begin, end);
    } else {
      SpliceTwice(text, block, begin, end);
    }
  }

  // ----------------------------------------------------------------- checker

  /** The gate's comparison: the first begin marker, the first end marker of the
      whole text, and the block between them. */
  predicate Passes(readme: string, expected: string, begin: string, end: string) {
    var i, j := Find(readme, begin), Find(readme, end);
    && i.Some? && j.Some? && i.value <= j.value
    && Strip(readme[i.value..j.value + |end|]) == Strip(expected)
  }

  lemma StripClean(b: string)
    requires StartsClean(b) && EndsClean(b)
    ensures Strip(b) == b
  {
  }

  lemma BlockPasses(h: string, block: string, rest: string, begin: string, end: string)
    requires Marker(begin) && Marker(end) && IsBlock(Strip(block), begin, end)
    requires !Contains(h, begin) && !Contains(h, end)
    ensures Passes(h + "\n\n" + (Strip(block) + rest), block, begin, end)
  {
    var b := Strip(block);
    var text := h + "\n\n" + (b + rest);
    FoundInBlock(h, b, rest, begin, end);
    assert Find(text, begin) == Some(|h| + 2) by { FindIsFirst(text, begin, |h| + 2); }
    assert Find(text, end) == Some(|h| + 2 + |b| - |end|) by { FindIsFirst(text, end, |h| + 2 + |b| - |end|); }
    assert text[|h| + 2..|h| + 2 + |b|] == b;
    assert Strip(b) == b by {
      StripIsClean(block);
      StripClean(b);
    }
  }

  /** Both markers are first found in a block behind a head that lacks them. */
  lemma FoundInBlock(h: string, b: string, rest: string, begin: string, end: string)
    requires Marker(begin) && Marker(end) && IsBlock(b, begin, end) && !Contains(h, begin) && !Contains(h, end)
    ensures var text := h + "\n\n" + (b + rest);
            FirstAt(text, begin, |h| + 2) && FirstAt(text, end, |h| + 2 + |b| - |end|)
  {
    var t := b + rest;
    assert FirstAt(t, begin, 0) by { assert t[..|begin|] == b[..|begin|]; }
    FirstBehind(h, t, begin, 0);
    FirstInFront(b, rest, end, |b| - |end|);
    FirstBehind(h, t, end, |b| - |end|);
  }

  /** An end marker before the block makes the gate refuse what the generator
      itself wrote. */
  lemma EarlyEndFails(h: string, t: string, expected: string, begin: string, end: string, k: nat)
    requires Marker(begin) && Marker(end) && !Contains(h, begin) && FirstAt(h, end, k) && FirstAt(t, begin, 0)
    ensures !Passes(h + "\n\n" + t, expected, begin, end)
  {
    FirstBehind(h, t, begin, 0);
    FindIsFirst(h + "\n\n" + t, begin, |h| + 2);
    assert h + "\n\n" + t == h + ("\n\n" + t);
    FirstInFront(h, "\n\n" + t, end, k);
    FindIsFirst(h + "\n\n" + t, end, k);
  }

  lemma OrphanFails(t: string, block: string, begin: string, end: string, k: nat)
    requires Marker(begin) && Marker(end) && IsBlock(Strip(block), begin, end)
    requires FirstAt(t, begin, k) && !Contains(t, end)
    ensures !Passes(t + "\n\n" + (Strip(block) + "\n"), block, begin, end)
  {
    var b := Strip(block);
    var text := t + "\n\n" + (b + "\n");
    FoundAround(t, b, begin, end, k);
    FindIsFirst(text, begin, k);
    FindIsFirst(text, end, |t| + 2 + |b| - |end|);
    CommittedIsClean(t, b, begin, end, k);
    StripClean(text[k..|t| + 2 + |b|]);
  }

  lemma FoundAround(t: string, b: string, begin: string, end: string, k: nat)
    requires Marker(begin) && Marker(end) && IsBlock(b, begin, end) && FirstAt(t, begin, k) && !Contains(t, end)
    ensures var text := t + "\n\n" + (b + "\n");
            FirstAt(text, begin, k) && FirstAt(text, end, |t| + 2 + |b| - |end|)
  {
    var rest := b + "\n";
    assert t + "\n\n" + rest == t + ("\n\n" + rest);
    FirstInFront(t, "\n\n" + rest, begin, k);
    FirstInFront(b, "\n", end, |b| - |end|);
    FirstBehind(t, rest, end, |b| - |end|);
  }

  lemma CommittedIsClean(t: string, b: string, begin: string, end: string, k: nat)
    requires Marker(begin) && Marker(end) && IsBlock(b, begin, end) && OccursAt(t, begin, k)
    ensures var c := (t + "\n\n" + (b + "\n"))[k..|t| + 2 + |b|];
            |c| > |b| && StartsClean(c) && EndsClean(c)
  {
    assert t[k] == t[k..k + |begin|][0] == begin[0];
    assert b[|b| - 1] == b[|b| - |end|..][|end| - 1] == end[|end| - 1];
  }

  /** The gate accepts the spliced text exactly when no end marker stands before
      the block and the begin marker was not orphaned. */
  lemma PassesIff(text: string, block: string, begin: string, end: string)
    requires Marker(begin) && Marker(end) && IsBlock(Strip(block), begin, end)
    ensures Passes(Apply(text, block, begin, end), block, begin, end) <==>
            !Orphaned(text, begin, end) && !Contains(Kept(text, begin, end).head, end)
  {
    var kept, b := Kept(text, begin, end), Strip(block);
    var h := RStrip(kept.head);
    if Orphaned(text, begin, end) {
      var i := Find(text, begin).value;
      MarkerSurvives(text, begin, i);
      RStripLacks(text, end);
      OrphanFails(h, block, begin, end, i);
    } else {
      ApplyJoins(text, block, begin, end);
      KeptHeadLacks(text, begin, end);
      if Contains(kept.head, end) {
        MarkerSurvives(kept.head, end, Find(kept.head, end).value);
        var t := b + Trailer(kept.tail);
        assert FirstAt(t, begin, 0) by { assert t[..|begin|] == b[..|begin|]; }
        EarlyEndFails(h, t, block, begin, end, Find(kept.head, end).value);
      } else {
        RStripLacks(kept.head, end);
        BlockPasses(h, block, Trailer(kept.tail), begin, end);
      }
    }
  }

  // ---------------------------------------------------- the other generator

  /** What the gate reads as the block between two markers. */
  function Between(text: string, begin: string, end: string): Option<string> {
    var i, j := Find(text, begin), Find(text, end);
    if i.None? || j.None? || j.value < i.value then None else Some(text[i.value..j.value + |end|])
  }

  lemma BetweenIs(text: string, begin: string, end: string, i: nat, j: nat)
    requires FirstAt(text, begin, i) && FirstAt(text, end, j) && i <= j
    ensures Between(text, begin, end) == Some(text[i..j + |end|])
  {
    FindIsFirst(text, begin, i);
    FindIsFirst(text, end, j);
  }

  /** Words first found in the kept head are found there after the splice. */
  lemma FoundInHead(text: string, head: string, block: string, tail: string, p: string, k: nat)
    requires Marker(p) && head <= text && FirstAt(text, p, k) && k + |p| <= |head|
    ensures FirstAt(Join(head, block, tail), p, k) && k + |p| <= |RStrip(head)| && RStrip(head) <= text
  {
    assert text == head + text[|head|..];
    FirstOfFront(head, text[|head|..], p, k);
    MarkerSurvives(head, p, k);
    RStripKeeps(head);
    var h, rest := RStrip(head), block + Trailer(tail);
    assert h + "\n\n" + rest == h + ("\n\n" + rest);
    FirstInFront(h, "\n\n" + rest, p, k);
  }

  /** How far stripping shifts a tail. */
  function Lead(tail: string): int { |tail| - |LStrip(tail)| }

  lemma FoundInStrip(tail: string, p: string, k: nat)
    requires Marker(p) && FirstAt(tail, p, k)
    ensures k >= Lead(tail) >= 0 && FirstAt(Strip(tail), p, k - Lead(tail)) && Strip(tail) != ""
    ensures Lead(tail) + |Strip(tail)| <= |tail|
    ensures Strip(tail) == tail[Lead(tail)..Lead(tail) + |Strip(tail)|]
  {
    var m, n := LStrip(tail), Lead(tail);
    LStripKeeps(tail);
    RStripKeeps(m);
    if k < n { NoStraddle(tail, p, k, k); }
    assert tail == tail[..n] + m;
    forall j | 0 <= j <= k - n ensures OccursAt(m, p, j) <==> OccursAt(tail, p, n + j) {
      OccursRight(tail[..n], m, p, j);
    }
    MarkerSurvives(m, p, k - n);
  }

  /** Words first found in the kept tail move with it. */
  lemma FoundInTail(head: string, block: string, tail: string, p: string, k: nat)
    requires Marker(p) && FirstAt(tail, p, k) && !Contains(RStrip(head), p) && !Contains(block, p)
    ensures FirstAt(Join(head, block, tail), p, |RStrip(head)| + |block| + 4 + k - Lead(tail))
  {
    var h, s, n := RStrip(head), Strip(tail), k - Lead(tail);
    assert n >= 0 && s != "" && FirstAt(s, p, n) by { FoundInStrip(tail, p, k); }
    assert FirstAt(h + "\n\n" + (block + Trailer(tail)), p, |h| + |block| + 4 + n) by {
      FoundBehindStripped(h, block, tail, s, p, n);
    }
  }

  lemma FoundBehindStripped(h: string, b: string, tail: string, s: string, p: string, k: nat)
    requires s == Strip(tail) && s != "" && Marker(p) && FirstAt(s, p, k) && !Contains(h, p) && !Contains(b, p)
    ensures FirstAt(h + "\n\n" + (b + Trailer(tail)), p, |h| + |b| + 4 + k)
  {
    FoundBehindTwo(h, b, s, p, k);
  }

  lemma FoundBehindTwo(h: string, b: string, s: string, p: string, k: nat)
    requires Marker(p) && FirstAt(s, p, k) && !Contains(h, p) && !Contains(b, p)
    ensures FirstAt(h + "\n\n" + (b + ("\n\n" + s + "\n")), p, |h| + |b| + 4 + k)
  {
    FirstInFront(s, "\n", p, k);
    FirstBehind(b, s + "\n", p, k);
    assert b + ("\n\n" + s + "\n") == b + "\n\n" + (s + "\n");
    FirstBehind(h, b + ("\n\n" + s + "\n"), p, |b| + 2 + k);
  }

  /** The block between markers first found at `i` and `j` lies in one of the
      kept parts. */
  predicate Apart(text: string, kept: Cut, begin: string, end: string, i: nat, j: nat) {
    || (i + |begin| <= |kept.head| && j + |end| <= |kept.head|)
    || i >= |text| - |kept.tail|
  }

  /** A splice leaves the block between another generator's markers exactly as it
      was, wherever outside the replaced block it lies, so whatever that
      generator's gate said of it still holds. */
  lemma OtherBlockKept(text: string, block: string, begin: string, end: string,
                       begin': string, end': string, i: nat, j: nat)
    requires Marker(begin') && Marker(end')
    requires FirstAt(text, begin', i) && FirstAt(text, end', j) && i <= j
    requires Apart(text, Kept(text, begin, end), begin', end', i, j)
    requires !Contains(Strip(block), begin') && !Contains(Strip(block), end')
    ensures Between(Apply(text, block, begin, end), begin', end') == Between(text, begin', end')
  {
    var kept := Kept(text, begin, end);
    ApplyJoins(text, block, begin, end);
    KeptParts(text, begin, end);
    if i >= |text| - |kept.tail| {
      OtherInTail(text, kept, Strip(block), begin', end', i, j);
    } else {
      OtherInHead(text, kept, Strip(block), begin', end', i, j);
    }
  }

  lemma MovedBlock(to: string, text: string, begin: string, end: string, i: nat, j: nat, e: nat,
                   i': int, j': int, e': int)
    requires FirstAt(text, begin, i) && FirstAt(text, end, j) && i <= j && e == j + |end|
    requires MovedTo(to, text, begin, end, i, e, i', j', e') && i' <= j' && e' == j' + |end|
    ensures Between(to, begin, end) == Between(text, begin, end)
  {
    assert Between(text, begin, end) == Stretch(text, i, e) by { BetweenIs(text, begin, end, i, j); }
    assert Between(to, begin, end) == Stretch(to, i', e') by { BetweenIs(to, begin, end, i', j'); }
  }

  /** The kept parts are a front part and a back part of the text. */
  lemma KeptParts(text: string, begin: string, end: string)
    ensures var kept := Kept(text, begin, end);
            SplitText(text, kept)
  {
  }

  lemma OtherInHead(text: string, kept: Cut, b: string, begin': string, end': string, i: nat, j: nat)
    requires Marker(begin') && Marker(end') && kept.head <= text
    requires FirstAt(text, begin', i) && FirstAt(text, end', j) && i <= j && j + |end'| <= |kept.head|
    requires i + |begin'| <= |kept.head|
    ensures Between(Join(kept.head, b, kept.tail), begin', end') == Between(text, begin', end')
  {
    FoundInHead(text, kept.head, b, kept.tail, begin', i);
    FoundInHead(text, kept.head, b, kept.tail, end', j);
    HeadSlice(RStrip(kept.head), b + Trailer(kept.tail), text, i, j + |end'|);
    MovedBlock(Join(kept.head, b, kept.tail), text, begin', end', i, j, j + |end'|, i, j, j + |end'|);
  }

  lemma HeadSlice(h: string, rest: string, text: string, from: nat, to: nat)
    requires h <= text && from <= to <= |h|
    ensures (h + "\n\n" + rest)[from..to] == text[from..to]
  {
  }

  lemma OtherInTail(text: string, kept: Cut, b: string, begin': string, end': string, i: nat, j: nat)
    requires Marker(begin') && Marker(end') && SplitText(text, kept)
    requires FirstAt(text, begin', i) && FirstAt(text, end', j) && |text| - |kept.tail| <= i <= j
    requires !Contains(b, begin') && !Contains(b, end')
    ensures Between(Join(kept.head, b, kept.tail), begin', end') == Between(text, begin', end')
  {
    var shift, e := TailShift(text, kept, b), j + |end'|;
    TailMoves(text, kept, b, begin', end', i, j, i + shift, j + shift, e, e + shift);
  }

  lemma TailMoves(text: string, kept: Cut, b: string, begin': string, end': string, i: nat, j: nat,
                  i': int, j': int, e: nat, e': int)
    requires Marker(begin') && Marker(end') && SplitText(text, kept)
    requires FirstAt(text, begin', i) && FirstAt(text, end', j) && |text| - |kept.tail| <= i <= j
    requires !Contains(b, begin') && !Contains(b, end')
    requires i' == i + TailShift(text, kept, b) && j' == j + TailShift(text, kept, b)
    requires e == j + |end'| && e' == e + TailShift(text, kept, b)
    ensures Between(Join(kept.head, b, kept.tail), begin', end') == Between(text, begin', end')
  {
    TailWordMoves(text, kept, b, begin', i, i');
    TailWordMoves(text, kept, b, end', j, j');
    var lo := TailStart(text, kept);
    StretchKept(text, kept, begin', end', lo, i, j, e);
    TailStretch(text, kept, b, lo, i, e, i', e');
    MovedBlock(Join(kept.head, b, kept.tail), text, begin', end', i, j, e, i', j', e');
  }

  lemma StretchKept(text: string, kept: Cut, begin': string, end': string, lo: int, i: nat, j: nat, e: nat)
    requires Marker(begin') && Marker(end') && SplitText(text, kept)
    requires FirstAt(text, begin', i) && FirstAt(text, end', j) && |text| - |kept.tail| <= i <= j
    requires e == j + |end'| && lo == TailStart(text, kept)
    ensures InStripped(text, kept, lo, i, e)
  {
    TailWordKept(text, kept, lo, begin', i);
    TailWordKept(text, kept, lo, end', j);
    StretchBoth(text, kept, lo, i, i + |begin'|, j, e);
  }

  /** The stretch of a text from `i` to `j`, where there is one. */
  function Stretch(s: string, i: int, j: int): Option<string> {
    if 0 <= i <= j <= |s| then Some(s[i..j]) else None
  }

  lemma StretchBoth(text: string, kept: Cut, lo: int, from: int, x: int, y: int, to: int)
    requires InStripped(text, kept, lo, from, x) && InStripped(text, kept, lo, y, to)
    ensures InStripped(text, kept, lo, from, to)
  {
  }

  function TailShift(text: string, kept: Cut, b: string): int {
    |RStrip(kept.head)| + |b| + 4 - Lead(kept.tail) - (|text| - |kept.tail|)
  }

  /** Where the stripped tail starts in the text. */
  function TailStart(text: string, kept: Cut): int { |text| - |kept.tail| + Lead(kept.tail) }

  /** The stretch of the text survives stripping the tail, which starts at `lo`. */
  predicate InStripped(text: string, kept: Cut, lo: int, from: int, to: int) {
    var s := Strip(kept.tail);
    lo == TailStart(text, kept) && s != "" && 0 <= lo <= from && to <= lo + |s| <= |text| && s == text[lo..lo + |s|]
  }

  predicate SplitText(text: string, kept: Cut) {
    kept.head <= text && |kept.head| + |kept.tail| <= |text| && kept.tail == text[|text| - |kept.tail|..]
  }

  lemma TailWordMoves(text: string, kept: Cut, b: string, p: string, k: nat, k': int)
    requires Marker(p) && SplitText(text, kept)
    requires FirstAt(text, p, k) && |text| - |kept.tail| <= k && !Contains(b, p)
    requires k' == k + TailShift(text, kept, b)
    ensures FirstAt(Join(kept.head, b, kept.tail), p, k')
  {
    InTailOnly(text, kept, p, k);
    FoundInTail(kept.head, b, kept.tail, p, k - (|text| - |kept.tail|));
  }

  lemma TailWordKept(text: string, kept: Cut, lo: int, p: string, k: nat)
    requires Marker(p) && SplitText(text, kept)
    requires FirstAt(text, p, k) && |text| - |kept.tail| <= k && lo == TailStart(text, kept)
    ensures InStripped(text, kept, lo, k, k + |p|)
  {
    var c := |text| - |kept.tail|;
    InTailOnly(text, kept, p, k);
    FoundInStrip(kept.tail, p, k - c);
    StrippedSlice(text, c, kept.tail, Lead(kept.tail), Strip(kept.tail), lo);
  }

  lemma StrippedSlice(text: string, c: nat, tail: string, lead: nat, s: string, lo: nat)
    requires c <= |text| && tail == text[c..] && lead + |s| <= |tail| && s == tail[lead..lead + |s|] && lo == c + lead
    ensures lo + |s| <= |text| && s == text[lo..lo + |s|]
  {
    assert text[c..] == text[c..|text|];
    SliceOfSlice(text, c, |text|, lead, lead + |s|);
  }

  lemma TailStretch(text: string, kept: Cut, b: string, lo: int, from: nat, to: nat, from': int, to': int)
    requires from <= to && InStripped(text, kept, lo, from, to)
    requires from' == from + TailShift(text, kept, b) && to' == to + TailShift(text, kept, b)
    ensures to <= |text| && Stretch(Join(kept.head, b, kept.tail), from', to') == Stretch(text, from, to)
  {
    TailSlice(RStrip(kept.head), b, Strip(kept.tail), text, lo, from, to);
  }

  /** The markers are first found at `i'` and `j'`, and the stretch from `i` to `e`
      is now the one from `i'` to `e'`. */
  predicate MovedTo(to: string, text: string, begin: string, end: string, i: nat, e: nat, i': int, j': int, e': int) {
    && i <= e <= |text| && FirstAt(to, begin, i') && FirstAt(to, end, j')
    && Stretch(to, i', e') == Stretch(text, i, e)
  }

  lemma TailSlice(h: string, b: string, s: string, text: string, lo: nat, from: nat, to: nat)
    requires lo <= from <= to <= lo + |s| <= |text| && s == text[lo..lo + |s|]
    ensures var k := |h| + |b| + 4 - lo;
            (h + "\n\n" + (b + ("\n\n" + s + "\n")))[k + from..k + to] == text[from..to]
  {
    SliceOfMiddle(h, b, s, from - lo, to - lo);
    SliceOfSlice(text, lo, lo + |s|, from - lo, to - lo);
  }

  lemma SliceOfSlice(t: string, lo: nat, hi: nat, from: nat, to: nat)
    requires lo <= hi <= |t| && from <= to <= hi - lo
    ensures t[lo..hi][from..to] == t[lo + from..lo + to]
  {
    var s := t[lo..hi];
    assert forall x | 0 <= x < |s| :: s[x] == t[lo + x];
  }

  lemma SliceOfMiddle(h: string, b: string, s: string, from: nat, to: nat)
    requires from <= to <= |s|
    ensures var k := |h| + |b| + 4;
            (h + "\n\n" + (b + ("\n\n" + s + "\n")))[k + from..k + to] == s[from..to]
  {
    assert h + "\n\n" + (b + ("\n\n" + s + "\n")) == (h + "\n\n" + b + "\n\n") + (s + "\n");
  }

  lemma InTailOnly(text: string, kept: Cut, p: string, k: nat)
    requires p != "" && kept.head <= text && |kept.head| + |kept.tail| <= |text|
    requires kept.tail == text[|text| - |kept.tail|..] && FirstAt(text, p, k) && k >= |text| - |kept.tail|
    ensures FirstAt(kept.tail, p, k - (|text| - |kept.tail|)) && !Contains(RStrip(kept.head), p)
  {
    var c := |text| - |kept.tail|;
    assert text == text[..c] + kept.tail;
    forall j | 0 <= j <= k - c ensures OccursAt(kept.tail, p, j) <==> OccursAt(text, p, c + j) {
      OccursRight(text[..c], kept.tail, p, j);
    }
    assert text == kept.head + text[|kept.head|..];
    if Contains(kept.head, p) {
      var j :| 0 <= j <= |kept.head| && OccursAt(kept.head, p, j);
      OccursLeft(kept.head, text[|kept.head|..], p, j);
      assert false;
    }
    RStripLacks(kept.head, p);
  }
}
