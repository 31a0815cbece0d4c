/** The text interface of the fault plane: the words written to arm a fault and
    the match id printed back in the status file. */
module WbcanAbi {
  import opened Text
  import opened Wbcan

  const U32_LIMIT := 0x1_0000_0000

  /** The kernel's `kstrtou32`: an optional plus sign, an optional `0x` before a
      hexadecimal number, at least one digit, at most one newline at the end. */
  function Kstrtou32(s: string, b: nat): Option<nat>
    requires Base(b)
  {
    var t := if s != "" && s[0] == '+' then s[1..] else s;
    var u := if b == 16 && |t| >= 2 && t[0] == '0' && (t[1] == 'x' || t[1] == 'X') then t[2..] else t;
    var v := if u != "" && u[|u| - 1] == '\n' then u[..|u| - 1] else u;
    if v == "" || !AllDigits(v, b) || Value(v, b) >= U32_LIMIT then None else Some(Value(v, b))
  }

  lemma PlainNumeral(n: nat, b: nat)
    requires Base(b) && n < U32_LIMIT
    ensures Kstrtou32(Render(n, b), b) == Some(n)
  {
    ValueOfRender(n, b);
    PlainDigits(Render(n, b), b);
  }

  lemma PlainDigits(s: string, b: nat)
    requires Base(b) && s != "" && AllDigits(s, b) && Value(s, b) < U32_LIMIT
    ensures Kstrtou32(s, b) == Some(Value(s, b))
  {
    DigitIsPlain(s[0], b);
    DigitIsPlain(s[|s| - 1], b);
    if |s| >= 2 { DigitIsPlain(s[1], b); }
  }

  lemma DigitIsPlain(c: char, b: nat)
    requires Base(b) && DigitValue(c) < b
    ensures c != '+' && c != 'x' && c != 'X' && c != '\n'
  {
  }

  /** The kernel's `sysfs_streq`: equal, forgiving one trailing newline. */
  predicate SysfsEqual(s: string, t: string) {
    s == t || s == t + "\n" || t == s + "\n"
  }

  // ---------------------------------------------------------------- match id

  datatype Match = Match(matchAny: bool, matchId: CanId)

  predicate HasPrefix(s: string, p: string) {
    |p| <= |s| && s[..|p|] == p
  }

  function ParseMatchId(value: string): Option<Match> {
    if SysfsEqual(value, "any") || SysfsEqual(value, "ffff") then Some(Match(true, NO_ID))
    else if HasPrefix(value, "s:") then Classify(Kstrtou32(value[2..], 16), SFF_LIMIT, false)
    else if HasPrefix(value, "e:") then Classify(Kstrtou32(value[2..], 16), EFF_LIMIT, true)
    else
      var id := Kstrtou32(value, 16);
      Classify(id, EFF_LIMIT, id.Some? && id.value >= SFF_LIMIT)
  }

  function Classify(id: Option<nat>, limit: nat, extended: bool): Option<Match> {
    if id.None? || id.value >= limit then None
    else Some(Match(false, CanId(extended, false, false, id.value)))
  }

  function PrintMatchId(m: Match): string {
    if m.matchAny then "any"
    else (if m.matchId.extended then "e:" else "s:") + Render(m.matchId.bits, 16)
  }

  /** The settings a match id can have: anything, or exactly one normalised key. */
  predicate MatchOk(m: Match) {
    if m.matchAny then m.matchId == NO_ID else m.matchId.bits < EFF_LIMIT && MatchKey(m.matchId) == m.matchId
  }

  /** Every id the parser produces is a fixed point of the key a frame is
      compared by, so an armed id can be matched at all. */
  lemma ParsedIdsAreKeys(value: string)
    requires ParseMatchId(value).Some?
    ensures MatchOk(ParseMatchId(value).value)
  {
    if HasPrefix(value, "s:") {
      ClassifiedIsKey(Kstrtou32(value[2..], 16), SFF_LIMIT, false);
    } else if HasPrefix(value, "e:") {
      ClassifiedIsKey(Kstrtou32(value[2..], 16), EFF_LIMIT, true);
    } else {
      var id := Kstrtou32(value, 16);
      ClassifiedIsKey(id, EFF_LIMIT, id.Some? && id.value >= SFF_LIMIT);
    }
  }

  lemma ClassifiedIsKey(id: Option<nat>, limit: nat, extended: bool)
    requires limit <= EFF_LIMIT && (extended || limit <= SFF_LIMIT || (id.Some? ==> id.value < SFF_LIMIT))
    ensures Classify(id, limit, extended).Some? ==> MatchOk(Classify(id, limit, extended).value)
  {
  }

  /** What the status file prints can be written back and means the same. */
  lemma PrintedIdParsesBack(m: Match)
    requires MatchOk(m)
    ensures ParseMatchId(PrintMatchId(m)) == Some(m)
  {
    if !m.matchAny {
      PlainNumeral(m.matchId.bits, 16);
      PrefixedNumber(Render(m.matchId.bits, 16), m.matchId.extended);
    }
  }

  lemma PrefixedNumber(digits: string, extended: bool)
    ensures ParseMatchId((if extended then "e:" else "s:") + digits) ==
            Classify(Kstrtou32(digits, 16), if extended then EFF_LIMIT else SFF_LIMIT, extended)
  {
    var prefix := if extended then "e:" else "s:";
    var text := prefix + digits;
    assert text[0] == prefix[0] && text[1] == ':' && text[..2] == prefix && text[2..] == digits;
    assert "any"[1] == 'n' && "any\n"[1] == 'n' && "ffff"[1] == 'f' && "ffff\n"[1] == 'f';
    assert !SysfsEqual(text, "any") && !SysfsEqual(text, "ffff");
  }

  // ------------------------------------------------------------- arm command

  function FaultName(f: Fault): string {
    match f
    case NoFault => "none"
    case DropTx => "drop-tx"
    case DropRx => "drop-rx"
    case BitFlip => "bit-flip"
    case GoBusOff => "bus-off"
    case TxFull => "tx-full"
    case ArbLost => "arb-lost"
    case StuffErr => "stuff-err"
  }

  const FAULTS: seq<Fault> := [NoFault, DropTx, DropRx, BitFlip, GoBusOff, TxFull, ArbLost, StuffErr]

  /** The first mode, in the order of the enumeration, whose name is written. */
  function NamedFault(name: string, from: nat): Option<Fault>
    requires from <= |FAULTS|
    decreases |FAULTS| - from
  {
    if from == |FAULTS| then None
    else if SysfsEqual(name, FaultName(FAULTS[from])) then Some(FAULTS[from])
    else NamedFault(name, from + 1)
  }

  function ParseArm(argv: seq<string>): Option<Setting> {
    if |argv| < 1 then None
    else match NamedFault(argv[0], 0)
      case None => None
      case Some(fault) =>
        if fault.NoFault? then
          if |argv| > 2 || (|argv| == 2 && Kstrtou32(argv[1], 10) != Some(0)) then None
          else Some(Setting(NoFault, 0, 0, true, NO_ID, 0, 0))
        else if (if fault.BitFlip? then |argv| != 6 else |argv| < 2 || |argv| > 4) then None
        else
          BuildSetting(fault,
                       Kstrtou32(argv[1], 10),
                       if |argv| >= 3 then Kstrtou32(argv[2], 10) else Some(0),
                       if |argv| >= 4 then ParseMatchId(argv[3]) else Some(Match(true, NO_ID)),
                       if fault.BitFlip? then Kstrtou32(argv[4], 10) else Some(0),
                       if fault.BitFlip? then Kstrtou32(argv[5], 10) else Some(0))
  }

  function BuildSetting(fault: Fault, count: Option<nat>, after: Option<nat>, id: Option<Match>,
                        byte: Option<nat>, bit: Option<nat>): Option<Setting>
  {
    if count.None? || count.value == 0 || after.None? || id.None? then None
    else if byte.None? || byte.value > 7 || bit.None? || bit.value > 7 then None
    else Some(Setting(fault, count.value, after.value, id.value.matchAny, id.value.matchId, byte.value, bit.value))
  }

  /** The settings that can be armed. */
  predicate SettingOk(s: Setting) {
    && s.count < U32_LIMIT && s.after < U32_LIMIT
    && MatchOk(Match(s.matchAny, s.matchId))
    && s.flipByte < 8 && s.flipBit < 8
    && (s.fault.NoFault? <==> s.count == 0)
    && (s.fault.NoFault? ==> s.after == 0 && s.matchAny)
    && (!s.fault.BitFlip? ==> s.flipByte == 0 && s.flipBit == 0)
  }

  lemma ParsedSettingsAreSound(argv: seq<string>)
    requires ParseArm(argv).Some?
    ensures SettingOk(ParseArm(argv).value)
  {
    var fault := NamedFault(argv[0], 0).value;
    if !fault.NoFault? && |argv| >= 4 { ParsedIdsAreKeys(argv[3]); }
  }

  function ArmCommand(s: Setting): seq<string> {
    if s.fault.NoFault? then ["none"]
    else
      [FaultName(s.fault), Render(s.count, 10), Render(s.after, 10), PrintMatchId(Match(s.matchAny, s.matchId))]
      + if s.fault.BitFlip? then [Render(s.flipByte, 10), Render(s.flipBit, 10)] else []
  }

  lemma NameReadsBack(f: Fault)
    ensures NamedFault(FaultName(f), 0) == Some(f)
  {
    assert f in FAULTS by {
      assert FAULTS[0] == NoFault && FAULTS[1] == DropTx && FAULTS[2] == DropRx && FAULTS[3] == BitFlip;
      assert FAULTS[4] == GoBusOff && FAULTS[5] == TxFull && FAULTS[6] == ArbLost && FAULTS[7] == StuffErr;
    }
    var k :| 0 <= k < |FAULTS| && FAULTS[k] == f;
    NameSkipsTo(f, 0, k);
  }

  /** No earlier mode shares the name: names differ in their first seven
      characters, newline or not. */
  lemma NameSkipsTo(f: Fault, from: nat, k: nat)
    requires from <= k < |FAULTS| && FAULTS[k] == f
    ensures NamedFault(FaultName(f), from) == Some(f)
    decreases k - from
  {
    if from < k {
      assert FAULTS[from] != f;
      NamesDiffer(f, FAULTS[from]);
      NameSkipsTo(f, from + 1, k);
    }
  }

  lemma NamesDiffer(f: Fault, g: Fault)
    requires f != g
    ensures !SysfsEqual(FaultName(f), FaultName(g))
  {
    var s, t := FaultName(f), FaultName(g);
    assert s[|s| - 1] != '\n' && t[|t| - 1] != '\n';
    assert |s| == |t| ==> s[0] != t[0] || s[1] != t[1] || s[5] != t[5];
    assert (s + "\n")[|s|] == '\n' && (t + "\n")[|t|] == '\n';
  }

  /** The words of a setting arm exactly that setting. With
      `ParsedSettingsAreSound` this says which fault planes are reachable from the
      text interface: exactly the sound ones. */
  lemma ArmCommandParsesBack(s: Setting)
    requires SettingOk(s)
    ensures ParseArm(ArmCommand(s)) == Some(s)
  {
    NameReadsBack(s.fault);
    if !s.fault.NoFault? {
      var argv := ArmCommand(s);
      assert argv[0] == FaultName(s.fault) && argv[3] == PrintMatchId(Match(s.matchAny, s.matchId));
      NumberWord(argv[1], s.count);
      NumberWord(argv[2], s.after);
      if s.fault.BitFlip? {
        NumberWord(argv[4], s.flipByte);
        NumberWord(argv[5], s.flipBit);
      }
      PrintedIdParsesBack(Match(s.matchAny, s.matchId));
      WordsParse(s, argv);
    }
  }

  lemma NumberWord(word: string, n: nat)
    requires n < U32_LIMIT && word == Render(n, 10)
    ensures Kstrtou32(word, 10) == Some(n)
  {
    PlainNumeral(n, 10);
  }

  lemma WordsParse(s: Setting, argv: seq<string>)
    requires SettingOk(s) && !s.fault.NoFault?
    requires |argv| == if s.fault.BitFlip? then 6 else 4
    ensures (&& NamedFault(argv[0], 0) == Some(s.fault)
             && Kstrtou32(argv[1], 10) == Some(s.count) && Kstrtou32(argv[2], 10) == Some(s.after)
             && ParseMatchId(argv[3]) == Some(Match(s.matchAny, s.matchId))
             && (s.fault.BitFlip? ==>
                   Kstrtou32(argv[4], 10) == Some(s.flipByte) && Kstrtou32(argv[5], 10) == Some(s.flipBit)))
            ==> ParseArm(argv) == Some(s)
  {
  }

  // ---------------------------------------------------------------- whole lines

  const LINE_LIMIT := 96

  predicate Space(c: char) { c == ' ' || '\t' <= c <= '\r' }

  /** The buffer as a C string: what stands before the first NUL. */
  function CString(s: string): string {
    if s == "" || s[0] == '\0' then "" else [s[0]] + CString(s[1..])
  }

  function WordEnd(s: string): (n: nat)
    ensures n <= |s| && (s != "" && !Space(s[0]) ==> n > 0)
  {
    if s == "" || Space(s[0]) then 0 else 1 + WordEnd(s[1..])
  }

  /** The kernel's `argv_split`. */
  function Words(s: string): seq<string>
    decreases |s|
  {
    if s == "" then []
    else if Space(s[0]) then Words(s[1..])
    else [s[..WordEnd(s)]] + Words(s[WordEnd(s)..])
  }

  /** What a line written to the debugfs file means. */
  function ParseLine(line: string): Option<Setting> {
    if line == "" || |line| >= LINE_LIMIT then None else ParseArm(Words(CString(line)))
  }

  lemma ParsedLinesAreSound(line: string)
    requires ParseLine(line).Some?
    ensures SettingOk(ParseLine(line).value)
  {
    ParsedSettingsAreSound(Words(CString(line)));
  }

  /** A word as it stands between spaces. */
  predicate Plain(w: string) { w != "" && forall i | 0 <= i < |w| :: !Space(w[i]) && w[i] != '\0' }

  function Spaced(words: seq<string>): string {
    if words == [] then "" else words[0] + " " + Spaced(words[1..])
  }

  lemma {:induction false} WordEndOf(w: string, rest: string)
    requires (forall i | 0 <= i < |w| :: !Space(w[i])) && (rest == "" || Space(rest[0]))
    ensures WordEnd(w + rest) == |w|
  {
    if w == "" {
      assert w + rest == rest;
    } else {
      assert (w + rest)[1..] == w[1..] + rest;
      WordEndOf(w[1..], rest);
    }
  }

  lemma {:induction false} WordsOfSpaced(words: seq<string>)
    requires forall w | w in words :: Plain(w)
    ensures Words(Spaced(words)) == words
  {
    if words == [] {
    } else {
      var w, tail := words[0], Spaced(words[1..]);
      var rest := " " + tail;
      assert Plain(w);
      assert Spaced(words) == w + rest;
      WordEndOf(w, rest);
      assert (w + rest)[..|w|] == w && (w + rest)[|w|..] == rest && rest[1..] == tail;
      WordsOfSpaced(words[1..]);
    }
  }

  lemma {:induction false} SpacedHasNoNul(words: seq<string>)
    requires forall w | w in words :: Plain(w)
    ensures '\0' !in Spaced(words)
  {
    if words == [] {
    } else {
      assert Plain(words[0]);
      SpacedHasNoNul(words[1..]);
    }
  }

  lemma {:induction false} CStringOf(s: string)
    requires '\0' !in s
    ensures CString(s) == s
  {
    if s == "" {
    } else {
      CStringOf(s[1..]);
    }
  }

  function Limit(b: nat, k: nat): nat { if k == 0 then 1 else Shift(Limit(b, k - 1), b) }

  lemma {:induction false} RenderLength(n: nat, b: nat, k: nat)
    requires Base(b) && k >= 1 && n < Limit(b, k)
    ensures |Render(n, b)| <= k
  {
    if n < b || k == 1 {
      assert Limit(b, 0) == 1;
    } else {
      RenderLength(Upper(n, b), b, k - 1);
    }
  }

  lemma Limits()
    ensures Limit(10, 10) == 10_000_000_000 && Limit(16, 8) == 0x1_0000_0000
  {
    assert Limit(10, 2) == 100;
    assert Limit(10, 4) == 10_000;
    assert Limit(10, 6) == 1_000_000;
    assert Limit(10, 8) == 100_000_000;
    assert Limit(16, 2) == 0x100;
    assert Limit(16, 4) == 0x1_0000;
    assert Limit(16, 6) == 0x100_0000;
  }

  lemma NumeralIsPlain(n: nat, b: nat)
    requires Base(b)
    ensures Plain(Render(n, b))
  {
    var s := Render(n, b);
    forall i | 0 <= i < |s| ensures !Space(s[i]) && s[i] != '\0' { DigitIsVisible(s[i], b); }
  }

  lemma DigitIsVisible(c: char, b: nat)
    requires Base(b) && DigitValue(c) < b
    ensures !Space(c) && c != '\0'
  {
  }

  lemma NameIsPlain(f: Fault)
    ensures Plain(FaultName(f)) && |FaultName(f)| <= 9
  {
  }

  lemma CountWord(n: nat)
    requires n < U32_LIMIT
    ensures Plain(Render(n, 10)) && |Render(n, 10)| <= 10
  {
    NumeralIsPlain(n, 10);
    Limits();
    RenderLength(n, 10, 10);
  }

  lemma MatchWord(m: Match)
    requires MatchOk(m)
    ensures Plain(PrintMatchId(m)) && |PrintMatchId(m)| <= 10
  {
    if !m.matchAny {
      NumeralIsPlain(m.matchId.bits, 16);
      Limits();
      RenderLength(m.matchId.bits, 16, 8);
    }
  }

  lemma {:induction false} SpacedLength(words: seq<string>, k: nat)
    requires forall w | w in words :: |w| <= k
    ensures |Spaced(words)| <= |words| * (k + 1)
  {
    if words == [] {
    } else {
      SpacedLength(words[1..], k);
      assert words[0] in words;
      OneMore(|words[1..]|, k + 1);
    }
  }

  lemma OneMore(n: nat, k: nat)
    ensures (n + 1) * k == n * k + k
  {
  }

  lemma CommandWords(s: Setting)
    requires SettingOk(s)
    ensures |ArmCommand(s)| <= 6 && forall w | w in ArmCommand(s) :: Plain(w) && |w| <= 10
  {
    NameIsPlain(s.fault);
    CountWord(s.count);
    CountWord(s.after);
    CountWord(s.flipByte);
    CountWord(s.flipBit);
    MatchWord(Match(s.matchAny, s.matchId));
  }

  /** Every sound setting has a line, short enough to be accepted, that arms it. */
  lemma ArmLineParsesBack(s: Setting)
    requires SettingOk(s)
    ensures ParseLine(Spaced(ArmCommand(s))) == Some(s)
  {
    var words := ArmCommand(s);
    CommandWords(s);
    WordsOfSpaced(words);
    SpacedHasNoNul(words);
    CStringOf(Spaced(words));
    SpacedLength(words, 10);
    assert |words| * (10 + 1) <= 66;
    assert words != [];
    ArmCommandParsesBack(s);
  }
}
