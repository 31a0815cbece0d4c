/** The line grammar of the hashed dependency lock. */
module LockText {
  import opened Text

  // -------------------------------------------------------------- characters

  predicate Space(c: char) { c == ' ' || '\t' <= c <= '\r' }

  predicate LowerCase(c: char) { 'a' <= c <= 'z' }

  predicate AlNum(c: char) { '0' <= c <= '9' || 'A' <= c <= 'Z' || LowerCase(c) }

  predicate Separator(c: char) { c == '-' || c == '_' || c == '.' }

  predicate NameChar(c: char) { AlNum(c) || Separator(c) }

  predicate VersionChar(c: char) { NameChar(c) || c == '+' }

  predicate KeyChar(c: char) { LowerCase(c) || c == '_' }

  predicate HexChar(c: char) { '0' <= c <= '9' || 'a' <= c <= 'f' }

  predicate All(s: string, p: char -> bool) { forall i | 0 <= i < |s| :: p(s[i]) }

  predicate NameOk(s: string) { s != "" && AlNum(s[0]) && All(s, NameChar) }

  predicate VersionOk(s: string) { s != "" && AlNum(s[0]) && All(s, VersionChar) }

  predicate DigestOk(s: string) { |s| == 64 && All(s, HexChar) }

  /** The longest prefix whose characters all satisfy `p`. */
  function Span(s: string, p: char -> bool): (n: nat)
    ensures n <= |s|
  {
    if s != "" && p(s[0]) then 1 + Span(s[1..], p) else 0
  }

  lemma {:induction false} SpanExact(a: string, b: string, p: char -> bool)
    requires All(a, p) && (b == "" || !p(b[0]))
    ensures Span(a + b, p) == |a|
  {
    if a == "" {
      assert a + b == b;
    } else {
      assert (a + b)[1..] == a[1..] + b;
      SpanExact(a[1..], b, p);
    }
  }

  // ------------------------------------------------------------------- lines

  /** Python's `splitlines`, on newlines. */
  function Lines(s: string): seq<string> {
    if s == "" then []
    else if s[0] == '\n' then [""] + Lines(s[1..])
    else
      var rest := Lines(s[1..]);
      if rest == [] then [[s[0]]] else [[s[0]] + rest[0]] + rest[1..]
  }

  function Unlines(lines: seq<string>): string {
    if lines == [] then "" else lines[0] + "\n" + Unlines(lines[1..])
  }

  lemma {:induction false} LinesPrepend(l: string, rest: string)
    requires '\n' !in l
    ensures Lines(l + "\n" + rest) == [l] + Lines(rest)
  {
    var s := l + "\n" + rest;
    if l == "" {
      assert s[1..] == rest;
    } else {
      assert s[1..] == l[1..] + "\n" + rest;
      LinesPrepend(l[1..], rest);
      assert [l[0]] + l[1..] == l;
    }
  }

  lemma {:induction false} LinesOfUnlines(lines: seq<string>)
    requires forall l | l in lines :: '\n' !in l
    ensures Lines(Unlines(lines)) == lines
  {
    if lines == [] {
    } else {
      LinesOfUnlines(lines[1..]);
      LinesPrepend(lines[0], Unlines(lines[1..]));
    }
  }

  function Trim(s: string): string {
    if s == "" then ""
    else if Space(s[0]) then Trim(s[1..])
    else if Space(s[|s| - 1]) then Trim(s[..|s| - 1])
    else s
  }

  predicate Trimmed(s: string) { s != "" && !Space(s[0]) && !Space(s[|s| - 1]) }

  // -------------------------------------------------------------------- pins

  const TAG := "--hash=sha256:"

  datatype PinLine = PinLine(name: string, version: string, hashes: seq<string>)

  /** One or more hash options, each after white space. */
  function Hashes(s: string): Option<seq<string>>
    decreases |s|
  {
    if s == "" then Some([])
    else
      var w := Span(s, Space);
      var t := s[w..];
      if w == 0 || |t| < |TAG| + 64 || t[..|TAG|] != TAG || !DigestOk(t[|TAG|..|TAG| + 64]) then None
      else
        var more := Hashes(t[|TAG| + 64..]);
        if more.None? then None else Some([t[|TAG|..|TAG| + 64]] + more.value)
  }

  /** `name==version` and what follows it. */
  function SplitPin(line: string): Option<(string, string, string)> {
    var n := Span(line, NameChar);
    var r := line[n..];
    if !NameOk(line[..n]) || |r| < 2 || r[0] != '=' || r[1] != '=' then None
    else
      var v := Span(r[2..], VersionChar);
      if !VersionOk(r[2..][..v]) then None else Some((line[..n], r[2..][..v], r[2..][v..]))
  }

  /** The pin with hashes that both readers recognise. */
  function ParsePin(line: string): Option<PinLine> {
    var p := SplitPin(line);
    if p.None? then None
    else
      var hs := Hashes(p.value.2);
      if hs.None? || hs.value == [] then None else Some(PinLine(p.value.0, p.value.1, hs.value))
  }

  function RenderPin(name: string, version: string, digest: string): string {
    name + "==" + version + (" " + TAG + digest)
  }

  lemma SplitPinOf(name: string, version: string, rest: string)
    requires NameOk(name) && VersionOk(version) && (rest == "" || !VersionChar(rest[0]))
    ensures SplitPin(name + "==" + version + rest) == Some((name, version, rest))
  {
    var line := name + "==" + version + rest;
    var r := "==" + version + rest;
    assert line == name + r;
    SpanExact(name, r, NameChar);
    assert line[..|name|] == name && line[|name|..] == r;
    assert r[2..] == version + rest;
    SpanExact(version, rest, VersionChar);
    assert r[2..][..|version|] == version && r[2..][|version|..] == rest;
  }

  lemma HashesOf(digest: string)
    requires DigestOk(digest)
    ensures Hashes(" " + TAG + digest) == Some([digest])
  {
    var s := " " + TAG + digest;
    assert s == " " + (TAG + digest);
    SpanExact(" ", TAG + digest, Space);
    var t := s[1..];
    assert t == TAG + digest && t[0] == '-';
    assert s[Span(s, Space)..] == t && Hashes("") == Some([]);
    assert t[..|TAG|] == TAG && t[|TAG|..|TAG| + 64] == digest && t[|TAG| + 64..] == "";
    assert [digest] + [] == [digest];
  }

  /** A rendered pin line reads back as the pin it was rendered from. */
  lemma PinReadsBack(name: string, version: string, digest: string)
    requires NameOk(name) && VersionOk(version) && DigestOk(digest)
    ensures ParsePin(RenderPin(name, version, digest)) == Some(PinLine(name, version, [digest]))
  {
    SplitPinOf(name, version, " " + TAG + digest);
    HashesOf(digest);
  }

  lemma PinIsTrimmed(name: string, version: string, digest: string)
    requires NameOk(name) && VersionOk(version) && DigestOk(digest)
    ensures var l := RenderPin(name, version, digest);
            Trimmed(l) && l[0] != '#' && '\n' !in l && Contains(l, "--hash=")
  {
    var l := RenderPin(name, version, digest);
    assert l[0] == name[0] && l[|l| - 1] == digest[63];
    var k := |name| + 2 + |version| + 1;
    assert l[k..k + 7] == TAG[..7];
    assert TAG[..7] == "--hash=";
    assert OccursAt(l, "--hash=", k);
    forall i | 0 <= i < |l| ensures l[i] != '\n' {
      PinChar(name, version, digest, i);
    }
  }

  lemma PinChar(name: string, version: string, digest: string, i: nat)
    requires NameOk(name) && VersionOk(version) && DigestOk(digest)
    requires i < |RenderPin(name, version, digest)|
    ensures RenderPin(name, version, digest)[i] != '\n'
  {
    var l := RenderPin(name, version, digest);
    var a, b := |name| + 2, |name| + 2 + |version|;
    if i < |name| {
      assert l[i] == name[i];
    } else if i < a {
      assert l[i] == "=="[i - |name|];
    } else if i < b {
      assert l[i] == version[i - a];
    } else if i < b + 1 {
      assert l[i] == ' ';
    } else if i < b + 1 + |TAG| {
      assert l[i] == TAG[i - b - 1];
    } else {
      assert l[i] == digest[i - b - 1 - |TAG|];
    }
  }

  // ---------------------------------------------------------------- metadata

  datatype Meta = Meta(key: string, value: string)

  /** `# key: value` on a comment line. */
  function MetaOf(line: string): Option<Meta> {
    if line == "" || line[0] != '#' then None
    else
      var s := line[1..][Span(line[1..], Space)..];
      var k := Span(s, KeyChar);
      if k == 0 || k >= |s| || s[k] != ':' then None
      else
        var v := s[k + 1..][Span(s[k + 1..], Space)..];
        if v == "" then None else Some(Meta(s[..k], v))
  }

  function RenderMeta(m: Meta): string { "# " + m.key + (": " + m.value) }

  predicate MetaOk(m: Meta) {
    m.key != "" && All(m.key, KeyChar) && Trimmed(m.value) && '\n' !in m.value
  }

  lemma MetaReadsBack(m: Meta)
    requires MetaOk(m)
    ensures MetaOf(RenderMeta(m)) == Some(m)
  {
    var s := m.key + (": " + m.value);
    assert s[0] == m.key[0] && RenderMeta(m) == "# " + s;
    AfterHash(s);
    SpanExact(m.key, ": " + m.value, KeyChar);
    assert s[|m.key|] == ':' && s[..|m.key|] == m.key;
    assert s[|m.key| + 1..] == " " + m.value;
    SpanExact(" ", m.value, Space);
    assert (" " + m.value)[1..] == m.value;
  }

  lemma MetaIsTrimmed(m: Meta)
    requires MetaOk(m)
    ensures Trimmed(RenderMeta(m)) && RenderMeta(m)[0] == '#' && '\n' !in RenderMeta(m)
  {
    var l, k := RenderMeta(m), 2 + |m.key|;
    assert l[|l| - 1] == m.value[|m.value| - 1];
    forall i | 0 <= i < |l| ensures l[i] != '\n' {
      if i < 2 {
        assert l[i] == "# "[i];
      } else if i < k {
        assert l[i] == m.key[i - 2];
      } else if i < k + 2 {
        assert l[i] == ": "[i - k];
      } else {
        assert l[i] == m.value[i - k - 2];
      }
    }
  }

  /** A comment whose first word is not followed by a colon carries no metadata. */
  lemma NoMeta(word: string, rest: string)
    requires All(word, KeyChar) && rest != "" && !KeyChar(rest[0]) && rest[0] != ':' && !Space((word + rest)[0])
    ensures MetaOf("# " + (word + rest)) == None
  {
    var s := word + rest;
    AfterHash(s);
    SpanExact(word, rest, KeyChar);
    assert s[|word|] == rest[0];
  }

  /** The text of a comment starts after the hash sign and white space. */
  lemma AfterHash(s: string)
    requires s != "" && !Space(s[0])
    ensures var line := "# " + s; line[1..][Span(line[1..], Space)..] == s
  {
    var line := "# " + s;
    assert line[1..] == " " + s;
    SpanExact(" ", s, Space);
    assert (" " + s)[1..] == s;
  }

  // ------------------------------------------------------------------- names

  function LowerChar(c: char): char {
    if 'A' <= c <= 'Z' then (c as int + 32) as char else c
  }

  function LowerName(s: string): string { seq(|s|, i requires 0 <= i < |s| => LowerChar(s[i])) }

  /** Runs of separators collapsed to one dash. */
  function Collapse(s: string): string {
    if s == "" then ""
    else if Separator(s[0]) then "-" + Collapse(s[1..][Span(s[1..], Separator)..])
    else [s[0]] + Collapse(s[1..])
  }

  function Normalise(name: string): string { LowerName(Collapse(name)) }

  predicate Canonical(s: string) {
    && (forall i | 0 <= i < |s| :: (Separator(s[i]) ==> s[i] == '-') && !('A' <= s[i] <= 'Z'))
    && (forall i | 0 <= i < |s| - 1 :: !(s[i] == '-' && s[i + 1] == '-'))
  }

  lemma {:induction false} SpanStops(s: string, p: char -> bool)
    ensures var t := s[Span(s, p)..]; t == "" || !p(t[0])
  {
    if s != "" && p(s[0]) {
      SpanStops(s[1..], p);
      assert s[Span(s, p)..] == s[1..][Span(s[1..], p)..];
    }
  }

  /** One dash at most between two other characters. */
  predicate Dashed(s: string) {
    && (forall i | 0 <= i < |s| :: Separator(s[i]) ==> s[i] == '-')
    && (forall i | 0 <= i < |s| - 1 :: !(s[i] == '-' && s[i + 1] == '-'))
  }

  lemma {:induction false} CollapseDashes(s: string)
    ensures Dashed(Collapse(s))
    ensures s != "" && !Separator(s[0]) ==> Collapse(s) != "" && Collapse(s)[0] == s[0]
    ensures s == "" ==> Collapse(s) == ""
    decreases |s|
  {
    if s == "" {
    } else {
      var t := if Separator(s[0]) then s[1..][Span(s[1..], Separator)..] else s[1..];
      CollapseDashes(t);
      if Separator(s[0]) { SpanStops(s[1..], Separator); }
      var h := if Separator(s[0]) then '-' else s[0];
      assert Collapse(s) == [h] + Collapse(t);
      DashedCons(h, Collapse(t));
    }
  }

  lemma DashedCons(h: char, t: string)
    requires Dashed(t) && (Separator(h) ==> h == '-') && (h == '-' && t != "" ==> t[0] != '-')
    ensures Dashed([h] + t)
  {
    var r := [h] + t;
    forall i | 0 <= i < |r| - 1 ensures !(r[i] == '-' && r[i + 1] == '-') {
      if i > 0 { assert r[i] == t[i - 1] && r[i + 1] == t[i]; }
    }
  }

  lemma NormaliseIsCanonical(name: string)
    ensures Canonical(Normalise(name))
  {
    CollapseDashes(name);
    var c := Collapse(name);
    assert forall i | 0 <= i < |c| :: LowerChar(c[i]) == '-' <==> c[i] == '-';
  }

  lemma {:induction false} DashedFixed(s: string)
    requires Dashed(s)
    ensures Collapse(s) == s
  {
    if s == "" {
    } else {
      if Separator(s[0]) {
        if |s| > 1 { assert s[1] != '-'; }
        assert s[1..][0..] == s[1..];
      }
      assert Dashed(s[1..]);
      DashedFixed(s[1..]);
    }
  }

  /** A name is normalised exactly when it is in canonical form, so normalising
      twice changes nothing. */
  lemma NormalisedIff(name: string)
    ensures Normalise(name) == name <==> Canonical(name)
    ensures Normalise(Normalise(name)) == Normalise(name)
  {
    NormaliseIsCanonical(name);
    if Canonical(name) { CanonicalFixed(name); }
    CanonicalFixed(Normalise(name));
  }

  lemma CanonicalFixed(s: string)
    requires Canonical(s)
    ensures Normalise(s) == s && LowerName(s) == s
  {
    DashedFixed(s);
  }
}
