/** Text helpers shared by the components: positional numerals and the
    lexicographic order on strings. */
module Text {

  datatype Option<+T> = None | Some(value: T)

  // ---------------------------------------------------------------- numerals

  function DigitChar(d: nat): (c: char)
    requires d < 16
  {
    if d < 10 then ('0' as int + d) as char else ('a' as int + (d - 10)) as char
  }

  /** The value of one digit, or the base-independent marker 16 for a non-digit.
      Upper-case hexadecimal digits are read as their lower-case form. */
  function DigitValue(c: char): (d: nat)
    ensures d <= 16
  {
    if '0' <= c <= '9' then c as int - '0' as int
    else if 'a' <= c <= 'f' then c as int - 'a' as int + 10
    else if 'A' <= c <= 'F' then c as int - 'A' as int + 10
    else 16
  }

  lemma DigitReadsBack(d: nat)
    requires d < 16
    ensures DigitValue(DigitChar(d)) == d
  {
  }

  predicate AllDigits(s: string, b: nat) {
    forall i | 0 <= i < |s| :: DigitValue(s[i]) < b
  }

  /** The two bases the components print and parse; the operations on a numeral
      are written per base so that they stay linear. */
  predicate Base(b: nat) {
    b == 10 || b == 16
  }

  function Shift(n: nat, b: nat): nat { if b == 10 then n * 10 else n * 16 }

  function Upper(n: nat, b: nat): nat { if b == 10 then n / 10 else n / 16 }

  function Lower(n: nat, b: nat): nat { if b == 10 then n % 10 else n % 16 }

  /** The numeral of `n` in base `b`, most significant digit first, unpadded. */
  function Render(n: nat, b: nat): (s: string)
    requires Base(b)
    ensures s != "" && AllDigits(s, b)
  {
    if n < b then [DigitChar(n)] else Render(Upper(n, b), b) + [DigitChar(Lower(n, b))]
  }

  function Value(s: string, b: nat): nat {
    if s == "" then 0 else Shift(Value(s[..|s| - 1], b), b) + DigitValue(s[|s| - 1])
  }

  lemma ValueOfAppend(s: string, c: char, b: nat)
    ensures Value(s + [c], b) == Shift(Value(s, b), b) + DigitValue(c)
  {
    assert (s + [c])[..|s|] == s;
  }

  lemma ValueOfDigit(d: nat, b: nat)
    requires Base(b) && d < 16
    ensures Value([DigitChar(d)], b) == d
  {
    DigitReadsBack(d);
    ValueOfAppend("", DigitChar(d), b);
    assert "" + [DigitChar(d)] == [DigitChar(d)];
  }

  lemma Recombine(n: nat, b: nat)
    requires Base(b)
    ensures Lower(n, b) < b && n == Shift(Upper(n, b), b) + Lower(n, b)
  {
  }

  lemma {:induction false} ValueOfRender(n: nat, b: nat)
    requires Base(b)
    ensures Value(Render(n, b), b) == n
  {
    if n < b {
      ValueOfDigit(n, b);
    } else {
      var high, low := Upper(n, b), Lower(n, b);
      Recombine(n, b);
      ValueOfRender(high, b);
      DigitReadsBack(low);
      ValueOfAppend(Render(high, b), DigitChar(low), b);
    }
  }

  lemma RenderInjective(m: nat, n: nat, b: nat)
    requires Base(b)
    requires Render(m, b) == Render(n, b)
    ensures m == n
  {
    ValueOfRender(m, b);
    ValueOfRender(n, b);
  }

  /** Python's `str` of an integer. */
  function Decimal(n: int): (s: string)
    ensures s != ""
  {
    if n < 0 then "-" + Render(-n, 10) else Render(n, 10)
  }

  lemma DecimalSign(n: int)
    ensures Decimal(n)[0] == '-' <==> n < 0
  {
    if n >= 0 { assert DigitValue(Decimal(n)[0]) < 10; }
  }

  lemma DecimalInjective(m: int, n: int)
    requires Decimal(m) == Decimal(n)
    ensures m == n
  {
    DecimalSign(m);
    DecimalSign(n);
    if m < 0 {
      assert Decimal(m)[1..] == Render(-m, 10) && Decimal(n)[1..] == Render(-n, 10);
      RenderInjective(-m, -n, 10);
    } else {
      RenderInjective(m, n, 10);
    }
  }

  /** Three digits at least, padded with zeros. */
  function Pad3(n: nat): (s: string) {
    (if n < 10 then "00" else if n < 100 then "0" else "") + Render(n, 10)
  }

  lemma {:induction false} LeadingZero(s: string)
    ensures Value("0" + s, 10) == Value(s, 10)
  {
    if s == "" {
      assert "0"[..0] == "" && Value("", 10) == 0;
    } else {
      var front, c := s[..|s| - 1], s[|s| - 1];
      LeadingZero(front);
      assert "0" + s == ("0" + front) + [c] && s == front + [c];
      ValueOfAppend("0" + front, c, 10);
      ValueOfAppend(front, c, 10);
    }
  }

  lemma ValueOfPad3(n: nat)
    ensures Value(Pad3(n), 10) == n
  {
    var r := Render(n, 10);
    ValueOfRender(n, 10);
    LeadingZero(r);
    LeadingZero("0" + r);
    assert "00" + r == "0" + ("0" + r) && "" + r == r;
  }

  lemma Pad3Injective(m: nat, n: nat)
    requires Pad3(m) == Pad3(n)
    ensures m == n
  {
    ValueOfPad3(m);
    ValueOfPad3(n);
  }

  // ------------------------------------------------------------ string order

  /** Lexicographic `<` on strings, the order Python's `sorted` uses. */
  predicate Less(s: string, t: string) {
    t != "" && (s == "" || s[0] < t[0] || (s[0] == t[0] && Less(s[1..], t[1..])))
  }

  lemma {:induction false} LessIrreflexive(s: string)
    ensures !Less(s, s)
  {
    if s == "" {
    } else {
      LessIrreflexive(s[1..]);
    }
  }

  lemma {:induction false} LessTransitive(s: string, t: string, u: string)
    requires Less(s, t) && Less(t, u)
    ensures Less(s, u)
  {
    if s != "" && s[0] == t[0] == u[0] { LessTransitive(s[1..], t[1..], u[1..]); }
  }

  lemma {:induction false} LessTotal(s: string, t: string)
    ensures s == t || Less(s, t) || Less(t, s)
  {
    if s != "" && t != "" && s[0] == t[0] {
      LessTotal(s[1..], t[1..]);
      assert s == [s[0]] + s[1..] && t == [t[0]] + t[1..];
    }
  }

  predicate StrictlySorted(s: seq<string>) {
    forall i, j | 0 <= i < j < |s| :: Less(s[i], s[j])
  }

  function Members<T>(s: seq<T>): set<T> {
    set x | x in s
  }

  /** Insert into a strictly sorted list, dropping a duplicate. */
  function Insert(x: string, s: seq<string>): (r: seq<string>)
    requires StrictlySorted(s)
    ensures StrictlySorted(r) && Members(r) == Members(s) + {x}
  {
    if s == [] then [x]
    else if x == s[0] then s
    else if Less(x, s[0]) then PutsFirst(x, s); [x] + s
    else
      var rest := Insert(x, s[1..]);
      assert s == [s[0]] + s[1..];
      assert Below(s[0], rest) by {
        LessTotal(x, s[0]);
        forall y | y in rest ensures Less(s[0], y) { assert y in Members(rest); }
      }
      PutsFirst(s[0], rest);
      [s[0]] + rest
  }

  predicate Below(x: string, s: seq<string>) {
    forall y | y in s :: Less(x, y)
  }

  lemma PutsFirst(x: string, s: seq<string>)
    requires StrictlySorted(s) && (Below(x, s) || (s != [] && Less(x, s[0])))
    ensures StrictlySorted([x] + s) && Members([x] + s) == Members(s) + {x}
  {
    forall j | 0 <= j < |s| ensures Less(x, s[j]) {
      if j > 0 && Less(x, s[0]) { LessTransitive(x, s[0], s[j]); }
    }
  }

  /** Python's `sorted(set(xs))`. */
  function SortedUnique(xs: seq<string>): (r: seq<string>)
    ensures StrictlySorted(r) && Members(r) == Members(xs)
  {
    if xs == [] then []
    else
      var r := Insert(xs[0], SortedUnique(xs[1..]));
      assert Members(xs) == {xs[0]} + Members(xs[1..]) by { assert xs == [xs[0]] + xs[1..]; }
      r
  }

  /** A strictly sorted list is determined by its members. */
  lemma {:induction false} SortedIsCanonical(s: seq<string>, t: seq<string>)
    requires StrictlySorted(s) && StrictlySorted(t) && Members(s) == Members(t)
    ensures s == t
  {
    if s == [] {
      assert t == [] by { EmptyMembers(t); }
    } else {
      assert s[0] in Members(t) && t != [];
      assert t[0] in Members(s);
      HeadIsLeast(s, t[0]);
      HeadIsLeast(t, s[0]);
      if s[0] != t[0] { LessTransitive(s[0], t[0], s[0]); LessIrreflexive(s[0]); }
      TailMembers(s);
      TailMembers(t);
      SortedIsCanonical(s[1..], t[1..]);
      assert s == [s[0]] + s[1..] && t == [t[0]] + t[1..];
    }
  }

  lemma EmptyMembers<T>(s: seq<T>)
    ensures Members(s) == {} <==> s == []
  {
    if s != [] { assert s[0] in Members(s); }
  }

  lemma HeadIsLeast(s: seq<string>, x: string)
    requires StrictlySorted(s) && x in s
    ensures s != [] && (x == s[0] || Less(s[0], x))
  {
  }

  lemma TailMembers(s: seq<string>)
    requires StrictlySorted(s) && s != []
    ensures Members(s[1..]) == Members(s) - {s[0]}
  {
    forall i | 1 <= i < |s| ensures s[i] != s[0] { LessIrreflexive(s[0]); }
    assert s == [s[0]] + s[1..];
  }

  // -------------------------------------------------------------- substrings

  predicate OccursAt(s: string, p: string, i: int) {
    0 <= i <= |s| - |p| && s[i..i + |p|] == p
  }

  predicate Contains(s: string, p: string) {
    exists i | 0 <= i <= |s| :: OccursAt(s, p, i)
  }

  predicate FirstAt(s: string, p: string, i: int) {
    OccursAt(s, p, i) && forall j | 0 <= j < i :: !OccursAt(s, p, j)
  }

  function FindFrom(s: string, p: string, i: nat): (r: Option<nat>)
    requires i <= |s| + 1 && forall j | 0 <= j < i :: !OccursAt(s, p, j)
    ensures r.Some? ==> FirstAt(s, p, r.value)
    ensures r.None? ==> !Contains(s, p)
    decreases |s| + 1 - i
  {
    if i > |s| then None else if OccursAt(s, p, i) then Some(i) else FindFrom(s, p, i + 1)
  }

  /** Python's `find`, and the test behind `partition`. */
  function Find(s: string, p: string): (r: Option<nat>)
    ensures r.Some? ==> FirstAt(s, p, r.value)
    ensures r.None? ==> !Contains(s, p)
  {
    FindFrom(s, p, 0)
  }

  lemma FindIsFirst(s: string, p: string, i: int)
    requires FirstAt(s, p, i)
    ensures Find(s, p) == Some(i)
  {
  }
}
