/** Path patterns of a Task Packet: the matcher that decides whether a changed
    path is authorised, and the cheaper overlap test that decides whether a packet
    may be accepted at all. Patterns and paths are sequences of segments. */
module PathPatterns {
  type Path = seq<string>

  // ---------------------------------------------------------------- segments

  /** Shell matching of one segment by `*`, `?` and literal characters. */
  predicate Fnmatch(name: string, pattern: string)
    decreases |pattern|, |name|
  {
    if pattern == "" then name == ""
    else if pattern[0] == '*' then
      Fnmatch(name, pattern[1..]) || (name != "" && Fnmatch(name[1..], pattern))
    else
      name != "" && (pattern[0] == '?' || pattern[0] == name[0]) && Fnmatch(name[1..], pattern[1..])
  }

  predicate Wild(part: string) { '*' in part || '?' in part || '[' in part }

  lemma {:induction false} LiteralMatches(name: string, pattern: string)
    requires '*' !in pattern && '?' !in pattern
    ensures Fnmatch(name, pattern) <==> name == pattern
  {
    if pattern == "" {
    } else {
      if name != "" {
        LiteralMatches(name[1..], pattern[1..]);
        assert name == [name[0]] + name[1..];
      }
      assert pattern == [pattern[0]] + pattern[1..];
    }
  }

  // ------------------------------------------------------------ case folding

  /** Case folding character by character; the wildcards have no case. */
  ghost predicate FoldOk(fold: char -> char) {
    fold('*') == '*' && fold('?') == '?'
  }

  function Fold(fold: char -> char, s: string): (r: string)
    ensures |r| == |s| && forall i | 0 <= i < |s| :: r[i] == fold(s[i])
  {
    seq(|s|, i requires 0 <= i < |s| => fold(s[i]))
  }

  function FoldPath(fold: char -> char, p: Path): (r: Path)
    ensures |r| == |p| && forall i | 0 <= i < |p| :: r[i] == Fold(fold, p[i])
  {
    seq(|p|, i requires 0 <= i < |p| => Fold(fold, p[i]))
  }

  /** Folding can only make a segment match more. */
  lemma {:induction false} FoldKeepsMatch(fold: char -> char, name: string, pattern: string)
    requires FoldOk(fold) && Fnmatch(name, pattern)
    ensures Fnmatch(Fold(fold, name), Fold(fold, pattern))
    decreases |pattern|, |name|
  {
    if pattern == "" {
    } else {
      assert Fold(fold, pattern)[1..] == Fold(fold, pattern[1..]);
      if name != "" { assert Fold(fold, name)[1..] == Fold(fold, name[1..]); }
      if pattern[0] == '*' {
        if Fnmatch(name, pattern[1..]) {
          FoldKeepsMatch(fold, name, pattern[1..]);
        } else {
          FoldKeepsMatch(fold, name[1..], pattern);
        }
      } else {
        FoldKeepsMatch(fold, name[1..], pattern[1..]);
        StarMatches(Fold(fold, name), Fold(fold, pattern));
      }
    }
  }

  /** A leading star may stand for the first character. */
  lemma StarMatches(name: string, pattern: string)
    requires name != "" && pattern != "" && Fnmatch(name[1..], pattern[1..])
    ensures pattern[0] == '*' ==> Fnmatch(name, pattern)
  {
    if pattern[0] == '*' { assert Fnmatch(name[1..], pattern); }
  }

  // ------------------------------------------------------------------ matcher

  /** The backtracking matcher: `**` stands for any number of segments. */
  predicate Matches(pattern: Path, path: Path)
    decreases |pattern|, |path|
  {
    if pattern == [] then path == []
    else if pattern[0] == "**" then
      Matches(pattern[1..], path) || (path != [] && Matches(pattern, path[1..]))
    else
      path != [] && Fnmatch(path[0], pattern[0]) && Matches(pattern[1..], path[1..])
  }

  predicate Step(pattern: Path, path: Path, cuts: seq<nat>, k: nat)
    requires k < |pattern| && |cuts| == |pattern| + 1
  {
    if pattern[k] == "**" then cuts[k] <= cuts[k + 1]
    else cuts[k + 1] == cuts[k] + 1 && cuts[k] < |path| && Fnmatch(path[cuts[k]], pattern[k])
  }

  /** Reference meaning of a pattern: an assignment of consecutive stretches of
      the path to its parts, one segment for each part but any number for `**`. */
  predicate Aligned(pattern: Path, path: Path, cuts: seq<nat>) {
    && |cuts| == |pattern| + 1 && cuts[0] == 0 && cuts[|pattern|] == |path|
    && forall k | 0 <= k < |pattern| :: Step(pattern, path, cuts, k)
  }

  function Later(cuts: seq<nat>, n: nat): (r: seq<nat>)
    ensures |r| == |cuts| && forall i | 0 <= i < |cuts| :: r[i] == cuts[i] + n
  {
    seq(|cuts|, i requires 0 <= i < |cuts| => cuts[i] + n)
  }

  lemma StarTakesNone(pattern: Path, path: Path, rest: seq<nat>)
    requires pattern != [] && pattern[0] == "**" && Aligned(pattern[1..], path, rest)
    ensures Aligned(pattern, path, [0] + rest)
  {
    var cuts := [0] + rest;
    forall k | 0 <= k < |pattern| ensures Step(pattern, path, cuts, k) {
      if k > 0 {
        assert Step(pattern[1..], path, rest, k - 1);
        assert pattern[k] == pattern[1..][k - 1] && cuts[k] == rest[k - 1] && cuts[k + 1] == rest[k];
      }
    }
  }

  lemma StarTakesMore(pattern: Path, path: Path, rest: seq<nat>)
    requires pattern != [] && pattern[0] == "**" && path != [] && Aligned(pattern, path[1..], rest)
    ensures Aligned(pattern, path, [0] + Later(rest, 1)[1..])
  {
    var cuts := [0] + Later(rest, 1)[1..];
    forall k | 0 <= k < |pattern| ensures Step(pattern, path, cuts, k) {
      assert Step(pattern, path[1..], rest, k);
      assert cuts[k + 1] == rest[k + 1] + 1 && (k > 0 ==> cuts[k] == rest[k] + 1);
    }
  }

  lemma PartTakesHead(pattern: Path, path: Path, rest: seq<nat>)
    requires pattern != [] && pattern[0] != "**" && path != [] && Fnmatch(path[0], pattern[0])
    requires Aligned(pattern[1..], path[1..], rest)
    ensures Aligned(pattern, path, [0] + Later(rest, 1))
  {
    var cuts := [0] + Later(rest, 1);
    forall k | 0 <= k < |pattern| ensures Step(pattern, path, cuts, k) {
      if k > 0 {
        assert Step(pattern[1..], path[1..], rest, k - 1);
        assert pattern[k] == pattern[1..][k - 1] && cuts[k] == rest[k - 1] + 1 && cuts[k + 1] == rest[k] + 1;
      }
    }
  }

  lemma {:induction false} MatchAligns(pattern: Path, path: Path) returns (cuts: seq<nat>)
    requires Matches(pattern, path)
    ensures Aligned(pattern, path, cuts)
    decreases |pattern|, |path|
  {
    if pattern == [] {
      cuts := [0];
    } else if pattern[0] == "**" && Matches(pattern[1..], path) {
      var rest := MatchAligns(pattern[1..], path);
      StarTakesNone(pattern, path, rest);
      cuts := [0] + rest;
    } else if pattern[0] == "**" {
      var rest := MatchAligns(pattern, path[1..]);
      StarTakesMore(pattern, path, rest);
      cuts := [0] + Later(rest, 1)[1..];
    } else {
      var rest := MatchAligns(pattern[1..], path[1..]);
      PartTakesHead(pattern, path, rest);
      cuts := [0] + Later(rest, 1);
    }
  }

  /** The cuts from the second on, counted from `n` segments later. */
  function Earlier(cuts: seq<nat>, n: nat): (r: seq<nat>)
    requires cuts != [] && forall i | 1 <= i < |cuts| :: n <= cuts[i]
    ensures |r| == |cuts| - 1 && forall i | 0 <= i < |r| :: r[i] == cuts[i + 1] - n
  {
    seq(|cuts| - 1, i requires 0 <= i < |cuts| - 1 => cuts[i + 1] - n)
  }

  lemma StarTakesOne(pattern: Path, path: Path, cuts: seq<nat>)
    requires Aligned(pattern, path, cuts) && pattern != [] && pattern[0] == "**" && cuts[1] > 0
    requires forall i | 1 <= i < |cuts| :: 1 <= cuts[i] <= |path|
    ensures path != [] && Aligned(pattern, path[1..], [0] + Earlier(cuts, 1))
  {
    var rest := [0] + Earlier(cuts, 1);
    forall k | 0 <= k < |pattern| ensures Step(pattern, path[1..], rest, k) {
      assert Step(pattern, path, cuts, k);
      assert rest[k + 1] == cuts[k + 1] - 1 && (k > 0 ==> rest[k] == cuts[k] - 1);
    }
  }

  lemma PartTakesOne(pattern: Path, path: Path, cuts: seq<nat>)
    requires Aligned(pattern, path, cuts) && pattern != [] && (pattern[0] == "**" ==> cuts[1] == 0)
    requires forall i | 1 <= i < |cuts| :: cuts[1] <= cuts[i] <= |path|
    ensures cuts[1] <= |path| && Aligned(pattern[1..], path[cuts[1]..], Earlier(cuts, cuts[1]))
  {
    var rest, tail := Earlier(cuts, cuts[1]), pattern[1..];
    forall k | 0 <= k < |tail| ensures Step(tail, path[cuts[1]..], rest, k) {
      assert Step(pattern, path, cuts, k + 1);
      assert tail[k] == pattern[k + 1] && rest[k] == cuts[k + 1] - cuts[1] && rest[k + 1] == cuts[k + 2] - cuts[1];
    }
  }

  lemma {:induction false} AlignmentMatches(pattern: Path, path: Path, cuts: seq<nat>)
    requires Aligned(pattern, path, cuts)
    ensures Matches(pattern, path)
    decreases |pattern|, |path|
  {
    if pattern == [] {
    } else {
      CutsOrdered(pattern, path, cuts, 1);
      assert Step(pattern, path, cuts, 0);
      if pattern[0] == "**" && cuts[1] > 0 {
        StarTakesOne(pattern, path, cuts);
        AlignmentMatches(pattern, path[1..], [0] + Earlier(cuts, 1));
      } else {
        PartTakesOne(pattern, path, cuts);
        AlignmentMatches(pattern[1..], path[cuts[1]..], Earlier(cuts, cuts[1]));
      }
    }
  }

  lemma {:induction false} CutsOrdered(pattern: Path, path: Path, cuts: seq<nat>, k: nat)
    requires Aligned(pattern, path, cuts) && k < |cuts|
    ensures forall j | k <= j < |cuts| :: cuts[k] <= cuts[j] <= |path|
    decreases |cuts| - k
  {
    if k + 1 < |cuts| {
      assert Step(pattern, path, cuts, k);
      CutsOrdered(pattern, path, cuts, k + 1);
    }
  }

  /** The matcher decides exactly the reference meaning. */
  lemma MatchesIffAligned(pattern: Path, path: Path)
    ensures Matches(pattern, path) <==> exists cuts :: Aligned(pattern, path, cuts)
  {
    if Matches(pattern, path) {
      var cuts := MatchAligns(pattern, path);
    }
    if exists cuts :: Aligned(pattern, path, cuts) {
      var cuts :| Aligned(pattern, path, cuts);
      AlignmentMatches(pattern, path, cuts);
    }
  }

  // ------------------------------------------------------------------ overlap

  /** Two folded segments that no segment can match both. */
  predicate Clash(left: string, right: string) {
    || (!Wild(left) && !Wild(right) && left != right)
    || (Wild(left) && !Wild(right) && !Fnmatch(right, left))
    || (Wild(right) && !Wild(left) && !Fnmatch(left, right))
  }

  /** Position `i` tells the patterns apart: they clash there and neither has a
      recursive wildcard up to there. */
  predicate Separates(left: Path, right: Path, i: int) {
    && 0 <= i < |left| && i < |right|
    && "**" !in left[..i + 1] && "**" !in right[..i + 1]
    && Clash(left[i], right[i])
  }

  predicate AllRecursive(parts: Path) { forall p | p in parts :: p == "**" }

  /** The scan over the zipped folded segments, with its final test of the longer
      pattern's tail. That test never decides: one of the tails is empty. */
  method PatternsOverlap(fold: char -> char, left: Path, right: Path) returns (overlap: bool)
    ensures !overlap <==> exists i :: Separates(FoldPath(fold, left), FoldPath(fold, right), i)
  {
    var l, r := FoldPath(fold, left), FoldPath(fold, right);
    var common := if |l| < |r| then |l| else |r|;
    for i := 0 to common
      invariant "**" !in l[..i] && "**" !in r[..i]
      invariant forall j | 0 <= j < i :: !Clash(l[j], r[j])
    {
      assert l[..i + 1] == l[..i] + [l[i]] && r[..i + 1] == r[..i] + [r[i]];
      if l[i] == "**" || r[i] == "**" {
        forall j ensures !Separates(l, r, j) {
          if i <= j < common { assert l[..j + 1][i] == l[i] && r[..j + 1][i] == r[i]; }
        }
        return true;
      }
      if Clash(l[i], r[i]) {
        assert Separates(l, r, i);
        return false;
      }
    }
    overlap := AllRecursive(l[common..]) || AllRecursive(r[common..]);
  }

  lemma {:induction false} PrefixMatches(pattern: Path, path: Path, i: nat)
    requires Matches(pattern, path) && i < |pattern| && "**" !in pattern[..i + 1]
    ensures i < |path| && Fnmatch(path[i], pattern[i])
  {
    assert pattern[0] in pattern[..i + 1];
    if i > 0 {
      assert pattern[1..][..i] == pattern[..i + 1][1..];
      PrefixMatches(pattern[1..], path[1..], i - 1);
    }
  }

  /** The overlap test over-approximates the matcher: separated patterns have no
      path in common, not even two paths that differ only in case. */
  lemma SeparatedMatchNothing(fold: char -> char, left: Path, right: Path, i: nat, p: Path, q: Path)
    requires FoldOk(fold) && FoldPath(fold, p) == FoldPath(fold, q)
    requires Separates(FoldPath(fold, left), FoldPath(fold, right), i)
    requires Matches(left, p)
    ensures !Matches(right, q)
  {
    if Matches(right, q) {
      NoRecursive(fold, left, i);
      NoRecursive(fold, right, i);
      PrefixMatches(left, p, i);
      PrefixMatches(right, q, i);
      FoldKeepsMatch(fold, p[i], left[i]);
      FoldKeepsMatch(fold, q[i], right[i]);
      assert Fold(fold, p[i]) == FoldPath(fold, p)[i] == FoldPath(fold, q)[i] == Fold(fold, q[i]);
      ClashMatchesNothing(Fold(fold, left[i]), Fold(fold, right[i]), Fold(fold, p[i]));
      assert false;
    }
  }

  lemma ClashMatchesNothing(left: string, right: string, name: string)
    requires Clash(left, right) && Fnmatch(name, left)
    ensures !Fnmatch(name, right)
  {
    if !Wild(left) { LiteralMatches(name, left); }
    if !Wild(right) { LiteralMatches(name, right); }
  }

  lemma NoRecursive(fold: char -> char, pattern: Path, i: nat)
    requires FoldOk(fold) && i < |pattern| && "**" !in FoldPath(fold, pattern)[..i + 1]
    ensures "**" !in pattern[..i + 1]
  {
    assert Fold(fold, "**") == "**";
    forall j | 0 <= j <= i ensures pattern[j] != "**" {
      assert FoldPath(fold, pattern)[..i + 1][j] == Fold(fold, pattern[j]);
    }
  }
}
