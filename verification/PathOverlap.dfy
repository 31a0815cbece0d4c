/** When the overlap test between path patterns is exact: which patterns really
    share a path, decided for all patterns, and when the cheaper test agrees. */
module PathOverlap {
  import opened PathPatterns

  /** Folding never turns another character into a wildcard. */
  ghost predicate FoldExact(fold: char -> char) {
    FoldOk(fold) && fold('[') == '[' && forall c :: fold(c) == '*' || fold(c) == '?' || fold(c) == '[' ==> c == fold(c)
  }

  /** Some name, up to case, is matched by both segments. */
  ghost predicate Meet(fold: char -> char, left: string, right: string) {
    exists x, y :: Fold(fold, x) == Fold(fold, y) && Fnmatch(x, left) && Fnmatch(y, right)
  }

  /** Some path, up to case, is matched by both patterns. */
  ghost predicate Common(fold: char -> char, left: Path, right: Path) {
    exists p, q :: FoldPath(fold, p) == FoldPath(fold, q) && Matches(left, p) && Matches(right, q)
  }

  ghost predicate Flagged(fold: char -> char, left: Path, right: Path) {
    !exists i :: Separates(FoldPath(fold, left), FoldPath(fold, right), i)
  }

  /** For all patterns: whatever shares a path is flagged. */
  lemma CommonIsFlagged(fold: char -> char, left: Path, right: Path)
    requires FoldOk(fold) && Common(fold, left, right)
    ensures Flagged(fold, left, right)
  {
    var p, q :| FoldPath(fold, p) == FoldPath(fold, q) && Matches(left, p) && Matches(right, q);
    forall i ensures !Separates(FoldPath(fold, left), FoldPath(fold, right), i) {
      if Separates(FoldPath(fold, left), FoldPath(fold, right), i) {
        SeparatedMatchNothing(fold, left, right, i, p, q);
      }
    }
  }

  lemma FoldCons(fold: char -> char, s: string, t: string)
    requires s != "" && t != ""
    ensures Fold(fold, s) == Fold(fold, t) <==> fold(s[0]) == fold(t[0]) && Fold(fold, s[1..]) == Fold(fold, t[1..])
  {
    assert Fold(fold, s) == [fold(s[0])] + Fold(fold, s[1..]);
    assert Fold(fold, t) == [fold(t[0])] + Fold(fold, t[1..]);
  }

  /** A name that matches a folded pattern is a respelling of one that matches it. */
  lemma {:induction false} Respell(fold: char -> char, name: string, pattern: string) returns (z: string)
    requires FoldExact(fold) && Fnmatch(Fold(fold, name), Fold(fold, pattern))
    ensures Fold(fold, z) == Fold(fold, name) && Fnmatch(z, pattern)
    decreases |pattern|, |name|
  {
    if pattern == "" {
      z := "";
    } else {
      var x, p := Fold(fold, name), Fold(fold, pattern);
      assert p[1..] == Fold(fold, pattern[1..]) && p[0] == fold(pattern[0]);
      if pattern[0] == '*' && Fnmatch(x, p[1..]) {
        z := Respell(fold, name, pattern[1..]);
      } else {
        assert x[1..] == Fold(fold, name[1..]) && x[0] == fold(name[0]);
        var rest := Respell(fold, name[1..], if pattern[0] == '*' then pattern else pattern[1..]);
        z := [if pattern[0] == '*' || pattern[0] == '?' then name[0] else pattern[0]] + rest;
        assert z[1..] == rest;
        FoldCons(fold, z, name);
      }
    }
  }

  lemma WildFolds(fold: char -> char, part: string)
    requires FoldExact(fold)
    ensures Wild(Fold(fold, part)) <==> Wild(part)
  {
    var f := Fold(fold, part);
    forall c | c == '*' || c == '?' || c == '[' ensures c in f <==> c in part {
      if c in f { var i :| 0 <= i < |f| && f[i] == c; assert part[i] == c; }
      if c in part { var i :| 0 <= i < |part| && part[i] == c; assert f[i] == c; }
    }
  }

  /** Where not both segments are wild, the clash test is exact. */
  lemma MeetUnlessClash(fold: char -> char, left: string, right: string)
    requires FoldExact(fold) && !(Wild(left) && Wild(right))
    ensures Meet(fold, left, right) <==> !Clash(Fold(fold, left), Fold(fold, right))
  {
    var l, r := Fold(fold, left), Fold(fold, right);
    WildFolds(fold, left);
    WildFolds(fold, right);
    if Meet(fold, left, right) {
      var x, y :| Fold(fold, x) == Fold(fold, y) && Fnmatch(x, left) && Fnmatch(y, right);
      FoldKeepsMatch(fold, x, left);
      FoldKeepsMatch(fold, y, right);
      if Clash(l, r) { ClashMatchesNothing(l, r, Fold(fold, x)); }
    }
    if !Clash(l, r) {
      LiteralMatchesItself(left);
      LiteralMatchesItself(right);
      if !Wild(left) && !Wild(right) {
        assert Fold(fold, left) == Fold(fold, right) && Fnmatch(left, left) && Fnmatch(right, right);
      } else if Wild(left) {
        var z := Respell(fold, right, left);
        assert Fold(fold, z) == Fold(fold, right) && Fnmatch(z, left) && Fnmatch(right, right);
      } else {
        var z := Respell(fold, left, right);
        assert Fold(fold, left) == Fold(fold, z) && Fnmatch(left, left) && Fnmatch(z, right);
      }
    }
  }

  lemma LiteralMatchesItself(part: string)
    ensures !Wild(part) ==> Fnmatch(part, part)
  {
    if !Wild(part) { LiteralMatches(part, part); }
  }

  /** Every segment pattern matches some name. */
  lemma {:induction false} SomeName(pattern: string) returns (name: string)
    ensures Fnmatch(name, pattern)
  {
    if pattern == "" {
      name := "";
    } else {
      var rest := SomeName(pattern[1..]);
      name := if pattern[0] == '*' then rest else [pattern[0]] + rest;
      assert pattern[0] != '*' ==> name[1..] == rest;
    }
  }

  /** Decides whether two segment patterns share a name. */
  predicate SegmentsMeet(fold: char -> char, left: string, right: string)
    decreases |left| + |right|
  {
    if left == "" && right == "" then true
    else if left != "" && left[0] == '*' then
      SegmentsMeet(fold, left[1..], right) || (right != "" && SegmentsMeet(fold, left, right[1..]))
    else if right != "" && right[0] == '*' then
      SegmentsMeet(fold, left, right[1..]) || (left != "" && SegmentsMeet(fold, left[1..], right))
    else
      && left != "" && right != ""
      && (left[0] == '?' || right[0] == '?' || fold(left[0]) == fold(right[0]))
      && SegmentsMeet(fold, left[1..], right[1..])
  }

  lemma {:induction false} NamesMeet(fold: char -> char, left: string, right: string, x: string, y: string)
    requires Fold(fold, x) == Fold(fold, y) && Fnmatch(x, left) && Fnmatch(y, right)
    ensures SegmentsMeet(fold, left, right)
    decreases |left| + |right| + |x|
  {
    assert |x| == |Fold(fold, x)| == |y|;
    if x != "" {
      assert Fold(fold, x)[0] == Fold(fold, y)[0];
      assert Fold(fold, x[1..]) == Fold(fold, x)[1..] == Fold(fold, y)[1..] == Fold(fold, y[1..]);
    }
    if left != "" && left[0] == '*' && Fnmatch(x, left[1..]) {
      NamesMeet(fold, left[1..], right, x, y);
    } else if right != "" && right[0] == '*' && Fnmatch(y, right[1..]) {
      NamesMeet(fold, left, right[1..], x, y);
    } else if left != "" && right != "" {
      var l := if left[0] == '*' then left else left[1..];
      var r := if right[0] == '*' then right else right[1..];
      NamesMeet(fold, l, r, x[1..], y[1..]);
    }
  }

  /** A character that a pattern with this head takes: itself, or what the other
      pattern asks for where it is a wildcard. */
  function Taken(head: char, other: char): char {
    if head == '*' || (head == '?' && other != '*') then other else head
  }

  lemma TakesOne(pattern: string, c: char, rest: string)
    requires pattern != ""
    requires if pattern[0] == '*' then Fnmatch(rest, pattern)
             else (pattern[0] == '?' || pattern[0] == c) && Fnmatch(rest, pattern[1..])
    ensures Fnmatch([c] + rest, pattern)
  {
    assert ([c] + rest)[1..] == rest;
  }

  lemma {:induction false} MeetingNames(fold: char -> char, left: string, right: string) returns (x: string, y: string)
    requires SegmentsMeet(fold, left, right)
    ensures Fold(fold, x) == Fold(fold, y) && Fnmatch(x, left) && Fnmatch(y, right)
    decreases |left| + |right|
  {
    if left == "" && right == "" {
      x, y := "", "";
    } else if left != "" && left[0] == '*' && SegmentsMeet(fold, left[1..], right) {
      x, y := MeetingNames(fold, left[1..], right);
    } else if right != "" && right[0] == '*' && SegmentsMeet(fold, left, right[1..]) {
      x, y := MeetingNames(fold, left, right[1..]);
    } else {
      var l := if left[0] == '*' then left else left[1..];
      var r := if right[0] == '*' then right else right[1..];
      var a, b := MeetingNames(fold, l, r);
      var c, d := Taken(left[0], right[0]), Taken(right[0], left[0]);
      x, y := [c] + a, [d] + b;
      assert x[1..] == a && y[1..] == b;
      FoldCons(fold, x, y);
      TakesOne(left, c, a);
      TakesOne(right, d, b);
    }
  }

  lemma MeetIff(fold: char -> char, left: string, right: string)
    ensures Meet(fold, left, right) <==> SegmentsMeet(fold, left, right)
  {
    if Meet(fold, left, right) {
      var x, y :| Fold(fold, x) == Fold(fold, y) && Fnmatch(x, left) && Fnmatch(y, right);
      NamesMeet(fold, left, right, x, y);
    }
    if SegmentsMeet(fold, left, right) {
      var x, y := MeetingNames(fold, left, right);
    }
  }

  /** Decides whether two path patterns share a path. */
  predicate PatternsMeet(fold: char -> char, left: Path, right: Path)
    decreases |left| + |right|
  {
    if left == [] && right == [] then true
    else if left != [] && left[0] == "**" then
      PatternsMeet(fold, left[1..], right) || (right != [] && PatternsMeet(fold, left, right[1..]))
    else if right != [] && right[0] == "**" then
      PatternsMeet(fold, left, right[1..]) || (left != [] && PatternsMeet(fold, left[1..], right))
    else
      && left != [] && right != []
      && SegmentsMeet(fold, left[0], right[0])
      && PatternsMeet(fold, left[1..], right[1..])
  }

  lemma {:induction false} PathsMeet(fold: char -> char, left: Path, right: Path, p: Path, q: Path)
    requires FoldPath(fold, p) == FoldPath(fold, q) && Matches(left, p) && Matches(right, q)
    ensures PatternsMeet(fold, left, right)
    decreases |left| + |right| + |p|
  {
    assert |p| == |FoldPath(fold, p)| == |q|;
    if p != [] {
      assert Fold(fold, p[0]) == FoldPath(fold, p)[0] == FoldPath(fold, q)[0] == Fold(fold, q[0]);
      assert FoldPath(fold, p[1..]) == FoldPath(fold, p)[1..] == FoldPath(fold, q)[1..] == FoldPath(fold, q[1..]);
    }
    if left != [] && left[0] == "**" && Matches(left[1..], p) {
      PathsMeet(fold, left[1..], right, p, q);
    } else if right != [] && right[0] == "**" && Matches(right[1..], q) {
      PathsMeet(fold, left, right[1..], p, q);
    } else if left != [] && right != [] {
      var l := if left[0] == "**" then left else left[1..];
      var r := if right[0] == "**" then right else right[1..];
      PathsMeet(fold, l, r, p[1..], q[1..]);
      if left[0] != "**" && right[0] != "**" { NamesMeet(fold, left[0], right[0], p[0], q[0]); }
    }
  }

  lemma FoldPathCons(fold: char -> char, x: string, a: Path, y: string, b: Path)
    requires Fold(fold, x) == Fold(fold, y) && FoldPath(fold, a) == FoldPath(fold, b)
    ensures FoldPath(fold, [x] + a) == FoldPath(fold, [y] + b)
  {
    assert FoldPath(fold, [x] + a) == [Fold(fold, x)] + FoldPath(fold, a);
    assert FoldPath(fold, [y] + b) == [Fold(fold, y)] + FoldPath(fold, b);
  }

  lemma TakesSegment(pattern: Path, x: string, rest: Path)
    requires pattern != []
    requires if pattern[0] == "**" then Matches(pattern, rest)
             else Fnmatch(x, pattern[0]) && Matches(pattern[1..], rest)
    ensures Matches(pattern, [x] + rest)
  {
    assert ([x] + rest)[1..] == rest;
  }

  /** Names for the first segments of a common path. */
  lemma HeadNames(fold: char -> char, left: string, right: string) returns (x: string, y: string)
    requires left != "**" && right != "**" ==> SegmentsMeet(fold, left, right)
    ensures Fold(fold, x) == Fold(fold, y)
    ensures (left != "**" ==> Fnmatch(x, left)) && (right != "**" ==> Fnmatch(y, right))
  {
    if left == "**" {
      x := SomeName(right);
      y := x;
    } else if right == "**" {
      x := SomeName(left);
      y := x;
    } else {
      x, y := MeetingNames(fold, left, right);
    }
  }

  lemma {:induction false} MeetingPaths(fold: char -> char, left: Path, right: Path) returns (p: Path, q: Path)
    requires PatternsMeet(fold, left, right)
    ensures FoldPath(fold, p) == FoldPath(fold, q) && Matches(left, p) && Matches(right, q)
    decreases |left| + |right|
  {
    if left == [] && right == [] {
      p, q := [], [];
    } else if left != [] && left[0] == "**" && PatternsMeet(fold, left[1..], right) {
      p, q := MeetingPaths(fold, left[1..], right);
    } else if right != [] && right[0] == "**" && PatternsMeet(fold, left, right[1..]) {
      p, q := MeetingPaths(fold, left, right[1..]);
    } else {
      var l := if left[0] == "**" then left else left[1..];
      var r := if right[0] == "**" then right else right[1..];
      var a, b := MeetingPaths(fold, l, r);
      var x, y := HeadNames(fold, left[0], right[0]);
      p, q := [x] + a, [y] + b;
      FoldPathCons(fold, x, a, y, b);
      TakesSegment(left, x, a);
      TakesSegment(right, y, b);
    }
  }

  /** Which patterns share a path, for all patterns. */
  lemma CommonIff(fold: char -> char, left: Path, right: Path)
    ensures Common(fold, left, right) <==> PatternsMeet(fold, left, right)
  {
    if Common(fold, left, right) {
      var p, q :| FoldPath(fold, p) == FoldPath(fold, q) && Matches(left, p) && Matches(right, q);
      PathsMeet(fold, left, right, p, q);
    }
    if PatternsMeet(fold, left, right) {
      var p, q := MeetingPaths(fold, left, right);
    }
  }

  /** For all patterns: the overlap test is right exactly when some position
      separates them or they do meet. */
  lemma OverlapExactIff(fold: char -> char, left: Path, right: Path)
    requires FoldOk(fold)
    ensures (Flagged(fold, left, right) <==> Common(fold, left, right)) <==>
            || (exists i :: Separates(FoldPath(fold, left), FoldPath(fold, right), i))
            || PatternsMeet(fold, left, right)
  {
    CommonIff(fold, left, right);
    if Common(fold, left, right) { CommonIsFlagged(fold, left, right); }
  }

  /** The patterns packets use: a body without `**`, and perhaps a last `**`. */
  function Full(body: Path, open: bool): Path { body + if open then ["**"] else [] }

  /** The lengths of the two bodies allow a common path. */
  predicate LengthsAgree(left: Path, leftOpen: bool, right: Path, rightOpen: bool) {
    (leftOpen || |right| <= |left|) && (rightOpen || |left| <= |right|)
  }

  function Shorter(left: Path, right: Path): nat { if |left| <= |right| then |left| else |right| }

  predicate AllMeet(fold: char -> char, left: Path, right: Path) {
    forall i | 0 <= i < Shorter(left, right) :: SegmentsMeet(fold, left[i], right[i])
  }

  /** An exhausted body meets the rest exactly when it is open or the rest is too. */
  lemma {:induction false} EmptyMeets(fold: char -> char, open: bool, body: Path, bodyOpen: bool)
    requires "**" !in body
    ensures PatternsMeet(fold, Full([], open), Full(body, bodyOpen)) <==> open || body == []
    ensures PatternsMeet(fold, Full(body, bodyOpen), Full([], open)) <==> open || body == []
  {
    var l, r := Full([], open), Full(body, bodyOpen);
    assert l == if open then ["**"] else [];
    assert open ==> l[1..] == [];
    if body == [] {
      assert r == if bodyOpen then ["**"] else [];
      assert bodyOpen ==> r[1..] == [];
      assert PatternsMeet(fold, [], []) && PatternsMeet(fold, [], r) && PatternsMeet(fold, r, []);
    } else {
      assert r[0] == body[0] && r[1..] == Full(body[1..], bodyOpen);
      EmptyMeets(fold, open, body[1..], bodyOpen);
    }
  }

  /** Which such patterns meet. */
  lemma {:induction false} MeetFlat(fold: char -> char, left: Path, leftOpen: bool, right: Path, rightOpen: bool)
    requires "**" !in left && "**" !in right
    ensures PatternsMeet(fold, Full(left, leftOpen), Full(right, rightOpen)) <==>
            LengthsAgree(left, leftOpen, right, rightOpen) && AllMeet(fold, left, right)
  {
    if left == [] {
      EmptyMeets(fold, leftOpen, right, rightOpen);
    } else if right == [] {
      EmptyMeets(fold, rightOpen, left, leftOpen);
    } else {
      var l, r := Full(left, leftOpen), Full(right, rightOpen);
      assert l[0] == left[0] && l[1..] == Full(left[1..], leftOpen);
      assert r[0] == right[0] && r[1..] == Full(right[1..], rightOpen);
      MeetFlat(fold, left[1..], leftOpen, right[1..], rightOpen);
      AllMeetHead(fold, left, right);
    }
  }

  lemma AllMeetHead(fold: char -> char, left: Path, right: Path)
    requires left != [] && right != []
    ensures AllMeet(fold, left, right) <==>
            SegmentsMeet(fold, left[0], right[0]) && AllMeet(fold, left[1..], right[1..])
  {
    assert forall i | 1 <= i < Shorter(left, right) :: left[i] == left[1..][i - 1] && right[i] == right[1..][i - 1];
    if AllMeet(fold, left, right) {
      assert SegmentsMeet(fold, left[0], right[0]);
      forall i | 0 <= i < Shorter(left[1..], right[1..]) ensures SegmentsMeet(fold, left[1..][i], right[1..][i]) {
        assert SegmentsMeet(fold, left[i + 1], right[i + 1]);
      }
    }
  }

  lemma StarFolds(fold: char -> char, part: string)
    requires FoldExact(fold)
    ensures Fold(fold, part) == "**" <==> part == "**"
  {
    if Fold(fold, part) == "**" { assert part[0] == '*' && part[1] == '*'; }
    assert Fold(fold, "**") == "**";
  }

  /** On such patterns the scan compares the bodies position by position. */
  lemma SeparatesFlat(fold: char -> char, left: Path, leftOpen: bool, right: Path, rightOpen: bool, i: int)
    requires FoldExact(fold) && "**" !in left && "**" !in right
    ensures Separates(FoldPath(fold, Full(left, leftOpen)), FoldPath(fold, Full(right, rightOpen)), i) <==>
            0 <= i < Shorter(left, right) && Clash(Fold(fold, left[i]), Fold(fold, right[i]))
  {
    if 0 <= i {
      PrefixOfFull(fold, left, leftOpen, i);
      PrefixOfFull(fold, right, rightOpen, i);
    }
  }

  lemma PrefixOfFull(fold: char -> char, body: Path, open: bool, i: nat)
    requires FoldExact(fold) && "**" !in body
    ensures var f := FoldPath(fold, Full(body, open));
            (i < |f| && "**" !in f[..i + 1]) <==> i < |body|
  {
    var f := FoldPath(fold, Full(body, open));
    if i < |body| {
      forall j | 0 <= j <= i ensures f[j] != "**" { StarFolds(fold, body[j]); assert body[j] in body; }
    } else if i < |f| {
      StarFolds(fold, "**");
      assert f[..i + 1][|body|] == "**";
    }
  }

  /** The overlap test on such patterns is right exactly when it finds a clash, or
      the lengths allow a common path and the positions wild on both sides, which
      it never compares, have a name in common. */
  lemma OverlapExactFlat(fold: char -> char, left: Path, leftOpen: bool, right: Path, rightOpen: bool)
    requires FoldExact(fold) && "**" !in left && "**" !in right
    ensures var l, r := Full(left, leftOpen), Full(right, rightOpen);
            (Flagged(fold, l, r) <==> Common(fold, l, r)) <==>
            || !Flagged(fold, l, r)
            || (&& LengthsAgree(left, leftOpen, right, rightOpen)
                && forall i | 0 <= i < Shorter(left, right) && Wild(left[i]) && Wild(right[i]) ::
                     SegmentsMeet(fold, left[i], right[i]))
  {
    var l, r := Full(left, leftOpen), Full(right, rightOpen);
    CommonIff(fold, l, r);
    MeetFlat(fold, left, leftOpen, right, rightOpen);
    if Common(fold, l, r) { CommonIsFlagged(fold, l, r); }
    if Flagged(fold, l, r) {
      forall i | 0 <= i < Shorter(left, right) && !(Wild(left[i]) && Wild(right[i]))
        ensures SegmentsMeet(fold, left[i], right[i])
      {
        SeparatesFlat(fold, left, leftOpen, right, rightOpen, i);
        MeetUnlessClash(fold, left[i], right[i]);
        MeetIff(fold, left[i], right[i]);
      }
    }
  }

  /** Without a position wild on both sides: right exactly when it finds a clash or
      the lengths allow a common path. */
  lemma OverlapExactUnlessBothWild(fold: char -> char, left: Path, leftOpen: bool, right: Path, rightOpen: bool)
    requires FoldExact(fold) && "**" !in left && "**" !in right
    requires forall i | 0 <= i < Shorter(left, right) :: !(Wild(left[i]) && Wild(right[i]))
    ensures var l, r := Full(left, leftOpen), Full(right, rightOpen);
            (Flagged(fold, l, r) <==> Common(fold, l, r)) <==>
            !Flagged(fold, l, r) || LengthsAgree(left, leftOpen, right, rightOpen)
  {
    OverlapExactFlat(fold, left, leftOpen, right, rightOpen);
  }

  /** Two ways it is wrong: a pattern and one that continues it … */
  lemma ContinuationIsFlagged(fold: char -> char, left: Path, more: Path)
    requires FoldExact(fold) && "**" !in left && "**" !in more && more != []
    ensures Flagged(fold, left, left + more) && !Common(fold, left, left + more)
  {
    var right := left + more;
    assert Full(left, false) == left && Full(right, false) == right;
    CommonIff(fold, left, right);
    MeetFlat(fold, left, false, right, false);
    forall i ensures !Separates(FoldPath(fold, left), FoldPath(fold, right), i) {
      SeparatesFlat(fold, left, false, right, false, i);
    }
  }

  /** … and two segments with wildcards that match nothing in common. */
  lemma BothWildIsFlagged(fold: char -> char, a: char, b: char)
    requires FoldExact(fold) && fold(a) != fold(b)
    requires fold(a) != '*' && fold(a) != '?' && fold(b) != '*' && fold(b) != '?'
    ensures var left, right := [[a] + "*"], [[b] + "*"];
            Flagged(fold, left, right) && !Common(fold, left, right)
  {
    var left, right := [[a] + "*"], [[b] + "*"];
    assert Full(left, false) == left && Full(right, false) == right;
    assert a != '*' && b != '*' && left[0][0] == a && right[0][0] == b && "**"[0] == '*';
    CommonIff(fold, left, right);
    MeetFlat(fold, left, false, right, false);
    assert left[0][1] == '*' && right[0][1] == '*';
    WildFolds(fold, left[0]);
    WildFolds(fold, right[0]);
    forall i ensures !Separates(FoldPath(fold, left), FoldPath(fold, right), i) {
      SeparatesFlat(fold, left, false, right, false, i);
    }
  }
}
