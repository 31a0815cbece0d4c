/** Task Packets as write boundaries: which packets are accepted, and which diffs
    an accepted packet authorises. */
module WriteBoundary {
  import opened Text
  import opened PathPatterns

  datatype Packet = Packet(allowed: seq<Path>, readOnly: seq<Path>, forbidden: seq<Path>)

  predicate Authorises(patterns: seq<Path>, path: Path) {
    exists k | 0 <= k < |patterns| :: Matches(patterns[k], path)
  }

  /** Some position tells two patterns apart. */
  ghost predicate Separated(fold: char -> char, left: Path, right: Path) {
    exists i :: Separates(FoldPath(fold, left), FoldPath(fold, right), i)
  }

  ghost predicate AllSeparated(fold: char -> char, left: seq<Path>, right: seq<Path>) {
    forall i, j | 0 <= i < |left| && 0 <= j < |right| :: Separated(fold, left[i], right[j])
  }

  predicate UniqueFolded(fold: char -> char, patterns: seq<Path>) {
    forall i, j | 0 <= i < j < |patterns| :: FoldPath(fold, patterns[i]) != FoldPath(fold, patterns[j])
  }

  method AnyOverlap(fold: char -> char, left: seq<Path>, right: seq<Path>) returns (found: bool)
    ensures found <==> !AllSeparated(fold, left, right)
  {
    for i := 0 to |left|
      invariant forall a, j | 0 <= a < i && 0 <= j < |right| :: Separated(fold, left[a], right[j])
    {
      for j := 0 to |right|
        invariant forall b | 0 <= b < j :: Separated(fold, left[i], right[b])
      {
        var overlap := PatternsOverlap(fold, left[i], right[j]);
        if overlap {
          assert !Separated(fold, left[i], right[j]);
          return true;
        }
      }
    }
    return false;
  }

  ghost predicate BoundariesOk(fold: char -> char, p: Packet) {
    && UniqueFolded(fold, p.allowed) && UniqueFolded(fold, p.readOnly) && UniqueFolded(fold, p.forbidden)
    && AllSeparated(fold, p.allowed, p.readOnly) && AllSeparated(fold, p.allowed, p.forbidden)
  }

  method ValidateBoundaries(fold: char -> char, p: Packet) returns (ok: bool)
    ensures ok <==> BoundariesOk(fold, p)
  {
    if !UniqueFolded(fold, p.allowed) || !UniqueFolded(fold, p.readOnly) || !UniqueFolded(fold, p.forbidden) {
      return false;
    }
    var clash := AnyOverlap(fold, p.allowed, p.readOnly);
    if clash {
      return false;
    }
    clash := AnyOverlap(fold, p.allowed, p.forbidden);
    return !clash;
  }

  /** A packet that passes never both allows and withholds a path, not even under
      two spellings that differ only in case. */
  lemma BoundariesAreDisjoint(fold: char -> char, p: Packet, path: Path, spelled: Path)
    requires FoldOk(fold) && BoundariesOk(fold, p) && FoldPath(fold, path) == FoldPath(fold, spelled)
    requires Authorises(p.allowed, path)
    ensures !Authorises(p.readOnly, spelled) && !Authorises(p.forbidden, spelled)
  {
    var a :| 0 <= a < |p.allowed| && Matches(p.allowed[a], path);
    forall b | 0 <= b < |p.readOnly| ensures !Matches(p.readOnly[b], spelled) {
      assert Separated(fold, p.allowed[a], p.readOnly[b]);
      var i :| Separates(FoldPath(fold, p.allowed[a]), FoldPath(fold, p.readOnly[b]), i);
      SeparatedMatchNothing(fold, p.allowed[a], p.readOnly[b], i, path, spelled);
    }
    forall b | 0 <= b < |p.forbidden| ensures !Matches(p.forbidden[b], spelled) {
      assert Separated(fold, p.allowed[a], p.forbidden[b]);
      var i :| Separates(FoldPath(fold, p.allowed[a]), FoldPath(fold, p.forbidden[b]), i);
      SeparatedMatchNothing(fold, p.allowed[a], p.forbidden[b], i, path, spelled);
    }
  }

  // -------------------------------------------------------------------- diff

  datatype Change = Change(path: Path, isLink: bool)

  predicate Within(p: Packet, c: Change) { !c.isLink && Authorises(p.allowed, c.path) }

  predicate Covers(p: Packet, changed: seq<Change>) { forall c | c in changed :: Within(p, c) }

  /** The changed paths one packet does not authorise, in order. */
  function Unauthorised(p: Packet, changed: seq<Change>): (r: seq<Path>)
    ensures r == [] <==> Covers(p, changed)
  {
    if changed == [] then []
    else
      var rest := Unauthorised(p, changed[1..]);
      assert changed == [changed[0]] + changed[1..];
      if Within(p, changed[0]) then rest else [changed[0].path] + rest
  }

  function PathsOf(changed: seq<Change>): (r: seq<Path>)
    ensures |r| == |changed| && forall i | 0 <= i < |r| :: r[i] == changed[i].path
  {
    seq(|changed|, i requires 0 <= i < |changed| => changed[i].path)
  }

  datatype Verdict = Accepted | Rejected(closest: seq<Path>)

  /** A diff is accepted exactly when one packet authorises every changed path;
      otherwise the verdict lists what the closest packet leaves out. */
  method ValidateWriteBoundary(changed: seq<Change>, packets: seq<Packet>) returns (v: Verdict)
    ensures v.Accepted? <==> changed == [] || exists p | p in packets :: Covers(p, changed)
    ensures v.Rejected? && packets == [] ==> v.closest == PathsOf(changed)
    ensures v.Rejected? && packets != [] ==>
              && (exists p | p in packets :: v.closest == Unauthorised(p, changed))
              && (forall p | p in packets :: |v.closest| <= |Unauthorised(p, changed)|)
  {
    if changed == [] {
      return Accepted;
    }
    var covered, rejected := Rejections(changed, packets);
    if covered {
      return Accepted;
    }
    if rejected == [] {
      return Rejected(PathsOf(changed));
    }
    var best := Shortest(rejected);
    assert packets[best] in packets;
    return Rejected(rejected[best]);
  }

  /** What each packet leaves out, up to the first that leaves nothing out. */
  method Rejections(changed: seq<Change>, packets: seq<Packet>) returns (covered: bool, rejected: seq<seq<Path>>)
    ensures covered <==> exists p | p in packets :: Covers(p, changed)
    ensures !covered ==>
              && |rejected| == |packets|
              && forall j | 0 <= j < |packets| :: rejected[j] == Unauthorised(packets[j], changed)
  {
    rejected := [];
    for k := 0 to |packets|
      invariant |rejected| == k
      invariant forall j | 0 <= j < k :: rejected[j] == Unauthorised(packets[j], changed) && rejected[j] != []
    {
      var unauthorised := Unauthorised(packets[k], changed);
      if unauthorised == [] {
        assert packets[k] in packets;
        return true, rejected;
      }
      rejected := rejected + [unauthorised];
    }
    return false, rejected;
  }

  method Shortest(lists: seq<seq<Path>>) returns (best: nat)
    requires lists != []
    ensures best < |lists| && forall j | 0 <= j < |lists| :: |lists[best]| <= |lists[j]|
  {
    best := 0;
    for k := 1 to |lists|
      invariant 0 <= best < |lists|
      invariant forall j | 0 <= j < k :: |lists[best]| <= |lists[j]|
    {
      if |lists[k]| < |lists[best]| {
        best := k;
      }
    }
  }

  /** The whole boundary: a non-empty diff that passes, against packets that
      passed, has one packet that allows every changed path and withholds none,
      under any casing, and changes no link. */
  lemma AcceptedDiffStaysInside(fold: char -> char, changed: seq<Change>, packets: seq<Packet>) returns (p: Packet)
    requires FoldOk(fold) && changed != []
    requires forall q | q in packets :: BoundariesOk(fold, q)
    requires exists q | q in packets :: Covers(q, changed)
    ensures p in packets
    ensures forall c, spelled | c in changed && FoldPath(fold, spelled) == FoldPath(fold, c.path) ::
              && !c.isLink && Authorises(p.allowed, c.path)
              && !Authorises(p.readOnly, spelled) && !Authorises(p.forbidden, spelled)
  {
    p :| p in packets && Covers(p, changed);
    forall c, spelled | c in changed && FoldPath(fold, spelled) == FoldPath(fold, c.path)
      ensures && !c.isLink && Authorises(p.allowed, c.path)
              && !Authorises(p.readOnly, spelled) && !Authorises(p.forbidden, spelled)
    {
      assert Within(p, c);
      BoundariesAreDisjoint(fold, p, c.path, spelled);
    }
  }

  // ------------------------------------------------------------- name-status

  /** Split at every NUL. */
  function Split(s: string): (fields: seq<string>)
    ensures fields != []
  {
    if s == "" then [""]
    else
      var rest := Split(s[1..]);
      if s[0] == '\0' then [""] + rest else [[s[0]] + rest[0]] + rest[1..]
  }

  function DropNuls(s: string): string {
    if s != "" && s[|s| - 1] == '\0' then DropNuls(s[..|s| - 1]) else s
  }

  function PathCount(status: string): nat {
    if status != "" && (status[0] == 'C' || status[0] == 'R') then 2 else 1
  }

  predicate Ascii(field: string) { forall i | 0 <= i < |field| :: field[i] < '\U{80}' }

  /** How the bytes of a path read as UTF-8 text; `None` when they do not. */
  type Utf8 = string -> Option<string>

  predicate Decodes(fields: seq<string>, utf8: Utf8) { forall f | f in fields :: utf8(f).Some? }

  function Texts(fields: seq<string>, utf8: Utf8): set<string>
    requires Decodes(fields, utf8)
  {
    set f | f in fields :: utf8(f).value
  }

  /** The records from field `i` on; `None` when a record is cut short, its status
      is not ASCII or a path is not UTF-8. */
  function PathsFrom(fields: seq<string>, i: nat, utf8: Utf8): Option<set<string>>
    requires i <= |fields|
    decreases |fields| - i
  {
    if i == |fields| then Some({})
    else
      var n := PathCount(fields[i]);
      if !Ascii(fields[i]) || i + n >= |fields| || !Decodes(fields[i + 1..i + 1 + n], utf8) then None
      else match PathsFrom(fields, i + 1 + n, utf8)
        case None => None
        case Some(rest) => Some(Texts(fields[i + 1..i + 1 + n], utf8) + rest)
  }

  function Fields(output: string): seq<string> {
    if output == "" then [] else Split(DropNuls(output))
  }

  /** The index loop over the fields; a rename or copy record names two paths. */
  method ParseNameStatus(output: string, utf8: Utf8) returns (r: Option<set<string>>)
    ensures r == PathsFrom(Fields(output), 0, utf8)
  {
    var fields := Fields(output);
    var paths: set<string> := {};
    var index := 0;
    Joined(PathsFrom(fields, 0, utf8));
    while index < |fields|
      invariant 0 <= index <= |fields|
      invariant PathsFrom(fields, 0, utf8) == With(paths, PathsFrom(fields, index, utf8))
    {
      var count := PathCount(fields[index]);
      if !Ascii(fields[index]) || index + count >= |fields| || !Decodes(fields[index + 1..index + 1 + count], utf8) {
        return None;
      }
      var more := Texts(fields[index + 1..index + 1 + count], utf8);
      Gathered(paths, more, PathsFrom(fields, index + 1 + count, utf8));
      paths := paths + more;
      index := index + 1 + count;
    }
    assert paths + {} == paths;
    return Some(paths);
  }

  function With(paths: set<string>, rest: Option<set<string>>): Option<set<string>> {
    if rest.None? then None else Some(paths + rest.value)
  }

  lemma Joined(rest: Option<set<string>>)
    ensures With({}, rest) == rest
  {
    if rest.Some? { assert {} + rest.value == rest.value; }
  }

  lemma Gathered(paths: set<string>, more: set<string>, rest: Option<set<string>>)
    ensures With(paths, With(more, rest)) == With(paths + more, rest)
  {
    if rest.Some? { assert paths + (more + rest.value) == paths + more + rest.value; }
  }

  datatype Record = Record(status: string, paths: seq<string>)

  predicate Word(s: string) { s != "" && '\0' !in s }

  predicate RecordOk(r: Record, utf8: Utf8) {
    && Word(r.status) && Ascii(r.status) && |r.paths| == PathCount(r.status)
    && (forall p | p in r.paths :: Word(p)) && Decodes(r.paths, utf8)
  }

  function Flatten(rs: seq<Record>): seq<string> {
    if rs == [] then [] else [rs[0].status] + rs[0].paths + Flatten(rs[1..])
  }

  /** What git writes: every field followed by a NUL. */
  function Terminated(fields: seq<string>): string {
    if fields == [] then "" else fields[0] + "\0" + Terminated(fields[1..])
  }

  function AllPaths(rs: seq<Record>, utf8: Utf8): set<string>
    requires forall r | r in rs :: RecordOk(r, utf8)
  {
    if rs == [] then {}
    else assert RecordOk(rs[0], utf8); Texts(rs[0].paths, utf8) + AllPaths(rs[1..], utf8)
  }

  lemma {:induction false} SplitWord(w: string, rest: string)
    requires '\0' !in w
    ensures Split(w) == [w] && Split(w + "\0" + rest) == [w] + Split(rest)
  {
    var s := w + "\0" + rest;
    if w == "" {
      assert s[1..] == rest;
    } else {
      SplitWord(w[1..], rest);
      assert s[1..] == w[1..] + "\0" + rest;
      assert [w[0]] + w[1..] == w;
    }
  }

  lemma {:induction false} SplitTerminated(fields: seq<string>)
    requires fields != [] && forall f | f in fields :: Word(f)
    ensures var s := Terminated(fields);
            && |s| >= 2 && s[|s| - 1] == '\0' && s[|s| - 2] != '\0'
            && Split(s[..|s| - 1]) == fields
  {
    var s, f := Terminated(fields), fields[0];
    assert Word(f);
    if |fields| == 1 {
      assert Terminated(fields[1..]) == "";
      assert s == f + "\0" && s[..|f|] == f;
      SplitWord(f, "");
    } else {
      var rest := Terminated(fields[1..]);
      SplitTerminated(fields[1..]);
      SplitWord(f, rest[..|rest| - 1]);
      assert s[..|s| - 1] == f + "\0" + rest[..|rest| - 1];
      assert fields == [f] + fields[1..];
    }
  }

  lemma {:induction false} PathsOfRecords(before: seq<string>, rs: seq<Record>, utf8: Utf8)
    requires forall r | r in rs :: RecordOk(r, utf8)
    ensures PathsFrom(before + Flatten(rs), |before|, utf8) == Some(AllPaths(rs, utf8))
    decreases rs
  {
    var fields, i := before + Flatten(rs), |before|;
    if rs == [] {
    } else {
      var r, n := rs[0], |rs[0].paths|;
      assert RecordOk(r, utf8);
      assert fields[i] == r.status;
      assert fields[i + 1..i + 1 + n] == r.paths;
      var done := before + [r.status] + r.paths;
      assert fields == done + Flatten(rs[1..]);
      PathsOfRecords(done, rs[1..], utf8);
    }
  }

  lemma {:induction false} FlattenWords(rs: seq<Record>, utf8: Utf8)
    requires forall r | r in rs :: RecordOk(r, utf8)
    ensures forall f | f in Flatten(rs) :: Word(f)
  {
    if rs == [] {
    } else {
      assert RecordOk(rs[0], utf8);
      FlattenWords(rs[1..], utf8);
    }
  }

  /** Every path git names, on both sides of a rename or copy, is a changed path. */
  lemma NameStatusRoundTrip(rs: seq<Record>, utf8: Utf8)
    requires forall r | r in rs :: RecordOk(r, utf8)
    ensures PathsFrom(Fields(Terminated(Flatten(rs))), 0, utf8) == Some(AllPaths(rs, utf8))
  {
    FlattenWords(rs, utf8);
    FieldsOfTerminated(Flatten(rs));
    PathsOfRecords([], rs, utf8);
    assert [] + Flatten(rs) == Flatten(rs);
  }

  lemma FieldsOfTerminated(fields: seq<string>)
    requires forall f | f in fields :: Word(f)
    ensures Fields(Terminated(fields)) == fields
  {
    if fields != [] {
      SplitTerminated(fields);
      var s := Terminated(fields);
      assert DropNuls(s) == s[..|s| - 1];
    }
  }

  // ------------------------------------------------- from git's output to a verdict

  /** How a changed path reads as segments, unless it is refused, and which paths
      are links. */
  datatype Tree = Tree(normalise: string -> Option<Path>, isLink: Path -> bool)

  predicate Readable(tree: Tree, paths: set<string>) { forall p | p in paths :: tree.normalise(p).Some? }

  function ChangeOf(tree: Tree, path: string): Change
    requires tree.normalise(path).Some?
  {
    var p := tree.normalise(path).value;
    Change(p, tree.isLink(p))
  }

  /** The packet authorises every changed path. */
  predicate Authorised(q: Packet, tree: Tree, paths: set<string>) {
    forall p | p in paths :: tree.normalise(p).Some? && Within(q, ChangeOf(tree, p))
  }

  method InOrder(paths: set<string>) returns (order: seq<string>)
    ensures StrictlySorted(order) && Members(order) == paths
  {
    order := [];
    var rest := paths;
    while rest != {}
      invariant StrictlySorted(order) && Members(order) + rest == paths
      decreases rest
    {
      var p :| p in rest;
      order := Insert(p, order);
      rest := rest - {p};
    }
  }

  /** The changed paths in order, or None when one is refused. */
  method ReadChanges(tree: Tree, paths: set<string>) returns (changed: Option<seq<Change>>)
    ensures changed.Some? <==> Readable(tree, paths)
    ensures changed.Some? ==> (changed.value == [] <==> paths == {})
    ensures changed.Some? ==> forall q :: Covers(q, changed.value) <==> Authorised(q, tree, paths)
  {
    var order := InOrder(paths);
    var read: seq<Change> := [];
    for i := 0 to |order|
      invariant |read| == i
      invariant forall j | 0 <= j < i :: tree.normalise(order[j]).Some? && read[j] == ChangeOf(tree, order[j])
    {
      assert order[i] in Members(order);
      if tree.normalise(order[i]).None? { return None; }
      read := read + [ChangeOf(tree, order[i])];
    }
    forall p | p in paths ensures tree.normalise(p).Some? && ChangeOf(tree, p) in read {
      assert p in Members(order);
      var j :| 0 <= j < |order| && order[j] == p;
      assert read[j] in read;
    }
    forall q ensures Covers(q, read) <==> Authorised(q, tree, paths) {
      CoversSame(q, tree, order, read);
    }
    EmptyMembers(order);
    return Some(read);
  }

  lemma CoversSame(q: Packet, tree: Tree, order: seq<string>, read: seq<Change>)
    requires |read| == |order|
    requires forall j | 0 <= j < |order| :: tree.normalise(order[j]).Some? && read[j] == ChangeOf(tree, order[j])
    ensures Covers(q, read) <==> Authorised(q, tree, Members(order))
  {
    if Covers(q, read) {
      forall p | p in Members(order) ensures tree.normalise(p).Some? && Within(q, ChangeOf(tree, p)) {
        var j :| 0 <= j < |order| && order[j] == p;
        assert read[j] in read;
      }
    }
    if Authorised(q, tree, Members(order)) {
      forall c | c in read ensures Within(q, c) {
        var j :| 0 <= j < |read| && read[j] == c;
        assert order[j] in Members(order);
      }
    }
  }

  /** Git's output is accepted: it can be read, and it changes nothing or one
      packet authorises every path it names. */
  ghost predicate DiffAccepted(output: string, utf8: Utf8, tree: Tree, packets: seq<Packet>) {
    var paths := PathsFrom(Fields(output), 0, utf8);
    paths.Some? && (paths.value == {} || exists q | q in packets :: Authorised(q, tree, paths.value))
  }

  /** The whole check of a committed diff; None when it cannot be judged. */
  method ValidateDiff(output: string, utf8: Utf8, tree: Tree, packets: seq<Packet>) returns (v: Option<Verdict>)
    ensures v == Some(Accepted) <==> DiffAccepted(output, utf8, tree, packets)
    ensures var paths := PathsFrom(Fields(output), 0, utf8);
            v.None? <==> paths.None? || (paths.value != {} && packets == []) || !Readable(tree, paths.value)
  {
    var paths := ParseNameStatus(output, utf8);
    if paths.None? || (paths.value != {} && packets == []) { return None; }
    var changed := ReadChanges(tree, paths.value);
    if changed.None? {
      forall q ensures !Authorised(q, tree, paths.value) {}
      return None;
    }
    var verdict := ValidateWriteBoundary(changed.value, packets);
    return Some(verdict);
  }

  /** The packet authorises both sides of every record. */
  predicate AuthorisesRecords(q: Packet, tree: Tree, rs: seq<Record>, utf8: Utf8) {
    forall r, p | r in rs && p in r.paths ::
      utf8(p).Some? && tree.normalise(utf8(p).value).Some? && Within(q, ChangeOf(tree, utf8(p).value))
  }

  lemma {:induction false} RecordsAuthorised(q: Packet, tree: Tree, rs: seq<Record>, utf8: Utf8)
    requires forall r | r in rs :: RecordOk(r, utf8)
    ensures AuthorisesRecords(q, tree, rs, utf8) <==> Authorised(q, tree, AllPaths(rs, utf8))
    ensures AllPaths(rs, utf8) == {} <==> rs == []
  {
    if rs == [] {
    } else {
      var first := rs[0];
      assert RecordOk(first, utf8);
      RecordsAuthorised(q, tree, rs[1..], utf8);
      assert utf8(first.paths[0]).value in Texts(first.paths, utf8);
      assert rs == [first] + rs[1..];
      if Authorised(q, tree, AllPaths(rs, utf8)) {
        forall p | p in first.paths
          ensures utf8(p).Some? && tree.normalise(utf8(p).value).Some? && Within(q, ChangeOf(tree, utf8(p).value))
        {
          assert utf8(p).value in Texts(first.paths, utf8);
        }
      }
    }
  }

  /** End to end: what git writes for any records is accepted exactly when there
      are none or one packet authorises every path on both sides of every record. */
  lemma RecordsAcceptedIff(rs: seq<Record>, utf8: Utf8, tree: Tree, packets: seq<Packet>)
    requires forall r | r in rs :: RecordOk(r, utf8)
    ensures DiffAccepted(Terminated(Flatten(rs)), utf8, tree, packets) <==>
            rs == [] || exists q | q in packets :: AuthorisesRecords(q, tree, rs, utf8)
  {
    NameStatusRoundTrip(rs, utf8);
    forall q ensures AuthorisesRecords(q, tree, rs, utf8) <==> Authorised(q, tree, AllPaths(rs, utf8)) {
      RecordsAuthorised(q, tree, rs, utf8);
    }
    RecordsAuthorised(Packet([], [], []), tree, rs, utf8);
  }
}
