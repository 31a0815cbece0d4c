/** The dashboard's replay: entities move only on observations, and each execution
    claim is judged inside its own outcome window. */
module WorkbenchReplay {
  import opened Text

  /** Absent identifiers and locations are empty strings, as the source tests them. */
  datatype Event =
    | Observation(no: int, entity: string, location: string, detail: int)
    | ActionRequest(no: int, action: string, target: string)
    | ActionResult(no: int, action: string, entity: string, claimed: string)
    | Other(no: int)

  datatype Entity = Entity(location: string, detail: int)
  datatype Sighting = Sighting(entity: string, no: int, location: string)
  datatype Claim = Claim(entity: string, no: int, claimed: string)

  datatype State = State(
    entities: map<string, Entity>, targets: map<string, string>,
    sightings: seq<Sighting>, claims: seq<Claim>)

  const EMPTY := State(map[], map[], [], [])

  /** The location an observation leaves an entity at: its own, else the last one. */
  function Located(s: State, entity: string, location: string): string {
    if location != "" then location else if entity in s.entities then s.entities[entity].location else ""
  }

  function ClaimedEntity(s: State, e: Event): string
    requires e.ActionResult?
  {
    if e.entity != "" then e.entity else if e.action in s.targets then s.targets[e.action] else ""
  }

  function Step(s: State, e: Event): State {
    match e
    case Observation(no, entity, location, detail) =>
      if entity == "" then s
      else
        var at := Located(s, entity, location);
        s.(entities := s.entities[entity := Entity(at, detail)],
           sightings := s.sightings + [Sighting(entity, no, at)])
    case ActionRequest(_, action, target) =>
      if action == "" || target == "" then s else s.(targets := s.targets[action := target])
    case ActionResult(no, _, _, claimed) =>
      var entity := ClaimedEntity(s, e);
      if entity == "" then s else s.(claims := s.claims + [Claim(entity, no, claimed)])
    case Other(_) => s
  }

  function Replay(es: seq<Event>): State {
    if es == [] then EMPTY else Step(Replay(es[..|es| - 1]), es[|es| - 1])
  }

  // ----------------------------------------------------------------- judging

  datatype Verdict = AwaitingObservation | NoSpatialClaim | Supported | Contradicted | Unverified

  /** The number of the entity's next claim, which closes this claim's window. */
  function NextClaim(c: Claim, claims: seq<Claim>): Option<int> {
    if claims == [] then None
    else
      var earliest, x := NextClaim(c, claims[..|claims| - 1]), claims[|claims| - 1];
      if x.entity == c.entity && x.no > c.no && (earliest.None? || x.no < earliest.value) then Some(x.no) else earliest
  }

  predicate InWindow(g: Sighting, c: Claim, next: Option<int>) {
    g.entity == c.entity && g.no > c.no && (next.None? || g.no < next.value)
  }

  predicate AnyInWindow(gs: seq<Sighting>, c: Claim, next: Option<int>) {
    exists i | 0 <= i < |gs| :: InWindow(gs[i], c, next)
  }

  /** The first location seen in the window. */
  function Locating(gs: seq<Sighting>, c: Claim, next: Option<int>): Option<string> {
    if gs == [] then None
    else
      var earlier, g := Locating(gs[..|gs| - 1], c, next), gs[|gs| - 1];
      if earlier.Some? then earlier
      else if InWindow(g, c, next) && g.location != "" then Some(g.location)
      else None
  }

  function Judge(c: Claim, s: State): Verdict {
    var next := NextClaim(c, s.claims);
    var seen := Locating(s.sightings, c, next);
    if c.claimed == "" then NoSpatialClaim
    else if seen.Some? then (if seen.value == c.claimed then Supported else Contradicted)
    else if next.Some? || AnyInWindow(s.sightings, c, next) then Unverified
    else AwaitingObservation
  }

  // --------------------------------------------------- actions move nothing

  function Erase(es: seq<Event>): seq<Event> {
    if es == [] then []
    else
      var e := es[|es| - 1];
      Erase(es[..|es| - 1]) + if e.ActionRequest? || e.ActionResult? then [] else [e]
  }

  /** States that agree on the world that was seen. */
  predicate SeesAlike(s: State, t: State) { s.entities == t.entities && s.sightings == t.sightings }

  lemma StepSeesAlike(s: State, t: State, e: Event)
    requires SeesAlike(s, t)
    ensures SeesAlike(Step(s, e), Step(t, e))
    ensures e.ActionRequest? || e.ActionResult? ==> SeesAlike(s, Step(t, e))
  {
  }

  /** Erasing every action event leaves the entities and the sightings as they were:
      an action result is never observed world truth. */
  lemma {:induction false} ActionsMoveNothing(es: seq<Event>)
    ensures SeesAlike(Replay(Erase(es)), Replay(es))
  {
    if es == [] {
    } else {
      var front, e := es[..|es| - 1], es[|es| - 1];
      ActionsMoveNothing(front);
      StepSeesAlike(Replay(Erase(front)), Replay(front), e);
      EraseStep(es);
    }
  }

  lemma EraseStep(es: seq<Event>)
    requires es != []
    ensures var front, e := es[..|es| - 1], es[|es| - 1];
            Replay(Erase(es)) ==
            if e.ActionRequest? || e.ActionResult? then Replay(Erase(front)) else Step(Replay(Erase(front)), e)
  {
    var kept, e := Erase(es[..|es| - 1]), es[|es| - 1];
    if e.ActionRequest? || e.ActionResult? {
      assert Erase(es) == kept;
    } else {
      ReplaySnoc(kept, e);
    }
  }

  // ------------------------------------------------------- windows disjoint

  predicate Increasing(es: seq<Event>) { forall i, j | 0 <= i < j < |es| :: es[i].no < es[j].no }

  predicate ClaimsIncrease(claims: seq<Claim>) {
    forall i, j | 0 <= i < j < |claims| :: claims[i].no < claims[j].no
  }

  /** Everything a state records lies before number `n`. */
  predicate Before(s: State, n: int) {
    (forall g | g in s.sightings :: g.no < n) && (forall c | c in s.claims :: c.no < n)
  }

  lemma {:induction false} ReplayOrdered(es: seq<Event>, n: int)
    requires Increasing(es) && forall e | e in es :: e.no < n
    ensures ClaimsIncrease(Replay(es).claims) && Before(Replay(es), n)
  {
    if es == [] {
    } else {
      var front, e := es[..|es| - 1], es[|es| - 1];
      ReplayOrdered(front, e.no);
    }
  }

  lemma {:induction false} NextIsLater(c: Claim, claims: seq<Claim>, x: Claim)
    requires x in claims && x.entity == c.entity && x.no > c.no
    ensures NextClaim(c, claims).Some? && NextClaim(c, claims).value <= x.no
  {
    var front, last := claims[..|claims| - 1], claims[|claims| - 1];
    if x in front { NextIsLater(c, front, x); } else { assert x == last; }
  }

  lemma {:induction false} NextIsAClaim(c: Claim, claims: seq<Claim>)
    ensures NextClaim(c, claims).Some? ==>
              exists x | x in claims :: x.no == NextClaim(c, claims).value && x.no > c.no && x.entity == c.entity
  {
    if claims == [] {
    } else {
      var front, last := claims[..|claims| - 1], claims[|claims| - 1];
      NextIsAClaim(c, front);
      assert last in claims && forall x | x in front :: x in claims;
    }
  }

  /** No observation is judged for two different claims of one entity. */
  lemma WindowsDisjoint(es: seq<Event>, c: Claim, d: Claim, g: Sighting)
    requires Increasing(es) && c in Replay(es).claims && d in Replay(es).claims && c != d
    ensures var s := Replay(es);
            !(InWindow(g, c, NextClaim(c, s.claims)) && InWindow(g, d, NextClaim(d, s.claims)))
  {
    var claims := Replay(es).claims;
    if c.entity == d.entity {
      if c.no < d.no {
        NextIsLater(c, claims, d);
      } else if d.no < c.no {
        NextIsLater(d, claims, c);
      } else {
        SameNumber(es, c, d);
      }
    }
  }

  lemma SameNumber(es: seq<Event>, c: Claim, d: Claim)
    requires Increasing(es) && c in Replay(es).claims && d in Replay(es).claims && c.no == d.no
    ensures c == d
  {
    ReplayOrdered(es, if es == [] then 0 else es[|es| - 1].no + 1);
    var claims := Replay(es).claims;
    var i :| 0 <= i < |claims| && claims[i] == c;
    var j :| 0 <= j < |claims| && claims[j] == d;
  }

  // ------------------------------------------------------- verdicts are kept

  /** A verdict that later events cannot change: it makes no spatial claim, was
      decided by a location, or belongs to a closed window. */
  predicate Settled(c: Claim, s: State) {
    || c.claimed == ""
    || Locating(s.sightings, c, NextClaim(c, s.claims)).Some?
    || NextClaim(c, s.claims).Some?
  }

  lemma {:induction false} LaterSightingIgnored(gs: seq<Sighting>, g: Sighting, c: Claim, next: Option<int>)
    requires !InWindow(g, c, next) || Locating(gs, c, next).Some?
    ensures Locating(gs + [g], c, next) == Locating(gs, c, next)
  {
    assert (gs + [g])[..|gs|] == gs;
  }

  lemma {:induction false} ClosingLate(gs: seq<Sighting>, c: Claim, n: int)
    requires forall g | g in gs :: g.no < n
    ensures Locating(gs, c, Some(n)) == Locating(gs, c, None)
  {
    if gs == [] {
    } else {
      ClosingLate(gs[..|gs| - 1], c, n);
    }
  }

  lemma NextAfter(c: Claim, claims: seq<Claim>, x: Claim)
    requires forall y | y in claims :: y.no < x.no
    ensures NextClaim(c, claims).Some? ==> NextClaim(c, claims + [x]) == NextClaim(c, claims)
    ensures NextClaim(c, claims).None? ==>
              NextClaim(c, claims + [x]) == if x.entity == c.entity && x.no > c.no then Some(x.no) else None
  {
    assert (claims + [x])[..|claims|] == claims;
    NextIsAClaim(c, claims);
  }

  lemma SightingKeeps(s: State, c: Claim, g: Sighting)
    requires Before(s, g.no) && Settled(c, s)
    ensures var t := s.(sightings := s.sightings + [g]);
            Settled(c, t) && Judge(c, t) == Judge(c, s)
  {
    var next := NextClaim(c, s.claims);
    NextIsAClaim(c, s.claims);
    if c.claimed != "" {
      LaterSightingIgnored(s.sightings, g, c, next);
    }
  }

  lemma ClaimKeeps(s: State, c: Claim, x: Claim)
    requires Before(s, x.no) && Settled(c, s)
    ensures var t := s.(claims := s.claims + [x]);
            Settled(c, t) && Judge(c, t) == Judge(c, s)
  {
    NextAfter(c, s.claims, x);
    ClosingLate(s.sightings, c, x.no);
  }

  lemma StepKeeps(s: State, c: Claim, e: Event)
    requires Before(s, e.no) && Settled(c, s)
    ensures Settled(c, Step(s, e)) && Judge(c, Step(s, e)) == Judge(c, s)
  {
    match e {
      case Observation(no, entity, location, _) =>
        if entity != "" { SightingKeeps(s, c, Sighting(entity, no, Located(s, entity, location))); }
      case ActionResult(no, _, _, claimed) =>
        if ClaimedEntity(s, e) != "" { ClaimKeeps(s, c, Claim(ClaimedEntity(s, e), no, claimed)); }
      case _ =>
    }
  }

  /** A settled verdict at one cursor is the verdict at every later cursor. */
  lemma {:induction false} SettledVerdictStays(es: seq<Event>, c: Claim, k: nat)
    requires Increasing(es) && k <= |es| && Settled(c, Replay(es[..k]))
    ensures Settled(c, Replay(es)) && Judge(c, Replay(es)) == Judge(c, Replay(es[..k]))
  {
    if k == |es| {
      assert es[..k] == es;
    } else {
      var front, e := es[..|es| - 1], es[|es| - 1];
      assert front[..k] == es[..k];
      SettledVerdictStays(front, c, k);
      ReplayOrdered(front, e.no);
      StepKeeps(Replay(front), c, e);
    }
  }

  /** And only a settled one: a location seen next would change any other. */
  lemma UnsettledVerdictChanges(s: State, c: Claim, n: int)
    requires !Settled(c, s) && c.no < n && c.entity != ""
    ensures Judge(c, s) != Supported
    ensures Judge(c, Step(s, Observation(n, c.entity, c.claimed, 0))) == Supported
  {
    var t := Step(s, Observation(n, c.entity, c.claimed, 0));
    assert t.sightings[..|s.sightings|] == s.sightings;
  }

  /** Which verdicts are settled: all but an awaited one, and an unverified one
      whose window is still open. */
  lemma SettledIff(c: Claim, s: State)
    ensures Settled(c, s) <==>
            || Judge(c, s).NoSpatialClaim? || Judge(c, s).Supported? || Judge(c, s).Contradicted?
            || (Judge(c, s).Unverified? && NextClaim(c, s.claims).Some?)
  {
  }

  // ------------------------------------------------- locations carried over

  /** The location an entity was last left at. */
  function Known(s: State, entity: string): string {
    if entity in s.entities then s.entities[entity].location else ""
  }

  /** The event is a sighting in the claim's window. */
  predicate Sees(e: Event, c: Claim, next: Option<int>) {
    e.Observation? && e.entity == c.entity && e.no > c.no && (next.None? || e.no < next.value)
  }

  /** The first sighting in the window. */
  function FirstSeen(es: seq<Event>, c: Claim, next: Option<int>): (i: Option<nat>)
    ensures i.Some? ==> i.value < |es| && Sees(es[i.value], c, next)
  {
    if es == [] then None
    else
      var earlier := FirstSeen(es[..|es| - 1], c, next);
      if earlier.Some? then earlier else if Sees(es[|es| - 1], c, next) then Some(|es| - 1) else None
  }

  /** The sighting that decides the claim: the first in the window that leaves the
      entity at a location. */
  function Decider(es: seq<Event>, c: Claim, next: Option<int>): (i: Option<nat>)
    ensures i.Some? ==> i.value < |es| && Sees(es[i.value], c, next)
  {
    if es == [] then None
    else
      var front, e := es[..|es| - 1], es[|es| - 1];
      var earlier := Decider(front, c, next);
      if earlier.Some? then earlier
      else if Sees(e, c, next) && Located(Replay(front), e.entity, e.location) != "" then Some(|es| - 1)
      else None
  }

  function Window(es: seq<Event>, c: Claim): Option<int> { NextClaim(c, Replay(es).claims) }

  /** The claim is decided by a sighting that names no location itself. */
  predicate DecidedByCarried(es: seq<Event>, c: Claim) {
    var i := Decider(es, c, Window(es, c));
    i.Some? && es[i.value].location == ""
  }

  lemma SightingStep(s: State, e: Event, c: Claim, next: Option<int>)
    requires c.entity != ""
    ensures var was := Locating(s.sightings, c, next);
            Locating(Step(s, e).sightings, c, next) ==
            if was.None? && Sees(e, c, next) && Located(s, e.entity, e.location) != ""
            then Some(Located(s, e.entity, e.location)) else was
  {
    if e.Observation? && e.entity != "" {
      assert Step(s, e).sightings[..|s.sightings|] == s.sightings;
    }
  }

  /** The decider is the event behind the location the judge goes by. */
  lemma {:induction false} DeciderLocates(es: seq<Event>, c: Claim, next: Option<int>)
    requires c.entity != ""
    ensures var i, seen := Decider(es, c, next), Locating(Replay(es).sightings, c, next);
            && (i.Some? <==> seen.Some?)
            && (i.Some? ==> seen.value == Located(Replay(es[..i.value]), c.entity, es[i.value].location))
  {
    if es == [] {
    } else {
      var front, e := es[..|es| - 1], es[|es| - 1];
      DeciderLocates(front, c, next);
      SightingStep(Replay(front), e, c, next);
      var i := Decider(front, c, next);
      if i.Some? { assert front[..i.value] == es[..i.value]; }
    }
  }

  /** What the first and the deciding sighting say, given where the entity was at
      the claim; and where it is while the window is open. */
  predicate Tracked(es: seq<Event>, c: Claim, next: Option<int>, at: string) {
    var f, i := FirstSeen(es, c, next), Decider(es, c, next);
    && (i.Some? ==> f.Some? && f.value <= i.value)
    && (i.Some? && f.value < i.value ==> es[i.value].location != "")
    && (i.Some? && es[i.value].location == "" ==> at != "" && Known(Replay(es[..i.value]), c.entity) == at)
    && (f.Some? && es[f.value].location == "" && at != "" ==> i == f)
    && (Open(es, next) ==>
          if f.None? then Known(Replay(es), c.entity) == at
          else i.None? ==> Known(Replay(es), c.entity) == "")
  }

  predicate Open(es: seq<Event>, next: Option<int>) {
    next.None? || es == [] || es[|es| - 1].no < next.value
  }

  lemma KnownStep(s: State, e: Event, entity: string)
    requires entity != ""
    ensures Known(Step(s, e), entity) ==
            if e.Observation? && e.entity == entity then Located(s, entity, e.location) else Known(s, entity)
  {
  }

  lemma {:induction false} Tracks(es: seq<Event>, c: Claim, next: Option<int>, k: nat)
    requires Increasing(es) && c.entity != "" && k < |es| && es[k].ActionResult? && es[k].no == c.no
    ensures Tracked(es, c, next, Known(Replay(es[..k]), c.entity))
  {
    var front, e := es[..|es| - 1], es[|es| - 1];
    KnownStep(Replay(front), e, c.entity);
    if k == |es| - 1 {
      assert forall j | 0 <= j < |es| :: es[j].no <= c.no;
    } else {
      assert front[..k] == es[..k];
      Tracks(front, c, next, k);
      assert front[|front| - 1].no < e.no && c.no < e.no;
      TracksStep(front, e, c, next, Known(Replay(es[..k]), c.entity));
      assert es == front + [e];
    }
  }

  lemma TracksStep(front: seq<Event>, e: Event, c: Claim, next: Option<int>, at: string)
    requires c.entity != "" && front != [] && front[|front| - 1].no < e.no && c.no < e.no
    requires Tracked(front, c, next, at)
    ensures Tracked(front + [e], c, next, at)
  {
    var es := front + [e];
    assert es[..|es| - 1] == front;
    KnownStep(Replay(front), e, c.entity);
    var i := Decider(front, c, next);
    if i.Some? { assert es[..i.value] == front[..i.value]; }
  }

  /** Every claim was made by an action result of the log. */
  lemma {:induction false} ClaimEvent(es: seq<Event>, c: Claim) returns (k: nat)
    requires c in Replay(es).claims
    ensures k < |es| && es[k].ActionResult? && es[k].no == c.no && c.entity != ""
  {
    var front, e := es[..|es| - 1], es[|es| - 1];
    if c in Replay(front).claims { k := ClaimEvent(front, c); } else { k := |es| - 1; }
  }

  /** A claim is meant to be judged by what was seen after it. It is judged by a
      location known before it exactly when the entity's location was known at the
      claim and the first sighting in its window names none; it then counts as
      supported or contradicted by that old location. */
  lemma CarriedIff(es: seq<Event>, c: Claim, k: nat)
    requires Increasing(es) && c in Replay(es).claims && k < |es| && es[k].no == c.no
    ensures var at, f := Known(Replay(es[..k]), c.entity), FirstSeen(es, c, Window(es, c));
            && (DecidedByCarried(es, c) <==> at != "" && f.Some? && es[f.value].location == "")
            && (DecidedByCarried(es, c) && c.claimed != "" ==>
                  Judge(c, Replay(es)) == if at == c.claimed then Supported else Contradicted)
  {
    var j := ClaimEvent(es, c);
    assert j == k;
    Tracks(es, c, Window(es, c), k);
    DeciderLocates(es, c, Window(es, c));
  }

  lemma ReplaySnoc(es: seq<Event>, e: Event)
    ensures Replay(es + [e]) == Step(Replay(es), e)
  {
    assert (es + [e])[..|es|] == es;
  }

  lemma AloneIsOpen(c: Claim)
    ensures NextClaim(c, [c]) == None
  {
    assert NextClaim(c, [c][..0]) == None;
  }

  /** Such logs exist: seen somewhere, said to be elsewhere, seen again without a
      location, and so contradicted by where it was before the action. */
  lemma CarriedWitness(entity: string, was: string, claimed: string)
    requires entity != "" && was != "" && claimed != "" && was != claimed
    ensures var es := [Observation(0, entity, was, 0), ActionResult(1, "", entity, claimed),
                       Observation(2, entity, "", 0)];
            var c := Claim(entity, 1, claimed);
            Increasing(es) && c in Replay(es).claims && DecidedByCarried(es, c) && Judge(c, Replay(es)) == Contradicted
  {
    var x, y, z := Observation(0, entity, was, 0), ActionResult(1, "", entity, claimed), Observation(2, entity, "", 0);
    var c := Claim(entity, 1, claimed);
    ReplaySnoc([], x);
    ReplaySnoc([x], y);
    ReplaySnoc([x, y], z);
    assert [] + [x] == [x] && [x] + [y] == [x, y] && [x, y] + [z] == [x, y, z];
    var es := [x, y, z];
    assert Replay(es).claims == [c];
    AloneIsOpen(c);
    assert es[..2] == [x, y] && es[..1] == [x];
    assert FirstSeen([x, y], c, None) == None;
    CarriedIff(es, c, 1);
  }

  /** Otherwise a decided claim is decided by a location its deciding sighting names. */
  lemma NamedOtherwise(es: seq<Event>, c: Claim)
    requires c in Replay(es).claims && c.claimed != "" && !DecidedByCarried(es, c)
    ensures Judge(c, Replay(es)).Supported? || Judge(c, Replay(es)).Contradicted? ==>
              var i := Decider(es, c, Window(es, c));
              i.Some? && (Judge(c, Replay(es)).Supported? <==> es[i.value].location == c.claimed)
  {
    var k := ClaimEvent(es, c);
    DeciderLocates(es, c, Window(es, c));
  }

  // ------------------------------------------------------ the state builder

  datatype Judged = Judged(claim: Claim, observed: Option<string>, verdict: Verdict)

  function JudgedClaim(c: Claim, s: State): Judged {
    Judged(c, Locating(s.sightings, c, NextClaim(c, s.claims)), Judge(c, s))
  }

  function Visible(es: seq<Event>, cursor: int): seq<Event> {
    if cursor < 0 then [] else if cursor + 1 <= |es| then es[..cursor + 1] else es
  }

  /** What the dashboard shows at a cursor: one pass fills the maps and lists, and a
      second judges every claim against them. */
  method BuildWorkbenchState(es: seq<Event>, cursor: int) returns (s: State, judged: seq<Judged>)
    ensures s == Replay(Visible(es, cursor))
    ensures |judged| == |s.claims| && forall i | 0 <= i < |judged| :: judged[i] == JudgedClaim(s.claims[i], s)
  {
    var visible := Visible(es, cursor);
    s := EMPTY;
    for i := 0 to |visible|
      invariant s == Replay(visible[..i])
    {
      assert visible[..i + 1][..i] == visible[..i];
      s := Step(s, visible[i]);
    }
    assert visible[..|visible|] == visible;
    judged := [];
    for i := 0 to |s.claims|
      invariant |judged| == i && forall j | 0 <= j < i :: judged[j] == JudgedClaim(s.claims[j], s)
    {
      judged := judged + [JudgedClaim(s.claims[i], s)];
    }
  }
}
