/** Generators that publish artifact sets serialise on one lock file per set name
    and per target, taken in sorted order. Any number of them may arrive, fail to
    take a lock, publish and leave in any interleaving. */
module GenerationLocks {
  import opened Text

  datatype Generator = Generator(setName: string, targets: seq<string>)

  /** How a lock file is named: the resolved spelling of a target, its readable
      stem and its digest. Nothing is assumed of these functions. */
  datatype Naming = Naming(resolve: string -> string, stem: string -> string, digest: string -> string)

  const SUFFIX := ".generated-artifact-set.lock"

  function Dashed(name: string): string {
    if name == "" then "" else [if name[0] == '/' then '-' else name[0]] + Dashed(name[1..])
  }

  function SetKey(name: string): string { "set-" + Dashed(name) + SUFFIX }

  function TargetKey(n: Naming, target: string): string {
    var resolved := n.resolve(target);
    n.stem(resolved) + "-" + n.digest(resolved) + SUFFIX
  }

  function TargetKeys(n: Naming, targets: seq<string>): (ks: seq<string>)
    ensures |ks| == |targets| && forall i | 0 <= i < |targets| :: ks[i] == TargetKey(n, targets[i])
  {
    seq(|targets|, i requires 0 <= i < |targets| => TargetKey(n, targets[i]))
  }

  function Keys(n: Naming, g: Generator): (ks: seq<string>)
    ensures StrictlySorted(ks)
  {
    SortedUnique([SetKey(g.setName)] + TargetKeys(n, g.targets))
  }

  datatype Phase = Acquiring | Inside | Gone

  /** One generator: `keys[..held]` is what it has locked. */
  datatype Proc = Proc(gen: Generator, keys: seq<string>, held: nat, phase: Phase)

  type World = seq<Proc>

  datatype Action =
    | Arrive(gen: Generator)
    | Acquire(who: nat)   // take the next lock
    | Refuse(who: nat)    // the next lock cannot be opened: release all and raise
    | Enter(who: nat)     // every lock is held: publish
    | Leave(who: nat)     // publication over: release all

  predicate Holds(p: Proc, key: string) {
    p.held <= |p.keys| && key in p.keys[..p.held]
  }

  predicate Waits(p: Proc) { p.phase.Acquiring? && p.held < |p.keys| }

  predicate Free(w: World, key: string) {
    forall i | 0 <= i < |w| :: !Holds(w[i], key)
  }

  predicate Enabled(w: World, a: Action) {
    match a
    case Arrive(_) => true
    case Acquire(i) => i < |w| && Waits(w[i]) && Free(w, w[i].keys[w[i].held])
    case Refuse(i) => i < |w| && Waits(w[i])
    case Enter(i) => i < |w| && w[i].phase.Acquiring? && w[i].held == |w[i].keys|
    case Leave(i) => i < |w| && w[i].phase.Inside?
  }

  function Effect(n: Naming, w: World, a: Action): World
    requires Enabled(w, a)
  {
    match a
    case Arrive(g) => w + [Proc(g, Keys(n, g), 0, Acquiring)]
    case Acquire(i) => w[i := w[i].(held := w[i].held + 1)]
    case Refuse(i) => w[i := w[i].(held := 0, phase := Gone)]
    case Enter(i) => w[i := w[i].(phase := Inside)]
    case Leave(i) => w[i := w[i].(held := 0, phase := Gone)]
  }

  function Step(n: Naming, w: World, a: Action): World {
    if Enabled(w, a) then Effect(n, w, a) else w
  }

  function Exec(n: Naming, w: World, run: seq<Action>): World {
    if run == [] then w else Step(n, Exec(n, w, run[..|run| - 1]), run[|run| - 1])
  }

  // --------------------------------------------------------------- invariant

  predicate ProcOk(n: Naming, p: Proc) {
    && p.keys == Keys(n, p.gen)
    && p.held <= |p.keys|
    && (p.phase.Inside? ==> p.held == |p.keys|)
    && (p.phase.Gone? ==> p.held == 0)
  }

  predicate Exclusive(w: World) {
    forall i, j, key | 0 <= i < j < |w| && key in w[i].keys :: !(Holds(w[i], key) && Holds(w[j], key))
  }

  predicate Inv(n: Naming, w: World) {
    (forall i | 0 <= i < |w| :: ProcOk(n, w[i])) && Exclusive(w)
  }

  /** Taking the next key adds that key and no other. */
  lemma AcquiredHolds(p: Proc, key: string)
    requires p.held < |p.keys|
    ensures Holds(p.(held := p.held + 1), key) <==> key == p.keys[p.held] || Holds(p, key)
  {
    assert p.keys[..p.held + 1] == p.keys[..p.held] + [p.keys[p.held]];
  }

  lemma AcquireKeepsExclusive(n: Naming, w: World, i: nat)
    requires Inv(n, w) && Enabled(w, Acquire(i))
    ensures Exclusive(Effect(n, w, Acquire(i)))
  {
    var w', taken := Effect(n, w, Acquire(i)), w[i].keys[w[i].held];
    forall a, b, key | 0 <= a < b < |w'| && key in w'[a].keys ensures !(Holds(w'[a], key) && Holds(w'[b], key)) {
      AcquiredHolds(w[i], key);
      if key == taken { assert !Holds(w[a], key) && !Holds(w[b], key); }
    }
  }

  /** A process that comes to hold no more than before keeps the exclusion. */
  lemma ShrinkKeepsExclusive(w: World, i: nat, p: Proc)
    requires Exclusive(w) && i < |w| && p.keys == w[i].keys && forall key | Holds(p, key) :: Holds(w[i], key)
    ensures Exclusive(w[i := p])
  {
  }

  lemma ArriveKeepsExclusive(w: World, p: Proc)
    requires Exclusive(w) && forall key :: !Holds(p, key)
    ensures Exclusive(w + [p])
  {
  }

  lemma StepKeepsExclusive(n: Naming, w: World, a: Action)
    requires Inv(n, w) && Enabled(w, a)
    ensures Exclusive(Effect(n, w, a))
  {
    match a {
      case Arrive(g) => ArriveKeepsExclusive(w, Proc(g, Keys(n, g), 0, Acquiring));
      case Acquire(i) => AcquireKeepsExclusive(n, w, i);
      case Refuse(i) => ShrinkKeepsExclusive(w, i, w[i].(held := 0, phase := Gone));
      case Enter(i) => ShrinkKeepsExclusive(w, i, w[i].(phase := Inside));
      case Leave(i) => ShrinkKeepsExclusive(w, i, w[i].(held := 0, phase := Gone));
    }
  }

  lemma StepKeepsProcs(n: Naming, w: World, a: Action)
    requires Inv(n, w) && Enabled(w, a)
    ensures forall i | 0 <= i < |Effect(n, w, a)| :: ProcOk(n, Effect(n, w, a)[i])
  {
  }

  lemma StepKeepsInv(n: Naming, w: World, a: Action)
    requires Inv(n, w)
    ensures Inv(n, Step(n, w, a))
  {
    if Enabled(w, a) {
      StepKeepsExclusive(n, w, a);
      StepKeepsProcs(n, w, a);
    }
  }

  lemma {:induction false} ReachableIsExclusive(n: Naming, run: seq<Action>)
    ensures Inv(n, Exec(n, [], run))
  {
    if run == [] {
    } else {
      ReachableIsExclusive(n, run[..|run| - 1]);
      StepKeepsInv(n, Exec(n, [], run[..|run| - 1]), run[|run| - 1]);
    }
  }

  // -------------------------------------------------------- mutual exclusion

  /** The same set name, or two spellings of the same target. */
  ghost predicate Share(n: Naming, g: Generator, h: Generator) {
    g.setName == h.setName
    || exists s, t :: s in g.targets && t in h.targets && n.resolve(s) == n.resolve(t)
  }

  lemma SharedKey(n: Naming, g: Generator, h: Generator) returns (key: string)
    requires Share(n, g, h)
    ensures key in Keys(n, g) && key in Keys(n, h)
  {
    if g.setName == h.setName {
      key := SetKey(g.setName);
      assert key in Members([SetKey(g.setName)] + TargetKeys(n, g.targets));
      assert key in Members([SetKey(h.setName)] + TargetKeys(n, h.targets));
    } else {
      var s, t :| s in g.targets && t in h.targets && n.resolve(s) == n.resolve(t);
      key := TargetKey(n, s);
      KeyOfTarget(n, g, s);
      KeyOfTarget(n, h, t);
    }
    assert key in Members(Keys(n, g)) && key in Members(Keys(n, h));
  }

  lemma KeyOfTarget(n: Naming, g: Generator, t: string)
    requires t in g.targets
    ensures TargetKey(n, t) in Members(Keys(n, g))
  {
    var i :| 0 <= i < |g.targets| && g.targets[i] == t;
    var all := [SetKey(g.setName)] + TargetKeys(n, g.targets);
    assert all[i + 1] == TargetKey(n, t);
    assert TargetKey(n, t) in Members(all);
  }

  /** No two generators that share a set name or a target are ever inside the
      publish body together. */
  lemma PublishIsExclusive(n: Naming, run: seq<Action>, i: nat, j: nat)
    requires var w := Exec(n, [], run); i < j < |w| && w[i].phase.Inside? && w[j].phase.Inside?
    ensures var w := Exec(n, [], run); !Share(n, w[i].gen, w[j].gen)
  {
    ReachableIsExclusive(n, run);
    var w := Exec(n, [], run);
    if Share(n, w[i].gen, w[j].gen) {
      var key := SharedKey(n, w[i].gen, w[j].gen);
      InsideHolds(n, w[i], key);
      InsideHolds(n, w[j], key);
      assert false;
    }
  }

  lemma InsideHolds(n: Naming, p: Proc, key: string)
    requires ProcOk(n, p) && p.phase.Inside? && key in Keys(n, p.gen)
    ensures key in p.keys && Holds(p, key)
  {
    assert p.keys[..p.held] == p.keys;
  }

  // -------------------------------------------------------- deadlock freedom

  predicate AllGone(w: World) { forall i | 0 <= i < |w| :: w[i].phase.Gone? }

  function NextKey(p: Proc): string
    requires Waits(p)
  {
    p.keys[p.held]
  }

  /** A waiting generator whose next key no other waiting generator's exceeds. */
  predicate Foremost(w: World, i: int) {
    && 0 <= i < |w| && Waits(w[i])
    && forall j | 0 <= j < |w| && Waits(w[j]) :: !Less(NextKey(w[i]), NextKey(w[j]))
  }

  lemma {:induction false} ForemostExists(w: World, k: nat) returns (i: int)
    requires k < |w| && Waits(w[k])
    ensures Foremost(w, i)
    decreases |w|
  {
    var front, last := w[..|w| - 1], w[|w| - 1];
    if exists j | 0 <= j < |front| :: Waits(front[j]) {
      var j :| 0 <= j < |front| && Waits(front[j]);
      i := ForemostExists(front, j);
      if Waits(last) && Less(NextKey(front[i]), NextKey(last)) {
        forall j | 0 <= j < |w| && Waits(w[j]) ensures !Less(NextKey(last), NextKey(w[j])) {
          if Less(NextKey(last), NextKey(w[j])) {
            if j == |w| - 1 { LessIrreflexive(NextKey(last)); }
            else { LessTransitive(NextKey(front[i]), NextKey(last), NextKey(front[j])); }
          }
        }
        i := |w| - 1;
      }
    } else {
      i := |w| - 1;
      LessIrreflexive(NextKey(last));
      assert forall j | 0 <= j < |w| - 1 :: w[j] == front[j];
    }
  }

  /** Sorted acquisition: what a generator waits for lies above all it holds. */
  lemma WaitsAbove(n: Naming, p: Proc, key: string)
    requires ProcOk(n, p) && Holds(p, key)
    ensures Waits(p) ==> Less(key, NextKey(p))
  {
    var k :| 0 <= k < p.held && p.keys[k] == key;
  }

  /** In every state that satisfies the invariant, while anyone is not gone,
      someone can take the next lock, enter or leave. */
  lemma SomeoneCanMove(n: Naming, w: World) returns (a: Action)
    requires Inv(n, w) && !AllGone(w)
    ensures Enabled(w, a) && (a.Acquire? || a.Enter? || a.Leave?)
  {
    var k :| 0 <= k < |w| && !w[k].phase.Gone?;
    if w[k].phase.Inside? {
      a := Leave(k);
    } else if w[k].held == |w[k].keys| {
      a := Enter(k);
    } else {
      var i := ForemostExists(w, k);
      var key := NextKey(w[i]);
      if Free(w, key) {
        a := Acquire(i);
      } else {
        var j :| 0 <= j < |w| && Holds(w[j], key);
        assert ProcOk(n, w[j]);
        WaitsAbove(n, w[j], key);
        assert !Waits(w[j]);
        a := if w[j].phase.Inside? then Leave(j) else Enter(j);
      }
    }
  }

  /** No reachable state is a deadlock. */
  lemma DeadlockFree(n: Naming, run: seq<Action>) returns (a: Action)
    requires !AllGone(Exec(n, [], run))
    ensures Enabled(Exec(n, [], run), a) && (a.Acquire? || a.Enter? || a.Leave?)
  {
    ReachableIsExclusive(n, run);
    a := SomeoneCanMove(n, Exec(n, [], run));
  }

  // ---------------------------------------------------------------- progress

  function Left(p: Proc): nat {
    match p.phase
    case Acquiring => 2 + if p.held <= |p.keys| then |p.keys| - p.held else 0
    case Inside => 1
    case Gone => 0
  }

  function Work(w: World): nat {
    if w == [] then 0 else Work(w[..|w| - 1]) + Left(w[|w| - 1])
  }

  lemma {:induction false} WorkUpdate(w: World, i: nat, p: Proc)
    requires i < |w|
    ensures Work(w[i := p]) == Work(w) - Left(w[i]) + Left(p)
  {
    if i == |w| - 1 {
      assert w[i := p][..i] == w[..i];
    } else {
      WorkUpdate(w[..|w| - 1], i, p);
      assert w[i := p][..|w| - 1] == w[..|w| - 1][i := p];
    }
  }

  /** Every move but an arrival brings the end closer, so a schedule without
      arrivals has at most `Work(w)` moves. */
  lemma MovesFinish(n: Naming, w: World, a: Action)
    requires Inv(n, w) && Enabled(w, a) && !a.Arrive?
    ensures Work(Step(n, w, a)) < Work(w)
  {
    assert ProcOk(n, w[a.who]);
    WorkUpdate(w, a.who, Effect(n, w, a)[a.who]);
  }

  lemma ExecCons(n: Naming, w: World, a: Action, rest: seq<Action>)
    ensures Exec(n, w, [a] + rest) == Exec(n, Step(n, w, a), rest)
  {
    if rest == [] {
      assert [a] + rest == [a] && [a][..0] == [];
    } else {
      var run := [a] + rest;
      assert run[..|run| - 1] == [a] + rest[..|rest| - 1];
      ExecCons(n, w, a, rest[..|rest| - 1]);
    }
  }

  /** From every reachable state every generator can still get in, publish and
      leave, without any of them being refused a lock. */
  lemma {:induction false} EveryoneCanFinish(n: Naming, w: World) returns (run: seq<Action>)
    requires Inv(n, w)
    ensures AllGone(Exec(n, w, run)) && (forall a | a in run :: a.Acquire? || a.Enter? || a.Leave?)
    decreases Work(w)
  {
    if AllGone(w) {
      run := [];
    } else {
      var a := SomeoneCanMove(n, w);
      MovesFinish(n, w, a);
      StepKeepsInv(n, w, a);
      var rest := EveryoneCanFinish(n, Step(n, w, a));
      run := [a] + rest;
      ExecCons(n, w, a, rest);
    }
  }
}
