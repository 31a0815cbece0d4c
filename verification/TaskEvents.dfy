/** Runtime TaskEvents: the identity a record is stored under, strict decoding,
    binding, and the ingestion of a whole capture into the event store. */
module TaskEvents {
  import opened Text

  // ---------------------------------------------------------------- identity

  function Part(p: string): string { Render(|p|, 10) + ":" + p }

  function Parts(ps: seq<string>): string {
    if ps == [] then ""
    else if |ps| == 1 then Part(ps[0])
    else Part(ps[0]) + "|" + Parts(ps[1..])
  }

  /** The length-prefixed join. */
  function Join(prefix: string, ps: seq<string>): string { prefix + ":" + Parts(ps) }

  /** Text up to the first colon is determined when it holds no colon. */
  lemma ColonSplits(a: string, b: string, x: string, y: string)
    requires ':' !in a && ':' !in b && a + ":" + x == b + ":" + y
    ensures a == b && x == y
  {
    var s := a + ":" + x;
    assert s[|a|] == ':' && s[|b|] == ':';
    assert forall i | 0 <= i < |a| :: s[i] != ':';
    assert forall i | 0 <= i < |b| :: s[i] != ':';
    assert a == s[..|a|] && b == s[..|b|] && x == s[|a| + 1..] && y == s[|b| + 1..];
  }

  lemma Strip(h: string, x: string, y: string)
    requires h + x == h + y
    ensures x == y
  {
    assert x == (h + x)[|h|..] && y == (h + y)[|h|..];
  }

  lemma NoColon(n: nat)
    ensures ':' !in Render(n, 10)
  {
    var s := Render(n, 10);
    assert forall i | 0 <= i < |s| :: DigitValue(s[i]) < 10;
  }

  /** A part followed by anything is read back one way only. */
  lemma PartPrefixFree(p: string, q: string, s: string, t: string)
    requires Part(p) + s == Part(q) + t
    ensures p == q && s == t
  {
    NoColon(|p|);
    NoColon(|q|);
    var a, b := Render(|p|, 10), Render(|q|, 10);
    assert a + ":" + (p + s) == Part(p) + s && b + ":" + (q + t) == Part(q) + t;
    ColonSplits(a, b, p + s, q + t);
    RenderInjective(|p|, |q|, 10);
    assert p == (p + s)[..|p|] && s == (p + s)[|p|..];
    assert q == (q + t)[..|q|] && t == (q + t)[|q|..];
  }

  lemma HeadThenTail(p: string, q: string, r: string, u: string, s: string, t: string)
    requires Part(p) + "|" + r + s == Part(q) + "|" + u + t
    ensures p == q && r + s == u + t
  {
    var x, y := "|" + (r + s), "|" + (u + t);
    assert Part(p) + x == Part(p) + "|" + r + s;
    assert Part(q) + y == Part(q) + "|" + u + t;
    PartPrefixFree(p, q, x, y);
    Strip("|", r + s, u + t);
  }

  /** At a fixed number of parts the join is a prefix-free code. */
  lemma {:induction false} PartsPrefixFree(ps: seq<string>, qs: seq<string>, s: string, t: string)
    requires |ps| == |qs| && Parts(ps) + s == Parts(qs) + t
    ensures ps == qs && s == t
  {
    if |ps| == 0 {
      assert s == "" + s && t == "" + t;
    } else if |ps| == 1 {
      PartPrefixFree(ps[0], qs[0], s, t);
    } else {
      HeadThenTail(ps[0], qs[0], Parts(ps[1..]), Parts(qs[1..]), s, t);
      PartsPrefixFree(ps[1..], qs[1..], s, t);
      assert ps == [ps[0]] + ps[1..] && qs == [qs[0]] + qs[1..];
    }
  }

  /** What distinguishes one published TaskEvent from another. */
  datatype Identity = Identity(
    request: string, workflow: string, task: string, goal: string,
    status: int, outcome: int, errorCode: int, durationMs: int)

  function ActionId(k: Identity): string { if k.goal != "" then k.goal else k.task }

  function RunParts(k: Identity): seq<string> { [k.request, k.workflow, k.task] }

  function ResultParts(k: Identity): seq<string> {
    [ActionId(k), Decimal(k.status), Decimal(k.outcome), Decimal(k.errorCode), Decimal(k.durationMs)]
  }

  function RunId(k: Identity): string { Join("run", RunParts(k)) }

  function ResultId(k: Identity): string { Join("runtime", ResultParts(k)) }

  function EventId(k: Identity): string { "runtime-task-event:" + RunId(k) + ":" + ResultId(k) }

  /** Two identities share an event id exactly when they agree in every field,
      counting the goal as the action id it stands for. */
  lemma EventIdIff(k: Identity, l: Identity)
    ensures EventId(k) == EventId(l) <==> k.(goal := ActionId(k)) == l.(goal := ActionId(l))
  {
    if EventId(k) == EventId(l) {
      IdPartsAgree(Parts(RunParts(k)), Parts(RunParts(l)), Parts(ResultParts(k)), Parts(ResultParts(l)));
      var a, b := ":runtime:" + Parts(ResultParts(k)), ":runtime:" + Parts(ResultParts(l));
      PartsPrefixFree(RunParts(k), RunParts(l), a, b);
      Strip(":runtime:", Parts(ResultParts(k)), Parts(ResultParts(l)));
      assert RunParts(k)[0] == RunParts(l)[0] && RunParts(k)[1] == RunParts(l)[1] && RunParts(k)[2] == RunParts(l)[2];
      ResultPartsAgree(k, l);
    }
  }

  lemma IdPartsAgree(a: string, b: string, x: string, y: string)
    requires "runtime-task-event:" + ("run" + ":" + a) + ":" + ("runtime" + ":" + x)
          == "runtime-task-event:" + ("run" + ":" + b) + ":" + ("runtime" + ":" + y)
    ensures a + (":runtime:" + x) == b + (":runtime:" + y)
  {
    var h := "runtime-task-event:run:";
    assert "runtime-task-event:" + ("run" + ":" + a) + ":" + ("runtime" + ":" + x) == h + (a + (":runtime:" + x));
    assert "runtime-task-event:" + ("run" + ":" + b) + ":" + ("runtime" + ":" + y) == h + (b + (":runtime:" + y));
    Strip(h, a + (":runtime:" + x), b + (":runtime:" + y));
  }

  lemma ResultPartsAgree(k: Identity, l: Identity)
    requires Parts(ResultParts(k)) == Parts(ResultParts(l))
    ensures ActionId(k) == ActionId(l) && k.status == l.status && k.outcome == l.outcome
    ensures k.errorCode == l.errorCode && k.durationMs == l.durationMs
  {
    var a, b := ResultParts(k), ResultParts(l);
    PartsPrefixFree(a, b, "", "");
    assert a[0] == b[0] && a[1] == b[1] && a[2] == b[2] && a[3] == b[3] && a[4] == b[4];
    DecimalInjective(k.status, l.status);
    DecimalInjective(k.outcome, l.outcome);
    DecimalInjective(k.errorCode, l.errorCode);
    DecimalInjective(k.durationMs, l.durationMs);
  }

  /** Bound records name a goal, and there the event id is injective. */
  lemma EventIdInjective(k: Identity, l: Identity)
    requires k.goal != "" && l.goal != "" && EventId(k) == EventId(l)
    ensures k == l
  {
    EventIdIff(k, l);
  }

  // ---------------------------------------------------------------- decoding

  /** A parsed JSON text before duplicate names are resolved. */
  datatype Raw =
    | RNull | RBool(b: bool) | RInt(n: int) | RFloat(text: string) | RConstant(name: string)
    | RStr(s: string) | RArr(items: seq<Raw>) | RObj(members: seq<Member>)
  datatype Member = Member(name: string, value: Raw)

  datatype Json =
    | Null | Bool(b: bool) | Int(n: int) | Float(text: string)
    | Str(s: string) | Arr(items: seq<Json>) | Obj(fields: map<string, Json>)

  /** Strict decoding: a repeated member name or a non-finite constant anywhere in
      the text refuses all of it. */
  function Decode(r: Raw): Option<Json> {
    match r
    case RNull => Some(Null)
    case RBool(b) => Some(Bool(b))
    case RInt(n) => Some(Int(n))
    case RFloat(t) => Some(Float(t))
    case RConstant(_) => None
    case RStr(s) => Some(Str(s))
    case RArr(items) =>
      (match DecodeItems(items) case None => None case Some(js) => Some(Arr(js)))
    case RObj(members) =>
      (match DecodeMembers(members) case None => None case Some(m) => Some(Obj(m)))
  }

  function DecodeItems(items: seq<Raw>): (js: Option<seq<Json>>)
    ensures js.Some? ==> |js.value| == |items|
  {
    if items == [] then Some([])
    else match (Decode(items[0]), DecodeItems(items[1..]))
      case (Some(j), Some(rest)) => Some([j] + rest)
      case _ => None
  }

  function DecodeMembers(members: seq<Member>): Option<map<string, Json>> {
    if members == [] then Some(map[])
    else
      var last := members[|members| - 1];
      match (DecodeMembers(members[..|members| - 1]), Decode(last.value))
      case (Some(m), Some(j)) => if last.name in m then None else Some(m[last.name := j])
      case _ => None
  }

  predicate DistinctNames(members: seq<Member>) {
    forall i, j | 0 <= i < j < |members| :: members[i].name != members[j].name
  }

  /** RFC 8259: member names within an object are unique (section 4), and there is
      no NaN or Infinity (section 6). */
  predicate Strict(r: Raw) {
    match r
    case RConstant(_) => false
    case RArr(items) => forall i | 0 <= i < |items| :: Strict(items[i])
    case RObj(members) =>
      DistinctNames(members) && forall i | 0 <= i < |members| :: Strict(members[i].value)
    case _ => true
  }

  lemma {:induction false} DecodesIffStrict(r: Raw)
    ensures Decode(r).Some? <==> Strict(r)
    decreases r, 1
  {
    match r
    case RArr(items) => ItemsDecode(items);
    case RObj(members) => MembersDecode(members);
    case _ =>
  }

  lemma {:induction false} ItemsDecode(items: seq<Raw>)
    ensures DecodeItems(items).Some? <==> forall i | 0 <= i < |items| :: Strict(items[i])
    decreases items, 0
  {
    if items == [] {
    } else {
      DecodesIffStrict(items[0]);
      ItemsDecode(items[1..]);
      assert forall i | 1 <= i < |items| :: items[i] == items[1..][i - 1];
    }
  }

  function NamesOf(members: seq<Member>): set<string> { set i | 0 <= i < |members| :: members[i].name }

  /** The decoded object `m` holds the decoded value of every member, and no more. */
  predicate Keeps(m: map<string, Json>, members: seq<Member>) {
    m.Keys == NamesOf(members) &&
    forall i | 0 <= i < |members| :: members[i].name in m && Decode(members[i].value) == Some(m[members[i].name])
  }

  lemma NamesSnoc(members: seq<Member>)
    requires members != []
    ensures var front, last := members[..|members| - 1], members[|members| - 1];
            NamesOf(members) == NamesOf(front) + {last.name}
  {
    var front, last := members[..|members| - 1], members[|members| - 1];
    assert forall i | 0 <= i < |front| :: members[i] == front[i];
  }

  lemma DistinctSnoc(members: seq<Member>)
    requires members != []
    ensures var front, last := members[..|members| - 1], members[|members| - 1];
            DistinctNames(members) <==> DistinctNames(front) && last.name !in NamesOf(front)
  {
    var front, last := members[..|members| - 1], members[|members| - 1];
    assert forall i | 0 <= i < |front| :: members[i] == front[i];
    if !DistinctNames(members) && DistinctNames(front) {
      var i, j :| 0 <= i < j < |members| && members[i].name == members[j].name;
      assert j == |front|;
    }
  }

  lemma KeepsSnoc(m: map<string, Json>, members: seq<Member>, j: Json)
    requires members != [] && Keeps(m, members[..|members| - 1])
    requires members[|members| - 1].name !in m && Decode(members[|members| - 1].value) == Some(j)
    ensures Keeps(m[members[|members| - 1].name := j], members)
  {
    var front, last := members[..|members| - 1], members[|members| - 1];
    var more := m[last.name := j];
    NamesSnoc(members);
    forall i | 0 <= i < |members|
      ensures members[i].name in more && Decode(members[i].value) == Some(more[members[i].name])
    {
      if i < |front| { assert members[i] == front[i]; }
    }
  }

  /** An accepted object keeps every member: nothing is silently discarded. */
  lemma {:induction false} MembersKept(members: seq<Member>)
    requires DecodeMembers(members).Some?
    ensures Keeps(DecodeMembers(members).value, members)
  {
    if members == [] {
    } else {
      var front, last := members[..|members| - 1], members[|members| - 1];
      MembersKept(front);
      KeepsSnoc(DecodeMembers(front).value, members, Decode(last.value).value);
    }
  }

  lemma {:induction false} MembersDecode(members: seq<Member>)
    ensures DecodeMembers(members).Some? <==>
            DistinctNames(members) && forall i | 0 <= i < |members| :: Strict(members[i].value)
    decreases members, 0
  {
    if members == [] {
    } else {
      var front, last := members[..|members| - 1], members[|members| - 1];
      MembersDecode(front);
      DecodesIffStrict(last.value);
      if DecodeMembers(front).Some? { MembersKept(front); }
      DistinctSnoc(members);
      assert forall i | 0 <= i < |front| :: members[i] == front[i];
    }
  }

  // ----------------------------------------------------------------- binding

  datatype Outcome = Completed | Canceled | SafeStop | Failed
  datatype DeviceState = Confirmed | Halted | DeviceRejected

  datatype Stamp = Stamp(sec: int, micros: int)

  datatype Bound = Bound(
    id: Identity, outcome: Outcome, device: DeviceState, reason: string, target: string, at: Stamp)

  const MAX_SEC := 253402300799   // the last second of year 9999

  predicate Blank(s: string, space: char -> bool) { forall i | 0 <= i < |s| :: space(s[i]) }

  function TextField(fields: map<string, Json>, name: string, space: char -> bool): Option<string> {
    if name in fields && fields[name].Str? && !Blank(fields[name].s, space) then Some(fields[name].s) else None
  }

  function IntField(fields: map<string, Json>, name: string): Option<int> {
    if name in fields && fields[name].Int? then Some(fields[name].n) else None
  }

  function BindStamp(fields: map<string, Json>): Option<Stamp> {
    if "stamp" !in fields || !fields["stamp"].Obj? then None
    else
      var sec, nano := IntField(fields["stamp"].fields, "sec"), IntField(fields["stamp"].fields, "nanosec");
      if sec.None? || nano.None? || sec.value <= 0 || sec.value > MAX_SEC then None
      else if nano.value < 0 || nano.value >= 1_000_000_000 then None
      else Some(Stamp(sec.value, nano.value / 1000))
  }

  /** The pairs of action status and outcome that task_executor publishes. */
  predicate LegalPair(status: int, outcome: int) {
    (status == 1 && outcome == 0) || (status == 2 && (outcome == 2 || outcome == 3)) || (status == 3 && outcome == 1)
  }

  function OutcomeOf(outcome: int): (Outcome, DeviceState) {
    if outcome == 0 then (Completed, Confirmed)
    else if outcome == 1 then (Canceled, Halted)
    else if outcome == 2 then (SafeStop, Halted)
    else (Failed, DeviceRejected)
  }

  function Bind(j: Json, space: char -> bool): Option<Bound> {
    if !j.Obj? then None
    else
      var f := j.fields;
      var task, target, message :=
        TextField(f, "task_id", space), TextField(f, "target_id", space), TextField(f, "message", space);
      var request, workflow, goal :=
        TextField(f, "request_id", space), TextField(f, "workflow_id", space), TextField(f, "goal_id", space);
      var status, outcome := IntField(f, "action_status"), IntField(f, "outcome");
      var error, duration, at := IntField(f, "error_code"), IntField(f, "duration_ms"), BindStamp(f);
      if task.None? || target.None? || message.None? || request.None? || workflow.None? || goal.None? then None
      else if status.None? || outcome.None? || error.None? || duration.None? || at.None? then None
      else if !LegalPair(status.value, outcome.value) then None
      else if duration.value < 0 || error.value < 0 || error.value > 0xFFFF then None
      else
        var k := Identity(request.value, workflow.value, task.value, goal.value,
                          status.value, outcome.value, error.value, duration.value);
        Some(Bound(k, OutcomeOf(outcome.value).0, OutcomeOf(outcome.value).1, message.value, target.value, at.value))
  }

  /** The object carries the bound record's fields under their names. */
  predicate Carries(f: map<string, Json>, b: Bound, space: char -> bool) {
    && TextField(f, "request_id", space) == Some(b.id.request)
    && TextField(f, "workflow_id", space) == Some(b.id.workflow)
    && TextField(f, "task_id", space) == Some(b.id.task)
    && TextField(f, "goal_id", space) == Some(b.id.goal)
    && TextField(f, "target_id", space) == Some(b.target)
    && TextField(f, "message", space) == Some(b.reason)
    && IntField(f, "action_status") == Some(b.id.status)
    && IntField(f, "outcome") == Some(b.id.outcome)
    && IntField(f, "error_code") == Some(b.id.errorCode)
    && IntField(f, "duration_ms") == Some(b.id.durationMs)
    && BindStamp(f) == Some(b.at)
  }

  /** What the runtime can have published. */
  predicate Publishable(b: Bound) {
    && b.id.durationMs >= 0 && 0 <= b.id.errorCode <= 0xFFFF
    && match b.outcome
       case Completed => b.id.status == 1 && b.id.outcome == 0 && b.device.Confirmed?
       case Canceled => b.id.status == 3 && b.id.outcome == 1 && b.device.Halted?
       case SafeStop => b.id.status == 2 && b.id.outcome == 2 && b.device.Halted?
       case Failed => b.id.status == 2 && b.id.outcome == 3 && b.device.DeviceRejected?
  }

  /** A record binds to exactly the publishable bound record it carries. */
  lemma BindIff(f: map<string, Json>, b: Bound, space: char -> bool)
    ensures Bind(Obj(f), space) == Some(b) <==> Carries(f, b, space) && Publishable(b)
  {
  }

  /** A record is stored as completed, or its device as confirmed, only when the
      runtime reported success with a completed outcome. */
  lemma BoundCompletionIsReported(j: Json, space: char -> bool)
    requires Bind(j, space).Some?
    ensures var b := Bind(j, space).value;
            && (b.outcome.Completed? <==> b.id.status == 1)
            && (b.device.Confirmed? <==> b.id.status == 1)
            && (b.outcome.Canceled? <==> b.id.status == 3)
            && b.id.goal != "" && ActionId(b.id) == b.id.goal
  {
  }
}
