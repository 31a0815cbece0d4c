/** The event store's allocating append, and the capture that binds every record
    before it appends the first one. */
module TaskIngest {
  import opened Text
  import opened TaskEvents

  const MAX_EVENTS_PER_RUN := 10_000
  const MAX_CAPTURE_BYTES := 10 * 1024 * 1024
  const MAX_CAPTURE_LINES := 10_000

  // -------------------------------------------------------------- the store

  datatype Event = Event(id: string, run: string, body: Bound)

  datatype Row = Row(event: Event, sequence: nat)

  function EventOf(b: Bound): Event { Event(EventId(b.id), RunId(b.id), b) }

  function Ids(log: seq<Row>): set<string> { set r | r in log :: r.event.id }

  function Events(log: seq<Row>): set<Event> { set r | r in log :: r.event }

  function RunCount(log: seq<Row>, run: string): nat {
    if log == [] then 0
    else RunCount(log[..|log| - 1], run) + if log[|log| - 1].event.run == run then 1 else 0
  }

  /** One more than the largest sequence number the run holds. */
  function NextSequence(log: seq<Row>, run: string): nat {
    if log == [] then 1
    else
      var rest, last := NextSequence(log[..|log| - 1], run), log[|log| - 1];
      if last.event.run == run && last.sequence >= rest then last.sequence + 1 else rest
  }

  /** Event ids are unique and each run is numbered 1, 2, 3, … in log order. */
  predicate Sound(log: seq<Row>) {
    log == [] ||
    var front, last := log[..|log| - 1], log[|log| - 1];
    Sound(front) && last.event.id !in Ids(front) && last.sequence == RunCount(front, last.event.run) + 1
  }

  lemma {:induction false} NextIsCount(log: seq<Row>, run: string)
    requires Sound(log)
    ensures NextSequence(log, run) == RunCount(log, run) + 1
  {
    if log == [] {
    } else {
      NextIsCount(log[..|log| - 1], run);
    }
  }

  function Extend(log: seq<Row>, e: Event): seq<Row> {
    if e.id in Ids(log) then log else log + [Row(e, NextSequence(log, e.run))]
  }

  /** The log after appending each event in turn. */
  function Appended(log: seq<Row>, es: seq<Event>): seq<Row> {
    if es == [] then log else Extend(Appended(log, es[..|es| - 1]), es[|es| - 1])
  }

  lemma ExtendKeepsSound(log: seq<Row>, e: Event)
    requires Sound(log)
    ensures Sound(Extend(log, e)) && log <= Extend(log, e) && e.id in Ids(Extend(log, e))
  {
    NextIsCount(log, e.run);
    var more := log + [Row(e, NextSequence(log, e.run))];
    assert more[..|more| - 1] == log && more[|more| - 1] in more;
  }

  lemma RowsKept(log: seq<Row>, more: seq<Row>)
    requires log <= more
    ensures Ids(log) <= Ids(more) && Events(log) <= Events(more)
  {
    assert forall r | r in log :: r in more;
  }

  /** In a sound log an id names one event. */
  lemma {:induction false} IdNamesOne(log: seq<Row>, a: Row, b: Row)
    requires Sound(log) && a in log && b in log && a.event.id == b.event.id
    ensures a == b
  {
    var front, last := log[..|log| - 1], log[|log| - 1];
    assert log == front + [last];
    assert forall r | r in log :: r == last || r in front;
    assert forall r | r in front :: r.event.id in Ids(front);
    if a in front && b in front { IdNamesOne(front, a, b); }
  }

  /** Appending events the log already identifies leaves it as it is. */
  lemma {:induction false} KnownEventsAddNothing(log: seq<Row>, es: seq<Event>)
    requires forall e | e in es :: e.id in Ids(log)
    ensures Appended(log, es) == log
  {
    if es == [] {
    } else {
      KnownEventsAddNothing(log, es[..|es| - 1]);
    }
  }

  lemma {:induction false} AppendedGrows(log: seq<Row>, es: seq<Event>)
    requires Sound(log)
    ensures Sound(Appended(log, es)) && log <= Appended(log, es)
    ensures forall e | e in es :: e.id in Ids(Appended(log, es))
  {
    if es == [] {
    } else {
      var front, last := es[..|es| - 1], es[|es| - 1];
      AppendedGrows(log, front);
      ExtendKeepsSound(Appended(log, front), last);
      RowsKept(Appended(log, front), Appended(log, es));
      assert es == front + [last];
    }
  }

  /** Ingesting the same events again, whatever was ingested in between, adds
      nothing: redelivery is idempotent. */
  lemma ReplayAddsNothing(log: seq<Row>, es: seq<Event>, between: seq<Event>)
    requires Sound(log)
    ensures var once := Appended(Appended(log, es), between); Appended(once, es) == once
  {
    var first := Appended(log, es);
    AppendedGrows(log, es);
    AppendedGrows(first, between);
    RowsKept(first, Appended(first, between));
    KnownEventsAddNothing(Appended(first, between), es);
  }

  /** What the store's own rules let in: a replay, or a new id in a run with room. */
  predicate Accepts(log: seq<Row>, e: Event) {
    e in Events(log) || (e.id !in Ids(log) && RunCount(log, e.run) < MAX_EVENTS_PER_RUN)
  }

  /** Each event in turn is one the store's rules let in. */
  predicate AllAccepted(log: seq<Row>, es: seq<Event>) {
    forall i | 0 <= i < |es| :: Accepts(Appended(log, es[..i]), es[i])
  }

  /** A replay is always let in, and changes nothing. */
  lemma ReplayAccepted(log: seq<Row>, es: seq<Event>)
    requires forall e | e in es :: e in Events(log)
    ensures AllAccepted(log, es) && Appended(log, es) == log
  {
    forall e | e in es ensures e.id in Ids(log) { EventsHaveIds(log, e); }
    forall i | 0 <= i < |es| ensures Accepts(Appended(log, es[..i]), es[i]) {
      KnownEventsAddNothing(log, es[..i]);
    }
    KnownEventsAddNothing(log, es);
  }

  class EventStore {
    var log: seq<Row>
    var clock: nat
    const works: nat -> bool       // whether the database honours its n-th operation
    const admits: Event -> bool    // the event contract

    constructor (works: nat -> bool, admits: Event -> bool)
      ensures log == [] && clock == 0 && this.works == works && this.admits == admits && Sound(log)
    {
      this.works, this.admits := works, admits;
      log, clock := [], 0;
    }

    ghost predicate Quiet(from: nat) { forall n | from <= n :: works(n) }

    predicate Admits(es: seq<Event>) { AdmitsAll(admits, es) }

    method Operate() returns (ok: bool)
      modifies this`clock
      ensures clock == old(clock) + 1 && ok == works(old(clock))
    {
      ok := works(clock);
      clock := clock + 1;
    }

    /** The allocating append: a replay of a stored event returns it, anything else
        under its id is refused, and a new event takes the run's next number. */
    method AppendAllocated(e: Event) returns (r: Option<Row>)
      requires Sound(log)
      modifies this`log, this`clock
      ensures Sound(log) && old(clock) <= clock
      ensures r.None? ==> log == old(log)
      ensures r.Some? ==> log == Extend(old(log), e) && r.value in log && r.value.event == e
      ensures e.id in Ids(old(log)) && e !in Events(old(log)) ==> r.None?
      ensures e !in Events(old(log)) && RunCount(old(log), e.run) >= MAX_EVENTS_PER_RUN ==> r.None?
      ensures r.Some? ==> admits(e)
      ensures admits(e) && Quiet(old(clock)) && Accepts(old(log), e) ==> r.Some?
    {
      ExtendKeepsSound(log, e);
      if !admits(e) { return None; }
      var found := Operate();
      if !found { return None; }
      if e.id in Ids(log) {
        var row :| row in log && row.event.id == e.id;
        if e in Events(log) {
          ghost var same :| same in log && same.event == e;
          IdNamesOne(log, row, same);
        }
        if row.event != e { return None; }
        return Some(row);
      }
      if RunCount(log, e.run) >= MAX_EVENTS_PER_RUN { return None; }
      var written := Operate();
      if !written { return None; }
      var row := Row(e, NextSequence(log, e.run));
      log := log + [row];
      return Some(row);
    }
  }

  // ------------------------------------------------------------- the capture

  /** What the file yields: its size, and its text when it is valid UTF-8. */
  datatype Capture = Unreadable | Capture(bytes: nat, text: Option<string>)

  /** The library calls the ingester makes. */
  datatype Reader = Reader(lines: string -> seq<string>, parse: string -> Option<Raw>, space: char -> bool)

  datatype Record = Record(line: nat, json: Json)

  function Newlines(s: string): nat {
    if s == "" then 0 else Newlines(s[..|s| - 1]) + if s[|s| - 1] == '\n' then 1 else 0
  }

  function LineCount(s: string): nat {
    Newlines(s) + if s != "" && s[|s| - 1] == '\n' then 0 else 1
  }

  function DecodeLine(line: string, rd: Reader): Option<Json> {
    var raw := rd.parse(line);
    if raw.None? then None else Decode(raw.value)
  }

  /** The records of the non-blank lines, numbered as in the file, or None when
      one of them is refused. */
  function Decoded(lines: seq<string>, rd: Reader): Option<seq<Record>> {
    if lines == [] then Some([])
    else
      var front, last := Decoded(lines[..|lines| - 1], rd), lines[|lines| - 1];
      if front.None? || Blank(last, rd.space) then front
      else
        var json := DecodeLine(last, rd);
        if json.None? then None else Some(front.value + [Record(|lines|, json.value)])
  }

  predicate Binds(records: seq<Record>, rd: Reader) {
    forall i | 0 <= i < |records| :: Bind(records[i].json, rd.space).Some?
  }

  /** One refused line anywhere refuses the capture, and nothing else does. */
  lemma {:induction false} DecodedIff(lines: seq<string>, rd: Reader)
    ensures Decoded(lines, rd).Some? <==>
            forall i | 0 <= i < |lines| ::
              Blank(lines[i], rd.space) || (rd.parse(lines[i]).Some? && Strict(rd.parse(lines[i]).value))
  {
    if lines == [] {
    } else {
      var front, last := lines[..|lines| - 1], lines[|lines| - 1];
      DecodedIff(front, rd);
      if rd.parse(last).Some? { DecodesIffStrict(rd.parse(last).value); }
      assert forall i | 0 <= i < |front| :: lines[i] == front[i];
    }
  }

  function BoundsOf(records: seq<Record>, rd: Reader): seq<Bound>
    requires Binds(records, rd)
  {
    seq(|records|, i requires 0 <= i < |records| => Bind(records[i].json, rd.space).value)
  }

  function EventsOf(bs: seq<Bound>): (es: seq<Event>)
    ensures |es| == |bs|
  {
    seq(|bs|, i requires 0 <= i < |bs| => EventOf(bs[i]))
  }

  /** What the module itself requires of a capture before it touches the store. */
  predicate Bindable(c: Capture, rd: Reader) {
    && c.Capture? && c.bytes <= MAX_CAPTURE_BYTES && c.text.Some?
    && LineCount(c.text.value) <= MAX_CAPTURE_LINES
    && Decoded(rd.lines(c.text.value), rd).Some?
    && Binds(Decoded(rd.lines(c.text.value), rd).value, rd)
  }

  function CaptureEvents(c: Capture, rd: Reader): seq<Event>
    requires Bindable(c, rd)
  {
    EventsOf(BoundsOf(Decoded(rd.lines(c.text.value), rd).value, rd))
  }

  datatype IngestResult = IngestResult(line: nat, run: string, action: string, eventId: string)

  datatype Ingestion =
    | Refused                              // nothing was appended
    | StoreRefused(record: nat)            // the records before this one were appended
    | Ingested(results: seq<IngestResult>)

  method DecodeAll(lines: seq<string>, rd: Reader) returns (records: Option<seq<Record>>)
    ensures records == Decoded(lines, rd)
  {
    var done: seq<Record> := [];
    for i := 0 to |lines|
      invariant Decoded(lines[..i], rd) == Some(done)
    {
      assert lines[..i + 1][..i] == lines[..i];
      if !Blank(lines[i], rd.space) {
        var json := DecodeLine(lines[i], rd);
        if json.None? {
          RefusedStaysRefused(lines, i + 1, rd);
          return None;
        }
        done := done + [Record(i + 1, json.value)];
      }
    }
    assert lines[..|lines|] == lines;
    return Some(done);
  }

  lemma {:induction false} RefusedStaysRefused(lines: seq<string>, i: nat, rd: Reader)
    requires i <= |lines| && Decoded(lines[..i], rd).None?
    ensures Decoded(lines, rd).None?
  {
    if i == |lines| {
      assert lines[..i] == lines;
    } else {
      var front := lines[..|lines| - 1];
      assert front[..i] == lines[..i];
      RefusedStaysRefused(front, i, rd);
    }
  }

  /** Every record bound, or a refusal at the first that cannot be. */
  method BindAll(records: seq<Record>, rd: Reader) returns (ok: bool, bs: seq<Bound>)
    ensures ok <==> Binds(records, rd)
    ensures ok ==> bs == BoundsOf(records, rd)
  {
    bs := [];
    for i := 0 to |records|
      invariant |bs| == i && forall j | 0 <= j < i :: Bind(records[j].json, rd.space) == Some(bs[j])
    {
      var b := Bind(records[i].json, rd.space);
      if b.None? { return false, bs; }
      bs := bs + [b.value];
    }
    return true, bs;
  }

  /** One record on its own: refused records and refused appends change nothing. */
  method IngestTaskEvent(store: EventStore, record: Record, rd: Reader) returns (r: Option<IngestResult>)
    requires Sound(store.log)
    modifies store`log, store`clock
    ensures Sound(store.log)
    ensures r.None? ==> store.log == old(store.log)
    ensures r.Some? ==>
              && Bind(record.json, rd.space).Some?
              && var b := Bind(record.json, rd.space).value;
                 && store.log == Extend(old(store.log), EventOf(b)) && EventOf(b) in Events(store.log)
                 && r.value == IngestResult(record.line, RunId(b.id), ActionId(b.id), EventId(b.id))
    ensures r.None? && store.Quiet(old(store.clock)) && Bind(record.json, rd.space).Some? ==>
              var e := EventOf(Bind(record.json, rd.space).value);
              !store.admits(e) || !Accepts(old(store.log), e)
  {
    var b := Bind(record.json, rd.space);
    if b.None? { return None; }
    var row := store.AppendAllocated(EventOf(b.value));
    if row.None? { return None; }
    return Some(IngestResult(record.line, RunId(b.value.id), ActionId(b.value.id), row.value.event.id));
  }

  lemma PrefixAppended(log: seq<Row>, es: seq<Event>, i: nat)
    requires i < |es|
    ensures Appended(log, es[..i + 1]) == Extend(Appended(log, es[..i]), es[i])
  {
    assert es[..i + 1][..i] == es[..i];
  }

  /** What an accepted record is reported as. */
  function ResultOf(record: Record, e: Event): IngestResult {
    IngestResult(record.line, e.run, ActionId(e.body.id), e.id)
  }

  /** Each result reports its own record. */
  predicate Named(results: seq<IngestResult>, records: seq<Record>, es: seq<Event>) {
    |results| <= |es| == |records| && forall j | 0 <= j < |results| :: results[j] == ResultOf(records[j], es[j])
  }

  lemma NamedGrows(results: seq<IngestResult>, records: seq<Record>, es: seq<Event>)
    requires |results| < |es| && Named(results, records, es)
    ensures Named(results + [ResultOf(records[|results|], es[|results|])], records, es)
  {
  }

  function CaptureRecords(c: Capture, rd: Reader): seq<Record>
    requires Bindable(c, rd)
  {
    Decoded(rd.lines(c.text.value), rd).value
  }

  /** The whole capture is bound before anything is appended, so a capture refused
      here leaves the store exactly as it was; a store refusal keeps exactly the
      records before it; every result reports its record's own identity; and the
      store's own rules are all that can refuse a bindable capture. */
  method IngestCapture(store: EventStore, c: Capture, rd: Reader) returns (r: Ingestion)
    requires Sound(store.log)
    modifies store`log, store`clock
    ensures Sound(store.log) && old(store.clock) <= store.clock
    ensures r.Refused? <==> !Bindable(c, rd)
    ensures r.Refused? ==> store.log == old(store.log)
    ensures r.StoreRefused? ==>
              && r.record < |CaptureEvents(c, rd)|
              && store.log == Appended(old(store.log), CaptureEvents(c, rd)[..r.record])
    ensures r.Ingested? ==>
              && store.log == Appended(old(store.log), CaptureEvents(c, rd))
              && |r.results| == |CaptureEvents(c, rd)|
              && Named(r.results, CaptureRecords(c, rd), CaptureEvents(c, rd))
              && Known(CaptureEvents(c, rd), store.log) && store.Admits(CaptureEvents(c, rd))
    ensures (Bindable(c, rd) && store.Quiet(old(store.clock)) && store.Admits(CaptureEvents(c, rd)) &&
             AllAccepted(old(store.log), CaptureEvents(c, rd))) ==> r.Ingested?
  {
    if c.Unreadable? || c.bytes > MAX_CAPTURE_BYTES || c.text.None? { return Refused; }
    if LineCount(c.text.value) > MAX_CAPTURE_LINES { return Refused; }
    var records := DecodeAll(rd.lines(c.text.value), rd);
    if records.None? { return Refused; }
    var bound, bs := BindAll(records.value, rd);
    if !bound { return Refused; }
    r := AppendEvents(store, records.value, EventsOf(bs));
  }

  predicate AdmitsAll(admits: Event -> bool, es: seq<Event>) { forall e | e in es :: admits(e) }

  /** Where the append loop stands after `i` events. */
  predicate Progress(log: seq<Row>, admits: Event -> bool, was: seq<Row>, es: seq<Event>, i: nat)
    requires i <= |es|
  {
    Sound(log) && log == Appended(was, es[..i]) && Known(es[..i], log) && AdmitsAll(admits, es[..i])
  }

  lemma ProgressStep(log: seq<Row>, admits: Event -> bool, was: seq<Row>, es: seq<Event>, i: nat)
    requires i < |es| && Progress(log, admits, was, es, i)
    requires es[i] in Events(Extend(log, es[i])) && admits(es[i])
    ensures Progress(Extend(log, es[i]), admits, was, es, i + 1)
  {
    PrefixAppended(was, es, i);
    ExtendKeepsSound(log, es[i]);
    KnownGrows(es, i, log, Extend(log, es[i]));
    assert es[..i + 1] == es[..i] + [es[i]];
  }

  method AppendEvents(store: EventStore, records: seq<Record>, es: seq<Event>) returns (r: Ingestion)
    requires Sound(store.log) && |records| == |es|
    modifies store`log, store`clock
    ensures Sound(store.log) && !r.Refused? && old(store.clock) <= store.clock
    ensures r.StoreRefused? ==> r.record < |es| && store.log == Appended(old(store.log), es[..r.record])
    ensures r.Ingested? ==>
              && store.log == Appended(old(store.log), es) && |r.results| == |es| && Named(r.results, records, es)
              && Known(es, store.log) && store.Admits(es)
    ensures (store.Quiet(old(store.clock)) && store.Admits(es) && AllAccepted(old(store.log), es)) ==> r.Ingested?
  {
    var results: seq<IngestResult> := [];
    for i := 0 to |es|
      invariant old(store.clock) <= store.clock && Progress(store.log, store.admits, old(store.log), es, i)
      invariant |results| == i && Named(results, records, es)
    {
      ghost var before := store.log;
      var row := store.AppendAllocated(es[i]);
      if row.None? { return StoreRefused(i); }
      ProgressStep(before, store.admits, old(store.log), es, i);
      NamedGrows(results, records, es);
      results := results + [ResultOf(records[i], row.value.event)];
    }
    assert es[..|es|] == es;
    return Ingested(results);
  }

  /** Ingesting a capture a second time: once it was ingested, the second time
      changes nothing whatever the database answers, and on a database that works it
      is ingested again with the same results. */
  method IngestTwice(store: EventStore, c: Capture, rd: Reader)
    returns (first: Ingestion, second: Ingestion, ghost log: seq<Row>)
    requires Sound(store.log)
    modifies store`log, store`clock
    ensures first.Ingested? ==>
              Bindable(c, rd) && log == Appended(old(store.log), CaptureEvents(c, rd)) && store.log == log
    ensures first.Ingested? && store.Quiet(old(store.clock)) ==> second == first
  {
    first := IngestCapture(store, c, rd);
    log := store.log;
    if first.Ingested? {
      ghost var es := CaptureEvents(c, rd);
      ReplayAccepted(log, es);
      forall k | 0 <= k <= |es| ensures Appended(log, es[..k]) == log { ReplayAccepted(log, es[..k]); }
    }
    second := IngestCapture(store, c, rd);
    if first.Ingested? && second.Ingested? {
      SameResults(first.results, second.results, CaptureRecords(c, rd), CaptureEvents(c, rd));
    }
  }

  lemma SameResults(a: seq<IngestResult>, b: seq<IngestResult>, records: seq<Record>, es: seq<Event>)
    requires Named(a, records, es) && Named(b, records, es) && |a| == |b|
    ensures a == b
  {
  }

  predicate Known(es: seq<Event>, log: seq<Row>) { forall e | e in es :: e in Events(log) }

  lemma KnownGrows(es: seq<Event>, i: nat, log: seq<Row>, more: seq<Row>)
    requires i < |es| && Known(es[..i], log) && log <= more && es[i] in Events(more)
    ensures Known(es[..i + 1], more)
  {
    RowsKept(log, more);
    assert es[..i + 1] == es[..i] + [es[i]];
  }

  lemma EventsHaveIds(log: seq<Row>, e: Event)
    requires e in Events(log)
    ensures e.id in Ids(log)
  {
    var r :| r in log && r.event == e;
  }
}
