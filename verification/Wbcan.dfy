/** The wbcan virtual CAN controller: its state, its fault plane and the effect
    of each section that runs under the netdev TX lock or the private lock. */
module Wbcan {
  // ------------------------------------------------------------------ frames

  const SFF_LIMIT := 0x800          // CAN_SFF_MASK + 1
  const EFF_LIMIT := 0x2000_0000    // CAN_EFF_MASK + 1

  /** The 32-bit identifier word by its fields: the three flag bits and the 29
      identifier bits below them. */
  datatype CanId = CanId(extended: bool, remote: bool, error: bool, bits: nat)

  /** What a frame is matched by: the extended flag with 29 bits, or 11 bits. */
  function MatchKey(id: CanId): CanId {
    CanId(id.extended, false, false, if id.extended then id.bits else id.bits % SFF_LIMIT)
  }

  datatype Frame = Frame(id: CanId, data: seq<bv8>, loopback: bool)

  /** A remote frame carries no data whatever its length field says. */
  function DataLen(f: Frame): nat {
    if f.id.remote then 0 else |f.data|
  }

  function FlipByte(x: bv8, bit: nat): bv8
    requires bit < 8
  {
    x ^ ((1 as bv8) << bit)
  }

  function Flip(data: seq<bv8>, byte: nat, bit: nat): seq<bv8>
    requires bit < 8
  {
    if byte < |data| then data[byte := FlipByte(data[byte], bit)] else data
  }

  // ------------------------------------------------------------- fault plane

  datatype Fault = NoFault | DropTx | DropRx | BitFlip | GoBusOff | TxFull | ArbLost | StuffErr

  datatype Plane = Plane(
    fault: Fault, count: nat, after: nat, matchAny: bool, matchId: CanId,
    flipByte: nat, flipBit: nat, seen: nat, injected: nat)

  /** What the debugfs writer stores under the private lock. */
  datatype Setting = Setting(
    fault: Fault, count: nat, after: nat, matchAny: bool, matchId: CanId, flipByte: nat, flipBit: nat)

  predicate PlaneOk(p: Plane) {
    && p.flipByte < 8 && p.flipBit < 8
    && (p.fault.NoFault? ==> p.count == 0)
    && (!p.matchAny ==> MatchKey(p.matchId) == p.matchId)
  }

  function Arm(p: Plane, s: Setting): Plane {
    Plane(s.fault, s.count, s.after, s.matchAny, s.matchId, s.flipByte, s.flipBit, 0, p.injected)
  }

  /** The frame is one the armed fault may affect, whatever is left of its skips
      and shots. */
  predicate Eligible(p: Plane, f: Frame) {
    && !p.fault.NoFault?
    && (p.matchAny || MatchKey(f.id) == p.matchId)
    && (p.fault.BitFlip? ==> !f.id.remote && p.flipByte < DataLen(f))
  }

  datatype Decision = Decision(plane: Plane, hit: Fault)

  /** The private-lock section of a transmit: skip, fire or let pass. */
  function Decide(p: Plane, f: Frame): Decision {
    if p.count == 0 || !Eligible(p, f) then Decision(p, NoFault)
    else if p.after > 0 then Decision(p.(seen := p.seen + 1, after := p.after - 1), NoFault)
    else Decision(p.(seen := p.seen + 1, count := p.count - 1, injected := p.injected + 1), p.fault)
  }

  // --------------------------------------------------------------- controller

  datatype CanState = ErrorActive | ErrorWarning | ErrorPassive | BusOff | Stopped | Sleeping

  function Severity(s: CanState): nat {
    match s
    case ErrorActive => 0
    case ErrorWarning => 1
    case ErrorPassive => 2
    case BusOff => 3
    case Stopped => 4
    case Sleeping => 5
  }

  function Worse(s: CanState, t: CanState): CanState {
    if Severity(s) < Severity(t) then t else s
  }

  predicate Terminal(s: CanState) { s.BusOff? || s.Stopped? || s.Sleeping? }

  datatype Counters = Counters(
    tx: nat, rx: nat, restarts: nat, stops: nat, busErrors: nat, arbLost: nat)

  datatype LinkStats = LinkStats(
    txPackets: nat, txBytes: nat, txErrors: nat, txDropped: nat, rxPackets: nat, rxBytes: nat, rxDropped: nat)

  /** `coreWarnings` counts calls of the CAN core's state change with the state
      it already had, which the core answers with a warning. */
  datatype Device = Device(
    state: CanState, queueStopped: bool, plane: Plane, stat: Counters, link: LinkStats, coreWarnings: nat)

  const NO_ID := CanId(false, false, false, 0)

  const FRESH_PLANE := Plane(NoFault, 0, 0, true, NO_ID, 0, 0, 0, 0)

  const FRESH := Device(Stopped, true, FRESH_PLANE, Counters(0, 0, 0, 0, 0, 0), LinkStats(0, 0, 0, 0, 0, 0, 0), 0)

  /** What the kernel answers during one transmit. */
  datatype TxEnv = TxEnv(
    coreDropped: bool,     // the CAN core refuses the buffer
    errorSkb: bool,        // an error frame could be allocated
    errorDelivered: bool,  // and was taken by the stack
    echoSkb: bool,         // the echo buffer could be allocated
    echoDelivered: bool,   // and was taken by the stack
    restartMs: bool)       // automatic bus-off recovery is configured

  datatype Delivery = NotLooped | NoBuffer | Withheld | NotTaken | Received(data: seq<bv8>)

  datatype TxOutcome =
    | CoreDropped
    | ErrorFrameIgnored
    | TerminalDrop
    | Busy
    | Errored(fault: Fault)
    | Vanished
    | Accepted(hit: Fault, delivery: Delivery)

  /** An allocated error frame that the stack does not take is a dropped receive. */
  function ErrorFrameSent(l: LinkStats, e: TxEnv): LinkStats {
    if e.errorSkb && !e.errorDelivered then l.(rxDropped := l.rxDropped + 1) else l
  }

  function DeliveryOf(p: Plane, hit: Fault, f: Frame, e: TxEnv): Delivery
    requires p.flipBit < 8
  {
    if !f.loopback then NotLooped
    else if !e.echoSkb then NoBuffer
    else if hit.DropRx? then Withheld
    else if !e.echoDelivered then NotTaken
    else Received(if hit.BitFlip? then Flip(f.data, p.flipByte, p.flipBit) else f.data)
  }

  function Sent(d: Device, f: Frame): Device {
    d.(stat := d.stat.(tx := d.stat.tx + 1),
       link := d.link.(txPackets := d.link.txPackets + 1, txBytes := d.link.txBytes + DataLen(f)))
  }

  function Echoed(d: Device, f: Frame, v: Delivery): Device {
    match v
    case NotLooped => d
    case Received(_) =>
      d.(stat := d.stat.(rx := d.stat.rx + 1),
         link := d.link.(rxPackets := d.link.rxPackets + 1, rxBytes := d.link.rxBytes + DataLen(f)))
    case _ => d.(link := d.link.(rxDropped := d.link.rxDropped + 1))
  }

  function Account(d: Device, f: Frame, v: Delivery): Device { Echoed(Sent(d, f), f, v) }

  /** A frame that takes no fault brings a controller in warning back to active. */
  function Settle(d: Device, hit: Fault): Device {
    if hit.NoFault? && d.state.ErrorWarning? then d.(state := ErrorActive) else d
  }

  /** The accepted-but-failed transmits: bus-off, lost arbitration, stuff error. */
  function Fail(d: Device, hit: Fault, e: TxEnv): Device {
    var failed := d.(
      stat := d.stat.(tx := d.stat.tx + 1),
      link := ErrorFrameSent(d.link, e).(txErrors := d.link.txErrors + 1));
    match hit
    case GoBusOff => failed.(state := BusOff, queueStopped := true)
    case StuffErr =>
      failed.(state := Worse(ErrorWarning, d.state), stat := failed.stat.(busErrors := d.stat.busErrors + 1))
    case _ => failed.(stat := failed.stat.(arbLost := d.stat.arbLost + 1))
  }

  /** What a transmit does once the fault plane has decided. */
  function Conclude(d: Device, f: Frame, hit: Fault, e: TxEnv): (Device, TxOutcome)
    requires PlaneOk(d.plane)
  {
    match hit
    case TxFull => (d.(queueStopped := false, link := ErrorFrameSent(d.link, e)), Busy)
    case GoBusOff => (Fail(d, hit, e), Errored(hit))
    case ArbLost => (Fail(d, hit, e), Errored(hit))
    case StuffErr => (Fail(d, hit, e), Errored(hit))
    case DropTx => (Account(d, f, NotLooped), Vanished)
    case _ =>
      var v := DeliveryOf(d.plane, hit, f, e);
      (Account(Settle(d, hit), f, v), Accepted(hit, v))
  }

  /** One transmit, which runs under the netdev TX lock. */
  function Transmit(d: Device, f: Frame, e: TxEnv): (Device, TxOutcome)
    requires PlaneOk(d.plane)
  {
    if e.coreDropped then (d, CoreDropped)
    else if f.id.error then (d, ErrorFrameIgnored)
    else if Terminal(d.state) then
      (d.(queueStopped := true, link := d.link.(txDropped := d.link.txDropped + 1)), TerminalDrop)
    else
      var decision := Decide(d.plane, f);
      Conclude(d.(plane := decision.plane), f, decision.hit, e)
  }

  /** The TX-lock section of a restart: it commits only out of bus-off, and then
      clears the armed fault, goes active and wakes the queue. */
  function RestartCommit(d: Device): Device {
    if d.state.BusOff? then
      d.(state := ErrorActive, queueStopped := false, plane := d.plane.(fault := NoFault, count := 0))
    else d
  }
}
