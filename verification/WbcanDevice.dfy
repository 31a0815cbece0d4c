/** The driver in its own form: the private structure and the netdev, changed
    section by section. Each section is proved against its effect in `Wbcan`. */
module WbcanDriver {
  import opened Wbcan
  import opened WbcanAbi
  import WbcanRuns

  class WbcanDevice {
    var state: CanState
    var queueStopped: bool
    var plane: Plane
    var stat: Counters
    var link: LinkStats
    var coreWarnings: nat

    function Snapshot(): Device
      reads this
    {
      Device(state, queueStopped, plane, stat, link, coreWarnings)
    }

    constructor ()
      ensures PlaneOk(plane) && Snapshot() == FRESH
    {
      state, queueStopped := Stopped, true;
      plane := FRESH_PLANE;
      stat := Counters(0, 0, 0, 0, 0, 0);
      link := LinkStats(0, 0, 0, 0, 0, 0, 0);
      coreWarnings := 0;
    }

    method ShouldInject(f: Frame) returns (hit: Fault)
      modifies this`plane
      ensures Decision(plane, hit) == Decide(old(plane), f)
    {
      hit := NoFault;
      if plane.fault == NoFault || plane.count == 0 {
        return;
      }
      if !plane.matchAny && MatchKey(f.id) != plane.matchId {
        return;
      }
      if plane.fault == BitFlip && (f.id.remote || plane.flipByte >= DataLen(f)) {
        return;
      }
      plane := plane.(seen := plane.seen + 1);
      if plane.after > 0 {
        plane := plane.(after := plane.after - 1);
        return;
      }
      plane := plane.(count := plane.count - 1);
      plane := plane.(injected := plane.injected + 1);
      hit := plane.fault;
    }

    /** The CAN core's state change: the worse of the two directions, and a
        warning instead of a change when nothing would change. */
    method ChangeState(tx: CanState, rx: CanState)
      modifies this`state, this`coreWarnings
      ensures state == Worse(tx, rx)
      ensures coreWarnings == old(coreWarnings) + if old(state) == Worse(tx, rx) then 1 else 0
    {
      if Worse(tx, rx) == state {
        coreWarnings := coreWarnings + 1;
      } else {
        state := Worse(tx, rx);
      }
    }

    /** The error path of a transmit. It never asks the core for a state change
        that changes nothing. */
    method EmitError(kind: Fault, e: TxEnv)
      requires !Terminal(state)
      modifies this`state, this`queueStopped, this`stat, this`link, this`coreWarnings
      ensures coreWarnings == old(coreWarnings) && link == ErrorFrameSent(old(link), e)
      ensures state == if kind.GoBusOff? then BusOff
                       else if kind.StuffErr? then Worse(ErrorWarning, old(state)) else old(state)
      ensures queueStopped == (kind.GoBusOff? || old(queueStopped))
      ensures stat == if kind.StuffErr? then old(stat).(busErrors := old(stat).busErrors + 1)
                      else if kind.ArbLost? then old(stat).(arbLost := old(stat).arbLost + 1) else old(stat)
    {
      match kind {
        case GoBusOff =>
          queueStopped := true;
          if state != BusOff {
            ChangeState(BusOff, BusOff);
          }
        case ArbLost =>
          stat := stat.(arbLost := stat.arbLost + 1);
        case StuffErr =>
          stat := stat.(busErrors := stat.busErrors + 1);
          if Worse(ErrorWarning, state) != state {
            ChangeState(ErrorWarning, state);
          }
        case _ =>
          if !e.errorSkb {
            return;
          }
      }
      if e.errorSkb && !e.errorDelivered {
        link := link.(rxDropped := link.rxDropped + 1);
      }
    }

    method StartXmit(f: Frame, e: TxEnv) returns (outcome: TxOutcome)
      requires PlaneOk(plane)
      modifies this
      ensures PlaneOk(plane)
      ensures (Snapshot(), outcome) == Transmit(old(Snapshot()), f, e)
    {
      if e.coreDropped {
        return CoreDropped;
      }
      if f.id.error {
        return ErrorFrameIgnored;
      }
      if state == BusOff || state == Stopped || state == Sleeping {
        queueStopped := true;
        link := link.(txDropped := link.txDropped + 1);
        return TerminalDrop;
      }
      var hit := ShouldInject(f);
      outcome := Finish(f, hit, e);
    }

    method Finish(f: Frame, hit: Fault, e: TxEnv) returns (outcome: TxOutcome)
      requires PlaneOk(plane) && !Terminal(state)
      modifies this`state, this`queueStopped, this`stat, this`link, this`coreWarnings
      ensures (Snapshot(), outcome) == Conclude(old(Snapshot()), f, hit, e)
    {
      if hit == TxFull {
        queueStopped := true;
        EmitError(hit, e);
        queueStopped := false;
        return Busy;
      }
      if hit == GoBusOff || hit == ArbLost || hit == StuffErr {
        stat := stat.(tx := stat.tx + 1);
        EmitError(hit, e);
        link := link.(txErrors := link.txErrors + 1);
        return Errored(hit);
      }
      if hit == DropTx {
        stat := stat.(tx := stat.tx + 1);
        link := link.(txPackets := link.txPackets + 1, txBytes := link.txBytes + DataLen(f));
        return Vanished;
      }
      var delivery := Deliver(f, hit, e);
      return Accepted(hit, delivery);
    }

    /** The tail of a transmit that was not refused, failed or swallowed. */
    method Deliver(f: Frame, hit: Fault, e: TxEnv) returns (delivery: Delivery)
      requires PlaneOk(plane)
      modifies this`state, this`stat, this`link, this`coreWarnings
      ensures delivery == DeliveryOf(plane, hit, f, e)
      ensures Snapshot() == Account(Settle(old(Snapshot()), hit), f, delivery)
    {
      stat := stat.(tx := stat.tx + 1);
      if hit == NoFault && state == ErrorWarning {
        ChangeState(ErrorActive, ErrorActive);
      }
      link := link.(txPackets := link.txPackets + 1, txBytes := link.txBytes + DataLen(f));
      delivery := Echo(f, hit, e);
    }

    method Echo(f: Frame, hit: Fault, e: TxEnv) returns (delivery: Delivery)
      requires PlaneOk(plane)
      modifies this`stat, this`link
      ensures delivery == DeliveryOf(plane, hit, f, e)
      ensures Snapshot() == Echoed(old(Snapshot()), f, delivery)
    {
      if !f.loopback {
        return NotLooped;
      }
      if !e.echoSkb {
        link := link.(rxDropped := link.rxDropped + 1);
        return NoBuffer;
      }
      var data := f.data;
      if hit == BitFlip {
        data := Flip(f.data, plane.flipByte, plane.flipBit);
      }
      if hit == DropRx {
        link := link.(rxDropped := link.rxDropped + 1);
        return Withheld;
      }
      if e.echoDelivered {
        link := link.(rxPackets := link.rxPackets + 1, rxBytes := link.rxBytes + DataLen(f));
        stat := stat.(rx := stat.rx + 1);
        return Received(data);
      }
      link := link.(rxDropped := link.rxDropped + 1);
      return NotTaken;
    }

    /** The TX-lock section of a restart; false is the busy answer. */
    method CommitRestart() returns (committed: bool)
      requires PlaneOk(plane)
      modifies this`state, this`queueStopped, this`plane
      ensures PlaneOk(plane) && committed == old(state).BusOff?
      ensures Snapshot() == RestartCommit(old(Snapshot()))
    {
      if state != BusOff {
        return false;
      }
      plane := plane.(fault := NoFault);
      plane := plane.(count := 0);
      state := ErrorActive;
      queueStopped := false;
      return true;
    }

    /** Open, once the CAN core has opened; alone it is its two sections in order. */
    method Open(coreOpened: bool, ghost w: WbcanRuns.World) returns (ok: bool)
      requires PlaneOk(plane) && w.dev == Snapshot() && w.rtnl.Idle? && !w.up
      modifies this`state, this`queueStopped
      ensures PlaneOk(plane) && ok == coreOpened
      ensures Snapshot() == if ok then WbcanRuns.Exec(w, WbcanRuns.OPENING).dev else old(Snapshot())
    {
      if !coreOpened {
        return false;
      }
      WbcanRuns.OpenAlone(w);
      state := ErrorActive;
      queueStopped := false;
      return true;
    }

    /** Stop; alone it is its five sections in order. */
    method Stop(ghost w: WbcanRuns.World)
      requires PlaneOk(plane) && w.dev == Snapshot() && w.rtnl.Idle? && w.up && !w.worker
      modifies this`state, this`queueStopped, this`stat
      ensures PlaneOk(plane)
      ensures Snapshot() == WbcanRuns.Exec(w, WbcanRuns.STOPPING).dev
      ensures state.Stopped? && queueStopped
    {
      WbcanRuns.StopAlone(w);
      queueStopped := true;
      stat := stat.(stops := stat.stops + 1);
      queueStopped := true;
      state := Stopped;
      queueStopped := true;
    }

    /** A write to the debugfs file. A line that is empty, too long, cannot be
        copied or split, or is malformed leaves everything alone. */
    method InjectWrite(line: string, copied: bool, split: bool) returns (accepted: bool)
      requires PlaneOk(plane)
      modifies this`plane
      ensures PlaneOk(plane) && accepted == (copied && split && ParseLine(line).Some?)
      ensures plane == if accepted then Arm(old(plane), ParseLine(line).value) else old(plane)
    {
      if |line| == 0 || |line| >= LINE_LIMIT || !copied || !split {
        return false;
      }
      var parsed := ParseArm(Words(CString(line)));
      if parsed.None? {
        return false;
      }
      ParsedLinesAreSound(line);
      plane := Arm(plane, parsed.value);
      return true;
    }
  }
}
