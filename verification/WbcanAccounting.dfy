/** What the counters mean: each one is the number of transmits with a given
    outcome over the whole run, and an armed fault fires on exactly the frames it
    was armed for. */
module WbcanAccounting {
  import opened Wbcan
  import opened WbcanAbi
  import opened WbcanRuns

  // ------------------------------------------------------------ conservation

  function OutcomeOf(w: World, a: Action): seq<TxOutcome>
    requires PlaneOk(w.dev.plane)
  {
    if a.Send? && Enabled(w, a) then [Transmit(w.dev, a.frame, a.env).1] else []
  }

  /** The answers to every transmit of the run, in order. */
  function Outcomes(w: World, run: seq<Action>): seq<TxOutcome>
    requires PlaneOk(w.dev.plane)
  {
    if run == [] then []
    else Outcomes(w, run[..|run| - 1]) + OutcomeOf(Exec(w, run[..|run| - 1]), run[|run| - 1])
  }

  datatype Kind = Refused | Failed | Swallowed | Taken | Hit | Looped

  predicate Is(o: TxOutcome, k: Kind) {
    match k
    case Refused => o.Busy?
    case Failed => o.Errored?
    case Swallowed => o.Vanished?
    case Taken => o.Accepted?
    case Hit => o.Accepted? && !o.hit.NoFault?   // withheld echo or flipped bit
    case Looped => o.Accepted? && o.delivery.Received?
  }

  function Count(os: seq<TxOutcome>, k: Kind): nat {
    if os == [] then 0 else Count(os[..|os| - 1], k) + if Is(os[|os| - 1], k) then 1 else 0
  }

  lemma CountSnoc(os: seq<TxOutcome>, o: TxOutcome, k: Kind)
    ensures Count(os + [o], k) == Count(os, k) + if Is(o, k) then 1 else 0
  {
    assert (os + [o])[..|os|] == os;
  }

  /** The books of a device against the outcomes of its transmits. */
  predicate Balanced(d: Device, os: seq<TxOutcome>) {
    && d.link.txErrors == Count(os, Failed)
    && d.link.txPackets == Count(os, Swallowed) + Count(os, Taken)
    && d.link.rxPackets == Count(os, Looped)
    && d.stat.tx == d.link.txPackets + d.link.txErrors
    && d.stat.rx == d.link.rxPackets
    && d.plane.injected == Count(os, Refused) + Count(os, Failed) + Count(os, Swallowed) + Count(os, Hit)
  }

  lemma TransmitBalances(d: Device, os: seq<TxOutcome>, f: Frame, e: TxEnv)
    requires PlaneOk(d.plane) && Balanced(d, os)
    ensures var (d', o) := Transmit(d, f, e); Balanced(d', os + [o])
  {
    var (d', o) := Transmit(d, f, e);
    TransmitBooks(d, f, e);
    EntryBalances(d, d', os, o);
  }

  lemma TransmitBooks(d: Device, f: Frame, e: TxEnv)
    requires PlaneOk(d.plane)
    ensures var (d', o) := Transmit(d, f, e);
            Entry(d, d', o) && d'.plane.injected == d.plane.injected + One(Injects(o))
  {
    if !e.coreDropped && !f.id.error && !Terminal(d.state) {
      var decision := Decide(d.plane, f);
      DecideCounts(d.plane, f);
      ConcludeBooks(d.(plane := decision.plane), f, decision.hit, e);
    }
  }

  lemma DecideCounts(p: Plane, f: Frame)
    ensures Decide(p, f).plane.injected == p.injected + One(!Decide(p, f).hit.NoFault?)
  {
  }

  function One(b: bool): nat { if b then 1 else 0 }

  predicate Entry(d: Device, d': Device, o: TxOutcome) {
    && d'.link.txErrors == d.link.txErrors + One(Is(o, Failed))
    && d'.link.txPackets == d.link.txPackets + One(Is(o, Swallowed) || Is(o, Taken))
    && d'.link.rxPackets == d.link.rxPackets + One(Is(o, Looped))
    && d'.stat.tx - d.stat.tx == (d'.link.txPackets + d'.link.txErrors) - (d.link.txPackets + d.link.txErrors)
    && d'.stat.rx - d.stat.rx == d'.link.rxPackets - d.link.rxPackets
  }

  predicate Injects(o: TxOutcome) { Is(o, Refused) || Is(o, Failed) || Is(o, Swallowed) || Is(o, Hit) }

  lemma EntryBalances(d: Device, d': Device, os: seq<TxOutcome>, o: TxOutcome)
    requires Balanced(d, os) && Entry(d, d', o) && d'.plane.injected == d.plane.injected + One(Injects(o))
    ensures Balanced(d', os + [o])
  {
    forall k { CountSnoc(os, o, k); }
  }

  lemma ConcludeBooks(d: Device, f: Frame, hit: Fault, e: TxEnv)
    requires PlaneOk(d.plane)
    ensures var (d', o) := Conclude(d, f, hit, e);
            Entry(d, d', o) && d'.plane == d.plane && (Injects(o) <==> !hit.NoFault?)
  {
  }

  lemma StepBalances(w: World, os: seq<TxOutcome>, a: Action)
    requires PlaneOk(w.dev.plane) && Balanced(w.dev, os)
    ensures Balanced(Step(w, a).dev, os + OutcomeOf(w, a))
  {
    if a.Send? && Enabled(w, a) {
      TransmitBalances(w.dev, os, a.frame, a.env);
    } else {
      assert os + [] == os;
    }
  }

  /** Between transmits, in every run: accepted frames are sent packets plus
      transmit errors, received frames are received packets, and injections are
      refusals plus failures, drops and tampered echoes. */
  lemma {:induction false} BooksBalance(run: seq<Action>)
    ensures Balanced(Exec(INIT, run).dev, Outcomes(INIT, run))
  {
    if run == [] {
    } else {
      var before := run[..|run| - 1];
      BooksBalance(before);
      StepBalances(Exec(INIT, before), Outcomes(INIT, before), run[|run| - 1]);
    }
  }

  /** The branch for a transmit in a terminal state is a guard no run takes. */
  lemma {:induction false} NoTransmitInTerminalState(run: seq<Action>)
    ensures TerminalDrop !in Outcomes(INIT, run)
  {
    if run == [] {
    } else {
      var before := run[..|run| - 1];
      NoTransmitInTerminalState(before);
      ReachableIsSafe(before);
    }
  }

  // ------------------------------------------------------------ armed window

  function EligibleCount(p: Plane, fs: seq<Frame>): nat {
    if fs == [] then 0
    else EligibleCount(p, fs[..|fs| - 1]) + if Eligible(p, fs[|fs| - 1]) then 1 else 0
  }

  /** The fault plane after a sequence of decisions. */
  function After(p: Plane, fs: seq<Frame>): Plane {
    if fs == [] then p else Decide(After(p, fs[..|fs| - 1]), fs[|fs| - 1]).plane
  }

  function Min(a: nat, b: nat): nat { if a < b then a else b }

  function Minus(a: nat, b: nat): nat { if a < b then 0 else a - b }

  /** With `e` eligible frames behind it, the plane has skipped the first ones,
      fired on the next and let the rest pass. */
  function Spent(p: Plane, e: nat): Plane {
    var hits := Min(Minus(e, p.after), p.count);
    p.(after := Minus(p.after, e),
       count := p.count - hits,
       seen := p.seen + Min(e, p.after + p.count),
       injected := p.injected + hits)
  }

  /** Closed form of any number of decisions on an armed plane: no counter runs
      below zero and none depends on the order of the other frames. */
  lemma {:induction false} WindowClosedForm(p: Plane, fs: seq<Frame>)
    requires p.count > 0
    ensures After(p, fs) == Spent(p, EligibleCount(p, fs))
  {
    if fs == [] {
    } else {
      var front, last := fs[..|fs| - 1], fs[|fs| - 1];
      WindowClosedForm(p, front);
      SpendOne(p, EligibleCount(p, front), last);
    }
  }

  lemma SpendOne(p: Plane, e: nat, f: Frame)
    requires p.count > 0
    ensures Decide(Spent(p, e), f).plane == Spent(p, e + if Eligible(p, f) then 1 else 0)
    ensures Decide(Spent(p, e), f).hit ==
            if Eligible(p, f) && p.after <= e < p.after + p.count then p.fault else NoFault
  {
    assert Eligible(Spent(p, e), f) == Eligible(p, f);
  }

  /** Exactly the eligible frames number after+1 to after+count are hit. */
  lemma HitsAreTheWindow(p: Plane, fs: seq<Frame>, i: nat)
    requires p.count > 0 && i < |fs|
    ensures var ordinal := EligibleCount(p, fs[..i]) + 1;
            Decide(After(p, fs[..i]), fs[i]).hit ==
            if Eligible(p, fs[i]) && p.after < ordinal <= p.after + p.count then p.fault else NoFault
  {
    WindowClosedForm(p, fs[..i]);
    SpendOne(p, EligibleCount(p, fs[..i]), fs[i]);
  }

  /** Frames that reach the fault plane during the run. */
  function Offered(w: World, run: seq<Action>): seq<Frame>
    requires PlaneOk(w.dev.plane)
  {
    if run == [] then []
    else
      var before, a := Exec(w, run[..|run| - 1]), run[|run| - 1];
      Offered(w, run[..|run| - 1]) + if Reaches(before, a) then [a.frame] else []
  }

  predicate Reaches(w: World, a: Action) {
    a.Send? && Enabled(w, a) && !a.env.coreDropped && !a.frame.id.error && !Terminal(w.dev.state)
  }

  /** The action does not re-arm the plane and does not restart out of bus-off. */
  predicate LeavesArmed(w: World, a: Action) {
    !a.WriteInject? && (a.WorkerCommit? || a.RequestCommit? ==> !w.dev.state.BusOff?)
  }

  predicate StaysArmed(w: World, run: seq<Action>)
    requires PlaneOk(w.dev.plane)
  {
    forall i | 0 <= i < |run| :: LeavesArmed(Exec(w, run[..i]), run[i])
  }

  lemma StepPlane(w: World, a: Action)
    requires PlaneOk(w.dev.plane) && LeavesArmed(w, a)
    ensures Step(w, a).dev.plane == if Reaches(w, a) then Decide(w.dev.plane, a.frame).plane else w.dev.plane
  {
    if a.Send? { TransmitPlane(w.dev, a.frame, a.env); }
  }

  lemma AfterSnoc(p: Plane, fs: seq<Frame>, f: Frame)
    ensures After(p, fs + [f]) == Decide(After(p, fs), f).plane
  {
    assert (fs + [f])[..|fs|] == fs;
  }

  lemma {:induction false} PlaneFollowsOffers(w: World, run: seq<Action>)
    requires PlaneOk(w.dev.plane) && StaysArmed(w, run)
    ensures Exec(w, run).dev.plane == After(w.dev.plane, Offered(w, run))
  {
    if run == [] {
    } else {
      var front, a := run[..|run| - 1], run[|run| - 1];
      assert forall i | 0 <= i < |front| :: front[..i] == run[..i];
      PlaneFollowsOffers(w, front);
      StepPlane(Exec(w, front), a);
      if Reaches(Exec(w, front), a) {
        AfterSnoc(w.dev.plane, Offered(w, front), a.frame);
      } else {
        assert Offered(w, front) + [] == Offered(w, front);
      }
    }
  }

  /** The fault a transmit suffered, read off its outcome. */
  function HitOf(o: TxOutcome): Fault {
    match o
    case Busy => TxFull
    case Errored(fault) => fault
    case Vanished => DropTx
    case Accepted(hit, _) => hit
    case _ => NoFault
  }

  lemma ConcludeShowsHit(d: Device, f: Frame, hit: Fault, e: TxEnv)
    requires PlaneOk(d.plane)
    ensures HitOf(Conclude(d, f, hit, e).1) == hit
  {
  }

  /** In any run after arming that neither re-arms nor restarts, the next frame that
      reaches the plane suffers the armed fault exactly when it is eligible frame
      number after+1 to after+count, and otherwise none; so its outcome shows. */
  lemma OutcomesAreTheWindow(w: World, s: Setting, run: seq<Action>, a: Action)
    requires PlaneOk(w.dev.plane) && SettingOk(s) && s.count > 0
    requires StaysArmed(Step(w, WriteInject(s)), run) && Reaches(Exec(Step(w, WriteInject(s)), run), a)
    ensures var armed := Step(w, WriteInject(s));
            var ordinal := EligibleCount(armed.dev.plane, Offered(armed, run)) + 1;
            var os := Outcomes(armed, run + [a]);
            && os == Outcomes(armed, run) + [os[|os| - 1]]
            && HitOf(os[|os| - 1]) ==
               if Eligible(armed.dev.plane, a.frame) && s.after < ordinal <= s.after + s.count then s.fault else NoFault
  {
    var armed := Step(w, WriteInject(s));
    var now, fs := Exec(armed, run), Offered(armed, run);
    assert (run + [a])[..|run|] == run;
    PlaneFollowsOffers(armed, run);
    var offers := fs + [a.frame];
    assert offers[..|fs|] == fs;
    HitsAreTheWindow(armed.dev.plane, offers, |fs|);
    ReachedShowsHit(now, a);
  }

  lemma ReachedShowsHit(w: World, a: Action)
    requires PlaneOk(w.dev.plane) && Reaches(w, a)
    ensures HitOf(Transmit(w.dev, a.frame, a.env).1) == Decide(w.dev.plane, a.frame).hit
  {
    var decision := Decide(w.dev.plane, a.frame);
    ConcludeShowsHit(w.dev.(plane := decision.plane), a.frame, decision.hit, a.env);
  }

  /** After arming with `count` shots and `after` skips, in any interleaving that
      neither re-arms nor restarts: with E eligible frames offered, the candidates
      are min(E, after + count), and what is left follows in closed form. */
  lemma ArmedWindow(w: World, s: Setting, run: seq<Action>)
    requires PlaneOk(w.dev.plane) && SettingOk(s) && s.count > 0
    requires StaysArmed(Step(w, WriteInject(s)), run)
    ensures var armed := Step(w, WriteInject(s));
            var p := Exec(armed, run).dev.plane;
            var E := EligibleCount(armed.dev.plane, Offered(armed, run));
            && p.seen == Min(E, s.after + s.count)
            && p.after == Minus(s.after, E)
            && p.count == s.count - Min(Minus(E, s.after), s.count)
            && p.injected == w.dev.plane.injected + Min(Minus(E, s.after), s.count)
  {
    var armed := Step(w, WriteInject(s));
    PlaneFollowsOffers(armed, run);
    WindowClosedForm(armed.dev.plane, Offered(armed, run));
  }

  // ------------------------------------------------------------------- retry

  /** The stack offers the same frame again while the driver answers busy. */
  function Retried(d: Device, f: Frame, es: seq<TxEnv>): (Device, seq<TxOutcome>)
    requires PlaneOk(d.plane)
    ensures PlaneOk(Retried(d, f, es).0.plane)
  {
    if es == [] then (d, [])
    else
      var (d', os) := Retried(d, f, es[..|es| - 1]);
      TransmitPlane(d', f, es[|es| - 1]);
      var (d'', o) := Transmit(d', f, es[|es| - 1]);
      (d'', os + [o])
  }

  predicate Offerable(d: Device, f: Frame, es: seq<TxEnv>) {
    !Terminal(d.state) && !f.id.error && forall e | e in es :: !e.coreDropped
  }

  lemma {:induction false} TxFullRefuses(d: Device, f: Frame, es: seq<TxEnv>)
    requires PlaneOk(d.plane) && Offerable(d, f, es)
    requires d.plane.fault.TxFull? && Eligible(d.plane, f) && d.plane.after == 0 && |es| <= d.plane.count
    ensures var (d', os) := Retried(d, f, es);
            && (forall o | o in os :: o.Busy?) && |os| == |es|
            && d'.state == d.state && d'.stat == d.stat && d'.link.txPackets == d.link.txPackets
            && d'.plane == d.plane.(count := d.plane.count - |es|, seen := d.plane.seen + |es|,
                                    injected := d.plane.injected + |es|)
  {
    if es == [] {
    } else {
      TxFullRefuses(d, f, es[..|es| - 1]);
    }
  }

  /** A frame retried under `tx-full` with c shots is refused exactly c times,
      then accepted and counted once. */
  lemma TxFullThenAccepted(d: Device, f: Frame, es: seq<TxEnv>)
    requires PlaneOk(d.plane) && Offerable(d, f, es)
    requires d.plane.fault.TxFull? && Eligible(d.plane, f) && d.plane.after == 0 && |es| == d.plane.count + 1
    ensures var (d', os) := Retried(d, f, es);
            && |os| == d.plane.count + 1
            && (forall i | 0 <= i < d.plane.count :: os[i].Busy?)
            && os[d.plane.count].Accepted? && os[d.plane.count].hit.NoFault?
            && d'.stat.tx == d.stat.tx + 1 && d'.link.txPackets == d.link.txPackets + 1
            && d'.plane.injected == d.plane.injected + d.plane.count
  {
    var front := es[..|es| - 1];
    TxFullRefuses(d, f, front);
    assert es[|es| - 1] in es;
  }

  // ---------------------------------------------------------------- bit flip

  /** A flipped echo differs from the frame in exactly the armed bit, and
      flipping again restores it. */
  lemma FlipIsOneBit(data: seq<bv8>, byte: nat, bit: nat)
    requires byte < |data| && bit < 8
    ensures Flip(data, byte, bit) != data
    ensures Flip(Flip(data, byte, bit), byte, bit) == data
    ensures forall i | 0 <= i < |data| && i != byte :: Flip(data, byte, bit)[i] == data[i]
    ensures Flip(data, byte, bit)[byte] ^ data[byte] == (1 as bv8) << bit
  {
    FlipByteTwice(data[byte], bit);
    assert Flip(data, byte, bit)[byte] == FlipByte(data[byte], bit);
  }

  /** The echo of an accepted frame, in any state: under a bit-flip it differs from
      the frame in exactly the armed bit, and otherwise it is the frame. */
  lemma EchoOfTransmit(d: Device, f: Frame, e: TxEnv)
    requires PlaneOk(d.plane) && Transmit(d, f, e).1.Accepted? && Transmit(d, f, e).1.delivery.Received?
    ensures var o, byte, bit := Transmit(d, f, e).1, d.plane.flipByte, d.plane.flipBit;
            var echo := o.delivery.data;
            if o.hit.BitFlip?
            then
              && |echo| == |f.data| && byte < |f.data| && echo[byte] ^ f.data[byte] == (1 as bv8) << bit
              && (forall i | 0 <= i < |echo| && i != byte :: echo[i] == f.data[i])
              && echo != f.data && Flip(echo, byte, bit) == f.data
            else echo == f.data
  {
    AcceptedDelivery(d, f, e);
    if Transmit(d, f, e).1.hit.BitFlip? { FlipIsOneBit(f.data, d.plane.flipByte, d.plane.flipBit); }
  }

  lemma AcceptedDelivery(d: Device, f: Frame, e: TxEnv)
    requires PlaneOk(d.plane) && Transmit(d, f, e).1.Accepted?
    ensures var o := Transmit(d, f, e).1;
            && o.delivery == DeliveryOf(d.plane, o.hit, f, e)
            && (o.hit.BitFlip? ==> d.plane.flipByte < |f.data|)
  {
    var decision := Decide(d.plane, f);
    ConcludeShowsHit(d.(plane := decision.plane), f, decision.hit, e);
  }

  /** The same of every transmit of every run. */
  lemma EchoesInRuns(run: seq<Action>, a: Action)
    requires var w := Exec(INIT, run);
             a.Send? && Enabled(w, a) && Transmit(w.dev, a.frame, a.env).1.Accepted?
             && Transmit(w.dev, a.frame, a.env).1.delivery.Received?
    ensures var w := Exec(INIT, run);
            var o := Transmit(w.dev, a.frame, a.env).1;
            && Outcomes(INIT, run + [a]) == Outcomes(INIT, run) + [o]
            && w.dev.plane.flipBit < 8
            && (o.hit.BitFlip? ==> o.delivery.data == Flip(a.frame.data, w.dev.plane.flipByte, w.dev.plane.flipBit)
                                   && o.delivery.data != a.frame.data)
            && (!o.hit.BitFlip? ==> o.delivery.data == a.frame.data)
  {
    var w := Exec(INIT, run);
    assert (run + [a])[..|run|] == run;
    EchoOfTransmit(w.dev, a.frame, a.env);
    FlipTwice(Transmit(w.dev, a.frame, a.env).1.delivery.data, w.dev.plane.flipByte, w.dev.plane.flipBit);
  }

  lemma FlipTwice(data: seq<bv8>, byte: nat, bit: nat)
    requires bit < 8
    ensures Flip(Flip(data, byte, bit), byte, bit) == data
  {
    if byte < |data| { FlipIsOneBit(data, byte, bit); }
  }

  lemma FlipByteTwice(x: bv8, bit: nat)
    requires bit < 8
    ensures FlipByte(x, bit) != x && FlipByte(FlipByte(x, bit), bit) == x
    ensures FlipByte(x, bit) ^ x == (1 as bv8) << bit
  {
    MaskIsSet(bit);
    XorTwice(x, (1 as bv8) << bit);
  }

  lemma XorTwice(x: bv8, mask: bv8)
    requires mask != 0
    ensures x ^ mask != x && (x ^ mask) ^ mask == x && (x ^ mask) ^ x == mask
  {
  }

  lemma MaskIsSet(bit: nat)
    requires bit < 8
    ensures (1 as bv8) << bit != 0
  {
    if bit == 0 {} else if bit == 1 {} else if bit == 2 {} else if bit == 3 {}
    else if bit == 4 {} else if bit == 5 {} else if bit == 6 {} else {}
  }
}
