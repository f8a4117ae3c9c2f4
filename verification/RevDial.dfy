/**
 * Reverse dialling. A Dial announces an identifier to the agent, waits on a channel stored under it, and the
 * agent calls back with that identifier on a fresh connection. Dials, callbacks, cancellations and closures
 * interleave freely. Channels carry no buffer, so handing a connection over is one step of both sides.
 */
module RevDial {
  /** A Dial call, named by the identifier it generated. */
  datatype Dial =
    | Announced(dialer: string)
    | Stored(dialer: string)
    | Waiting(dialer: string, channel: nat)
    | Returned(dialer: string, conn: nat)
    | Ended

  /** A connection that came in through the handler, with the tag the request carried. */
  datatype Callback =
    | Arrived(dialer: string, tag: string)
    | Offering(dialer: string, tag: string, channel: nat)
    | HandedOver(dialer: string, tag: string)
    | Dropped

  datatype Slot = Slot(dialer: string, id: string)

  datatype State = State(
    dialers: set<string>,
    incoming: map<Slot, nat>,
    dials: map<string, Dial>,
    conns: map<nat, Callback>,
    madeFor: map<nat, Slot>
  )

  const START := State({}, map[], map[], map[], map[])

  datatype Step =
    | Register(dialer: string)
    | Unregister(dialer: string)
    | Announce(id: string, dialer: string)
    | Store(id: string, channel: nat)
    | Load(id: string)
    | GiveUp(id: string)
    | Cleanup(id: string)
    | Arrive(conn: nat, dialer: string, tag: string)
    | FindChannel(conn: nat)
    | Abandon(conn: nat)
    | HandOver(conn: nat, id: string)

  /** Identifiers, connections and channels are fresh when made. */
  predicate Enabled(s: State, step: Step) {
    match step
    case Register(_) => true
    case Unregister(_) => true
    case Announce(id, _) => id !in s.dials
    case Store(id, channel) => id in s.dials && s.dials[id].Announced? && channel !in s.madeFor
    case Load(id) => id in s.dials && s.dials[id].Stored?
    case GiveUp(id) => id in s.dials && !s.dials[id].Returned? && !s.dials[id].Ended?
    case Cleanup(id) => id in s.dials && s.dials[id].Returned?
    case Arrive(conn, dialer, _) => conn !in s.conns && dialer in s.dialers
    case FindChannel(conn) => conn in s.conns && s.conns[conn].Arrived?
    case Abandon(conn) => conn in s.conns && s.conns[conn].Offering?
    case HandOver(conn, id) =>
      && conn in s.conns && s.conns[conn].Offering?
      && id in s.dials && s.dials[id].Waiting? && s.dials[id].channel == s.conns[conn].channel
  }

  function Apply(s: State, step: Step): State
    requires Enabled(s, step)
  {
    match step
    case Register(dialer) => s.(dialers := s.dialers + {dialer})
    case Unregister(dialer) => s.(dialers := s.dialers - {dialer})
    case Announce(id, dialer) => s.(dials := s.dials[id := Announced(dialer)])
    case Store(id, channel) =>
      var slot := Slot(s.dials[id].dialer, id);
      s.(incoming := s.incoming[slot := channel], madeFor := s.madeFor[channel := slot],
         dials := s.dials[id := Stored(slot.dialer)])
    case Load(id) =>
      var slot := Slot(s.dials[id].dialer, id);
      s.(dials := s.dials[id := if slot in s.incoming then Waiting(slot.dialer, s.incoming[slot]) else Ended])
    case GiveUp(id) =>
      s.(dials := s.dials[id := Ended], incoming := s.incoming - {Slot(s.dials[id].dialer, id)})
    case Cleanup(id) =>
      s.(incoming := s.incoming - {Slot(s.dials[id].dialer, id)})
    case Arrive(conn, dialer, tag) => s.(conns := s.conns[conn := Arrived(dialer, tag)])
    case FindChannel(conn) =>
      var slot := Slot(s.conns[conn].dialer, s.conns[conn].tag);
      s.(conns := s.conns[conn := if slot in s.incoming then Offering(slot.dialer, slot.id, s.incoming[slot]) else Dropped])
    case Abandon(conn) => s.(conns := s.conns[conn := Dropped])
    case HandOver(conn, id) =>
      s.(conns := s.conns[conn := HandedOver(s.conns[conn].dialer, s.conns[conn].tag)],
         dials := s.dials[id := Returned(s.dials[id].dialer, conn)])
  }

  function Run(s: State, steps: seq<Step>): State
    decreases |steps|
  {
    if steps == [] then s
    else Run(if Enabled(s, steps[0]) then Apply(s, steps[0]) else s, steps[1..])
  }

  predicate MadeFor(s: State, channel: nat, slot: Slot) {
    channel in s.madeFor && s.madeFor[channel] == slot
  }

  predicate DialSound(s: State, id: string, dial: Dial) {
    match dial
    case Waiting(dialer, channel) => MadeFor(s, channel, Slot(dialer, id))
    case Returned(dialer, conn) => conn in s.conns && s.conns[conn] == HandedOver(dialer, id)
    case _ => true
  }

  predicate CallbackSound(s: State, callback: Callback) {
    match callback
    case Offering(dialer, tag, channel) => MadeFor(s, channel, Slot(dialer, tag))
    case _ => true
  }

  ghost predicate Inv(s: State) {
    && (forall slot | slot in s.incoming :: MadeFor(s, s.incoming[slot], slot))
    && (forall id | id in s.dials :: DialSound(s, id, s.dials[id]))
    && (forall conn | conn in s.conns :: CallbackSound(s, s.conns[conn]))
  }

  /** Steps of a Dial before it gets a connection, and its clean-up. */
  predicate OfDial(step: Step) {
    step.Announce? || step.Store? || step.Load? || step.GiveUp? || step.Cleanup?
  }

  lemma DialStepKeepsInv(s: State, step: Step)
    requires Inv(s) && Enabled(s, step) && OfDial(step)
    ensures Inv(Apply(s, step))
  {
    var s' := Apply(s, step);
    assert forall id | id in s.dials :: DialSound(s, id, s.dials[id]);
    assert forall conn | conn in s'.conns :: CallbackSound(s', s'.conns[conn]);
  }

  lemma CallbackStepKeepsInv(s: State, step: Step)
    requires Inv(s) && Enabled(s, step) && (step.Arrive? || step.FindChannel? || step.Abandon?)
    ensures Inv(Apply(s, step))
  {
    var s' := Apply(s, step);
    assert forall id | id in s'.dials :: DialSound(s', id, s'.dials[id]);
  }

  /** Whoever waits on the channel a callback offers on waits for that callback's tag. */
  lemma HandOverKeepsInv(s: State, conn: nat, id: string)
    requires Inv(s) && Enabled(s, HandOver(conn, id))
    ensures Inv(Apply(s, HandOver(conn, id)))
  {
    var d, c := s.dials[id], s.conns[conn];
    assert DialSound(s, id, d) && CallbackSound(s, c);
    assert Slot(d.dialer, id) == Slot(c.dialer, c.tag);
    forall other | other in s.dials && s.dials[other].Returned?
      ensures s.dials[other].conn != conn
    {
      assert DialSound(s, other, s.dials[other]);
    }
  }

  lemma StepKeepsInv(s: State, step: Step)
    requires Inv(s) && Enabled(s, step)
    ensures Inv(Apply(s, step))
  {
    if OfDial(step) {
      DialStepKeepsInv(s, step);
    } else if step.HandOver? {
      HandOverKeepsInv(s, step.conn, step.id);
    } else if step.Register? || step.Unregister? {
      var s' := Apply(s, step);
      assert forall id | id in s'.dials :: DialSound(s', id, s'.dials[id]);
      assert forall conn | conn in s'.conns :: CallbackSound(s', s'.conns[conn]);
    } else {
      CallbackStepKeepsInv(s, step);
    }
  }

  lemma {:induction false} RunKeepsInv(s: State, steps: seq<Step>)
    requires Inv(s)
    ensures Inv(Run(s, steps))
    decreases |steps|
  {
    if steps != [] {
      if Enabled(s, steps[0]) {
        StepKeepsInv(s, steps[0]);
        RunKeepsInv(Apply(s, steps[0]), steps[1..]);
      } else {
        RunKeepsInv(s, steps[1..]);
      }
    }
  }

  /**
   * In every interleaving, a Dial returns only a connection that came back to its own dialer tagged with its
   * own identifier, and no connection is returned by two Dials.
   */
  lemma DialGetsItsOwnConnection(steps: seq<Step>, id: string, other: string)
    requires var s := Run(START, steps);
             id in s.dials && s.dials[id].Returned? && other in s.dials && s.dials[other].Returned?
    ensures var s := Run(START, steps);
            && s.dials[id].conn in s.conns
            && s.conns[s.dials[id].conn] == HandedOver(s.dials[id].dialer, id)
            && (s.dials[id].conn == s.dials[other].conn ==> id == other)
  {
    RunKeepsInv(START, steps);
  }

  /** What has been returned stays returned, so the two facts above hold over the whole run and not just at its end. */
  lemma {:induction false} ReturnedStays(s: State, steps: seq<Step>, id: string)
    requires id in s.dials && s.dials[id].Returned?
    ensures id in Run(s, steps).dials && Run(s, steps).dials[id] == s.dials[id]
    decreases |steps|
  {
    if steps != [] {
      ReturnedStays(if Enabled(s, steps[0]) then Apply(s, steps[0]) else s, steps[1..], id);
    }
  }

  // ---------------------------------------------------------------------------------------------
  // What each step achieves
  // ---------------------------------------------------------------------------------------------

  lemma RunPrepends(s: State, step: Step, rest: seq<Step>)
    requires Enabled(s, step)
    ensures Run(s, [step] + rest) == Run(Apply(s, step), rest)
  {
    assert ([step] + rest)[1..] == rest;
  }

  /** The steps of a Dial that the agent answers. */
  function AnsweredDial(id: string, channel: nat, conn: nat, dialer: string): seq<Step> {
    [Store(id, channel)] + ([Load(id)] + ([Arrive(conn, dialer, id)] + ([FindChannel(conn)] + [HandOver(conn, id)])))
  }

  /** An announced Dial whose agent calls back with its identifier gets that connection. */
  lemma AnsweredDialReturns(s: State, id: string, channel: nat, conn: nat)
    requires id in s.dials && s.dials[id].Announced? && s.dials[id].dialer in s.dialers
    requires channel !in s.madeFor && conn !in s.conns
    ensures var end := Run(s, AnsweredDial(id, channel, conn, s.dials[id].dialer));
            && end.dials == s.dials[id := Returned(s.dials[id].dialer, conn)]
            && end.conns == s.conns[conn := HandedOver(s.dials[id].dialer, id)]
  {
    var dialer := s.dials[id].dialer;
    var a := Apply(s, Store(id, channel));
    var b := Apply(a, Load(id));
    var c := Apply(b, Arrive(conn, dialer, id));
    var d := Apply(c, FindChannel(conn));
    assert [HandOver(conn, id)] == [HandOver(conn, id)] + [];
    RunPrepends(d, HandOver(conn, id), []);
    RunPrepends(c, FindChannel(conn), [HandOver(conn, id)]);
    RunPrepends(b, Arrive(conn, dialer, id), [FindChannel(conn)] + [HandOver(conn, id)]);
    RunPrepends(a, Load(id), [Arrive(conn, dialer, id)] + ([FindChannel(conn)] + [HandOver(conn, id)]));
    RunPrepends(s, Store(id, channel),
                [Load(id)] + ([Arrive(conn, dialer, id)] + ([FindChannel(conn)] + [HandOver(conn, id)])));
  }

  /** Once a Dial has given up or cleaned up, a connection that comes for it is dropped and kept waiting for nobody. */
  lemma LateCallbackIsDropped(s: State, step: Step, conn: nat)
    requires (step.GiveUp? || step.Cleanup?) && Enabled(s, step) && !s.dials[step.id].Ended?
    requires conn in s.conns && s.conns[conn] == Arrived(s.dials[step.id].dialer, step.id)
    ensures var s' := Apply(s, step);
            Enabled(s', FindChannel(conn)) && Apply(s', FindChannel(conn)).conns[conn] == Dropped
  {}

  /** Connections come in exactly for dialers that are registered. */
  lemma OnlyRegisteredDialersAreReached(s: State, dialer: string, conn: nat, tag: string)
    requires conn !in s.conns
    ensures Enabled(s, Arrive(conn, dialer, tag)) <==> dialer in s.dialers
    ensures Enabled(Apply(s, Register(dialer)), Arrive(conn, dialer, tag))
    ensures !Enabled(Apply(s, Unregister(dialer)), Arrive(conn, dialer, tag))
  {}

  /** A callback finds the channel stored under its dialer and tag exactly if there is one. */
  lemma CallbackFindsItsChannelIff(s: State, conn: nat)
    requires Enabled(s, FindChannel(conn))
    ensures var slot := Slot(s.conns[conn].dialer, s.conns[conn].tag);
            var c := Apply(s, FindChannel(conn)).conns[conn];
            if slot in s.incoming then c == Offering(slot.dialer, slot.id, s.incoming[slot]) else c == Dropped
  {}
}
