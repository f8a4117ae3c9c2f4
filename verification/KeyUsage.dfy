/**
 * Install-key uses under concurrency. Any number of enrolments run side by side, each in three steps that
 * others may interleave with: reserve a use (one guarded statement), try to accept the device (one
 * transaction), and give the use back if that failed. In between device rows may be created, rewritten and
 * dropped, people may set statuses, and keys may be edited: an edit reads the key, checks itself against
 * what it read, and later writes every field but the use count. Any call may stop for good after any step.
 */
module KeyUsage {
  import opened Prelude
  import opened InstallKeys
  import opened Devices
  import opened Enrollment

  datatype Phase = Reserved | Failed | Done

  datatype Enrolment = Enrolment(key: string, u: Uid, phase: Phase)

  /** An edit under way: the key and what was read of it. */
  datatype Edit = Edit(key: string, seen: InstallKey)

  /** base is how often each key had been used when the run began. */
  datatype State = State(r: Registry, base: map<string, nat>, running: map<nat, Enrolment>, edits: map<nat, Edit>)

  datatype Step =
    | Begin(id: nat, key: string, u: Uid)
    | TryAccept(id: nat, w: World)
    | GiveBack(id: nat)
    | SetStatus(u: Uid, st: Status, w: World)
    | WriteRow(u: Uid, d: Device)
    | DropRows(batch: set<Uid>)
    | ReadKey(id: nat, key: string)
    | WriteKey(id: nat, e: KeyEdit)

  ghost predicate Enabled(s: State, step: Step) {
    match step
    case Begin(id, key, u) => id !in s.running && key in s.r.keys && CanReserve(s.r, Some(key))
    case TryAccept(id, w) => id in s.running && s.running[id].phase == Reserved
    case GiveBack(id) => id in s.running && s.running[id].phase == Failed && s.running[id].key in s.r.keys
    case SetStatus(_, _, _) => true
    case WriteRow(_, _) => true
    case DropRows(_) => true
    case ReadKey(id, key) => id !in s.edits && key in s.r.keys
    case WriteKey(id, e) => id in s.edits && s.edits[id].key in s.r.keys && EditKey(s.edits[id].seen, e).Some?
  }

  /** The key as the edit leaves it: the fields it computed from what it read, and the count as it stands now. */
  function Rewritten(s: State, id: nat, e: KeyEdit): InstallKey
    requires id in s.edits && s.edits[id].key in s.r.keys && EditKey(s.edits[id].seen, e).Some?
  {
    EditKey(s.edits[id].seen, e).value.(usedTimes := s.r.keys[s.edits[id].key].usedTimes)
  }

  ghost function Apply(s: State, step: Step): State
    requires Enabled(s, step)
  {
    match step
    case Begin(id, key, u) =>
      s.(r := Reserve(s.r, Some(key)), running := s.running[id := Enrolment(key, u, Reserved)])
    case TryAccept(id, w) =>
      var e := s.running[id];
      var ok := StatusOutcome(s.r, e.u, Accepted, w) == Ok;
      s.(r := UpdateStatus(s.r, e.u, Accepted, w), running := s.running[id := e.(phase := if ok then Done else Failed)])
    case GiveBack(id) =>
      s.(r := Release(s.r, Some(s.running[id].key)), running := s.running - {id})
    case SetStatus(u, st, w) => s.(r := UpdateStatus(s.r, u, st, w))
    case WriteRow(u, d) => s.(r := s.r.(rows := s.r.rows[u := d]))
    case DropRows(batch) => s.(r := s.r.(rows := s.r.rows - batch))
    case ReadKey(id, key) => s.(edits := s.edits[id := Edit(key, s.r.keys[key])])
    case WriteKey(id, e) =>
      s.(r := s.r.(keys := s.r.keys[s.edits[id].key := Rewritten(s, id, e)]), edits := s.edits - {id})
  }

  /** A step that cannot be taken where it comes is skipped, so every sequence of steps is a run. */
  ghost function Run(s: State, steps: seq<Step>): State
    decreases |steps|
  {
    if steps == [] then s
    else Run(if Enabled(s, steps[0]) then Apply(s, steps[0]) else s, steps[1..])
  }

  // ---------------------------------------------------------------------------------------------
  // Uses are conserved
  // ---------------------------------------------------------------------------------------------

  function Holding(running: map<nat, Enrolment>, key: string): set<nat> {
    set id | id in running && running[id].key == key
  }

  function CompletedOn(running: map<nat, Enrolment>, key: string): set<nat> {
    set id | id in running && running[id].key == key && running[id].phase == Done
  }

  function InFlightOn(running: map<nat, Enrolment>, key: string): set<nat> {
    set id | id in running && running[id].key == key && running[id].phase != Done
  }

  /** Each key's count is what it was plus one for every enrolment that holds a use of it. */
  ghost predicate Balanced(keys: map<string, InstallKey>, base: map<string, nat>, running: map<nat, Enrolment>)
    requires base.Keys == keys.Keys
  {
    forall key | key in keys :: keys[key].usedTimes == base[key] + |Holding(running, key)|
  }

  ghost predicate Conserved(s: State) {
    && s.base.Keys == s.r.keys.Keys
    && (forall id | id in s.running :: s.running[id].key in s.r.keys)
    && Balanced(s.r.keys, s.base, s.running)
  }

  lemma HoldingOneMore(running: map<nat, Enrolment>, id: nat, e: Enrolment, key: string)
    requires id !in running
    ensures |Holding(running[id := e], key)| == |Holding(running, key)| + (if e.key == key then 1 else 0)
  {
    assert Holding(running[id := e], key) == Holding(running, key) + (if e.key == key then {id} else {});
  }

  lemma ReserveBalances(s: State, id: nat, e: Enrolment)
    requires Conserved(s) && id !in s.running && e.key in s.r.keys
    ensures Conserved(s.(r := Reserve(s.r, Some(e.key)), running := s.running[id := e]))
  {
    forall k { HoldingOneMore(s.running, id, e, k); }
  }

  lemma OneFewerBalances(keys: map<string, InstallKey>, base: map<string, nat>, rest: map<nat, Enrolment>, id: nat, e: Enrolment)
    requires base.Keys == keys.Keys && e.key in keys && id !in rest && Balanced(keys, base, rest[id := e])
    ensures keys[e.key].usedTimes >= 1
    ensures Balanced(keys[e.key := keys[e.key].(usedTimes := keys[e.key].usedTimes - 1)], base, rest)
  {
    HoldingOneMore(rest, id, e, e.key);
    forall k { HoldingOneMore(rest, id, e, k); }
  }

  lemma ReleaseBalances(s: State, id: nat, e: Enrolment, rest: map<nat, Enrolment>)
    requires Conserved(s) && id !in rest && s.running == rest[id := e] && e.key in s.r.keys
    ensures Conserved(s.(r := Release(s.r, Some(e.key)), running := rest))
  {
    OneFewerBalances(s.r.keys, s.base, rest, id, e);
    assert forall other | other in rest :: s.running[other] == rest[other];
  }

  lemma GiveBackBalances(s: State, id: nat)
    requires Conserved(s) && Enabled(s, GiveBack(id))
    ensures Conserved(Apply(s, GiveBack(id)))
  {
    var rest := s.running - {id};
    assert rest[id := s.running[id]] == s.running;
    ReleaseBalances(s, id, s.running[id], rest);
  }

  lemma TryAcceptBalances(s: State, id: nat, w: World)
    requires Conserved(s) && Enabled(s, TryAccept(id, w))
    ensures Conserved(Apply(s, TryAccept(id, w)))
  {
    assert forall key :: Holding(Apply(s, TryAccept(id, w)).running, key) == Holding(s.running, key);
  }

  lemma StepConserves(s: State, step: Step)
    requires Conserved(s) && Enabled(s, step)
    ensures Conserved(Apply(s, step)) && Apply(s, step).base == s.base
  {
    match step
    case Begin(id, key, u) => ReserveBalances(s, id, Enrolment(key, u, Reserved));
    case GiveBack(id) => GiveBackBalances(s, id);
    case TryAccept(id, w) => TryAcceptBalances(s, id, w);
    case _ =>
  }

  lemma {:induction false} RunConserves(s: State, steps: seq<Step>)
    requires Conserved(s)
    ensures Conserved(Run(s, steps)) && Run(s, steps).base == s.base
    decreases |steps|
  {
    if steps != [] {
      if Enabled(s, steps[0]) {
        StepConserves(s, steps[0]);
        RunConserves(Apply(s, steps[0]), steps[1..]);
      } else {
        RunConserves(s, steps[1..]);
      }
    }
  }

  /** The state a run begins in. */
  function Start(r: Registry): State {
    State(r, map k | k in r.keys :: r.keys[k].usedTimes, map[], map[])
  }

  lemma StartIsConserved(r: Registry)
    ensures Conserved(Start(r))
  {
    assert forall k :: Holding(Start(r).running, k) == {};
  }

  /**
   * In every interleaving, edits included, a key's use count is its earlier uses plus the accepts it completed
   * plus the reservations still in flight.
   */
  lemma UsesAreConserved(r: Registry, steps: seq<Step>, key: string)
    requires key in r.keys
    ensures var end := Run(Start(r), steps);
            && key in end.r.keys
            && end.r.keys[key].usedTimes
               == r.keys[key].usedTimes + |CompletedOn(end.running, key)| + |InFlightOn(end.running, key)|
  {
    StartIsConserved(r);
    RunConserves(Start(r), steps);
    var end := Run(Start(r), steps);
    assert Holding(end.running, key) == CompletedOn(end.running, key) + InFlightOn(end.running, key);
  }

  // ---------------------------------------------------------------------------------------------
  // What each step achieves
  // ---------------------------------------------------------------------------------------------

  /** An enrolment can begin exactly while the key has a use left, and then holds that use. */
  lemma ReservingTakesAUse(s: State, id: nat, key: string, u: Uid)
    requires id !in s.running && key in s.r.keys
    ensures Enabled(s, Begin(id, key, u)) <==> UseLeft(s.r.keys[key])
    ensures UseLeft(s.r.keys[key]) ==>
              var s' := Apply(s, Begin(id, key, u));
              && s'.r.keys == s.r.keys[key := s.r.keys[key].(usedTimes := s.r.keys[key].usedTimes + 1)]
              && s'.running == s.running[id := Enrolment(key, u, Reserved)] && s'.r.rows == s.r.rows
  {}

  /** The accept completes the enrolment exactly if there is a row that is not accepted and is acceptable. */
  lemma AcceptCompletesIff(s: State, id: nat, w: World)
    requires UniqueNames(s.r.rows) && Enabled(s, TryAccept(id, w))
    ensures var u := s.running[id].u;
            var s' := Apply(s, TryAccept(id, w));
            var can := && u in s.r.rows && s.r.rows[u].status != Accepted
                       && Acceptable(s.r, s.r.rows[u].mac, s.r.rows[u].name, w);
            && s'.running == s.running[id := s.running[id].(phase := if can then Done else Failed)]
            && (if can then IsAccepted(s'.r.rows, u) else s'.r == s.r)
  {
    var u := s.running[id].u;
    if u in s.r.rows && s.r.rows[u].status != Accepted {
      AcceptGoesThroughIff(s.r, u, w);
    }
  }

  /** An edit's write sets the fields it computed from what it read, on the count as it stands, and is over. */
  lemma EditLandsOnTheCurrentCount(s: State, id: nat, e: KeyEdit)
    requires Enabled(s, WriteKey(id, e))
    ensures var edit := s.edits[id];
            var s' := Apply(s, WriteKey(id, e));
            && s'.r.keys == s.r.keys[edit.key := EditKey(edit.seen, e).value.(usedTimes := s.r.keys[edit.key].usedTimes)]
            && s'.edits == s.edits - {id} && s'.r.rows == s.r.rows && s'.running == s.running
  {}

  lemma RunningHoldsAUse(s: State, id: nat)
    requires Conserved(s) && id in s.running
    ensures s.running[id].key in s.r.keys && s.r.keys[s.running[id].key].usedTimes >= 1
  {
    assert id in Holding(s.running, s.running[id].key);
  }

  /** Giving back ends the enrolment and frees its use. */
  lemma GivingBackFreesTheUse(s: State, id: nat)
    requires Conserved(s) && id in s.running && s.running[id].phase == Failed
    ensures Enabled(s, GiveBack(id))
    ensures var key := s.running[id].key;
            var s' := Apply(s, GiveBack(id));
            && s'.running == s.running - {id} && s'.r.rows == s.r.rows
            && s.r.keys[key].usedTimes > 0
            && s'.r.keys == s.r.keys[key := s.r.keys[key].(usedTimes := s.r.keys[key].usedTimes - 1)]
  {
    RunningHoldsAUse(s, id);
  }

  // ---------------------------------------------------------------------------------------------
  // Limits are respected
  // ---------------------------------------------------------------------------------------------

  predicate WithinLimit(k: InstallKey) {
    k.usageLimit > 0 ==> k.usedTimes <= k.usageLimit
  }

  ghost predicate WithinLimits(r: Registry) {
    forall key | key in r.keys :: WithinLimit(r.keys[key])
  }

  /** An edit lands with a limit the uses made so far fit in, and not only those made when it read the key. */
  ghost predicate Fitting(s: State, step: Step)
    requires Enabled(s, step)
  {
    step.WriteKey? ==>
      var limit := EditKey(s.edits[step.id].seen, step.e).value.usageLimit;
      limit > 0 ==> s.r.keys[s.edits[step.id].key].usedTimes <= limit
  }

  ghost predicate AllFitting(s: State, steps: seq<Step>)
    decreases |steps|
  {
    steps == [] ||
    (if Enabled(s, steps[0]) then Fitting(s, steps[0]) && AllFitting(Apply(s, steps[0]), steps[1..])
     else AllFitting(s, steps[1..]))
  }

  /** Every step respects the limits if and only if, should it be an edit, the uses made so far fit the new limit. */
  lemma StepRespectsLimitsIffFitting(s: State, step: Step)
    requires WithinLimits(s.r) && Enabled(s, step)
    ensures WithinLimits(Apply(s, step).r) <==> Fitting(s, step)
  {
    var r' := Apply(s, step).r;
    if step.WriteKey? {
      assert r'.keys[s.edits[step.id].key] == Rewritten(s, step.id, step.e);
    }
  }

  /** An edit fits if no use was reserved since it read the key, and the key was within its limit then. */
  lemma UndisturbedEditFits(s: State, id: nat, e: KeyEdit)
    requires Enabled(s, WriteKey(id, e)) && WithinLimit(s.edits[id].seen)
    requires s.r.keys[s.edits[id].key].usedTimes <= s.edits[id].seen.usedTimes
    ensures Fitting(s, WriteKey(id, e))
  {}

  lemma {:induction false} RunRespectsLimits(s: State, steps: seq<Step>)
    requires WithinLimits(s.r) && AllFitting(s, steps)
    ensures WithinLimits(Run(s, steps).r)
    decreases |steps|
  {
    if steps != [] {
      if Enabled(s, steps[0]) {
        StepRespectsLimitsIffFitting(s, steps[0]);
        RunRespectsLimits(Apply(s, steps[0]), steps[1..]);
      } else {
        RunRespectsLimits(s, steps[1..]);
      }
    }
  }

  /** In every interleaving whose edits fit, the uses before the run and the accepts in it are within the key's limit. */
  lemma AcceptsStayWithinTheLimit(r: Registry, steps: seq<Step>, key: string)
    requires key in r.keys && WithinLimits(r) && AllFitting(Start(r), steps)
    ensures var end := Run(Start(r), steps);
            && key in end.r.keys
            && (end.r.keys[key].usageLimit > 0 ==>
                  r.keys[key].usedTimes + |CompletedOn(end.running, key)| <= end.r.keys[key].usageLimit)
  {
    UsesAreConserved(r, steps, key);
    RunRespectsLimits(Start(r), steps);
  }

  /** A use reserved between an edit's read and its write can leave more uses than the new limit allows. */
  lemma RacingEditUndercutsAUse()
    ensures exists r: Registry, steps :: WithinLimits(r) && !WithinLimits(Run(Start(r), steps).r)
  {
    var k := InstallKey(Automatic, User, [], 0, 1, false, false, None);
    var r := Registry("t", map[], map["K" := k], None, None, 0, 0);
    var e := KeyEdit(None, None, None, None, Some(1), None, false, true);
    var s0 := Start(r);
    var s1 := Apply(s0, ReadKey(0, "K"));
    var s2 := Apply(s1, Begin(0, "K", Uid("m", "k", "t")));
    var s3 := Apply(s2, WriteKey(0, e));
    assert s3.r.keys["K"].usedTimes == 2 && s3.r.keys["K"].usageLimit == 1;
    var last := [WriteKey(0, e)];
    var two := [Begin(0, "K", Uid("m", "k", "t"))] + last;
    var all := [ReadKey(0, "K")] + two;
    assert last[1..] == [] && two[1..] == last && all[1..] == two;
    assert Run(s2, last) == s3;
    assert Run(s1, two) == s3;
    assert Run(s0, all) == s3;
  }
}
