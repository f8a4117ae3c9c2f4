/** Whole runs over one namespace: any sequence of the calls and jobs that write device rows. */
module DeviceRuns {
  import opened Prelude
  import opened InstallKeys
  import opened Devices
  import opened Enrollment

  /** Each call carries the outside answers it meets. The sweeps carry the rows the store's query returned. */
  datatype Op =
    | Auth(req: AuthRequest, w: World)
    | PairingAccept(req: AuthRequest, w: World, later: World)
    | SetStatus(u: Uid, st: Status, w: World)
    | Delete(u: Uid, now: int)
    | Rename(u: Uid, name: string)
    | UpdateName(u: Uid, name: string)
    | SweepRemoved(batch: set<Uid>, cutoff: int)
    | SweepEphemeral(batch: set<Uid>)
    | CreateKey(key: string, k: InstallKey)
    | EditKey(key: string, e: KeyEdit)

  /** Accepted rows are kept for audit and marked; every other row is dropped. */
  function DeleteDevice(r: Registry, u: Uid, now: int): Registry {
    if u !in r.rows then r
    else if r.rows[u].status == Accepted then
      r.(rows := r.rows[u := r.rows[u].(status := Removed, removedAt := Some(now))])
    else r.(rows := r.rows - {u})
  }

  /** RenameDevice looks for no conflict. */
  function RenameDevice(r: Registry, u: Uid, name: string): Registry {
    if u !in r.rows || EqualFold(r.rows[u].name, name) then r
    else r.(rows := r.rows[u := r.rows[u].(name := Lower(name))])
  }

  /** UpdateDevice refuses a name that an accepted row holds. */
  ghost function UpdateDeviceName(r: Registry, u: Uid, name: string): Registry {
    if u !in r.rows || name == "" || EqualFold(r.rows[u].name, name) then r
    else if Lower(name) != r.rows[u].name && exists v :: HoldsName(r.rows, v, Lower(name)) then r
    else r.(rows := r.rows[u := r.rows[u].(name := Lower(name))])
  }

  /** A new key starts unused; its digest is fresh. */
  function CreateInstallKey(r: Registry, key: string, k: InstallKey): Registry {
    if key in r.keys || k.keyType != User || k.usedTimes != 0 then r else r.(keys := r.keys[key := k])
  }

  function UpdateInstallKey(r: Registry, key: string, e: KeyEdit): Registry {
    if key !in r.keys || InstallKeys.EditKey(r.keys[key], e).None? then r
    else r.(keys := r.keys[key := InstallKeys.EditKey(r.keys[key], e).value])
  }

  /** Rows marked removed before the cutoff. */
  function Expired(rows: Rows, batch: set<Uid>, cutoff: int): set<Uid> {
    set u | u in batch && u in rows && rows[u].removedAt.Some? && rows[u].removedAt.value < cutoff
  }

  /** acceptPairingDevice: enrol through the pairing key, then accept; an already accepted device is fine. */
  ghost function AcceptPairing(r: Registry, req: AuthRequest, w: World, later: World): (Registry, bool) {
    var (r1, reply) := AuthDevice(r, req.(installKey := None), true, w);
    if reply.Refused? then (r1, false)
    else (UpdateStatus(r1, reply.uid, Accepted, later),
          StatusOutcome(r1, reply.uid, Accepted, later) in {Ok, AlreadyAccepted})
  }

  /** The counter of removed rows pays for the whole batch, so accepted rows in it stay counted. */
  function DropExpired(r: Registry, batch: set<Uid>, cutoff: int): Registry {
    var gone := Expired(r.rows, batch, cutoff);
    r.(rows := r.rows - gone, overcount := r.overcount + Share(r.rows, gone, Accepted))
  }

  ghost function Step(r: Registry, op: Op): Registry {
    match op
    case Auth(req, w) => AuthDevice(r, req, false, w).0
    case PairingAccept(req, w, later) => AcceptPairing(r, req, w, later).0
    case SetStatus(u, st, w) => UpdateStatus(r, u, st, w)
    case Delete(u, now) => DeleteDevice(r, u, now)
    case Rename(u, name) => RenameDevice(r, u, name)
    case UpdateName(u, name) => UpdateDeviceName(r, u, name)
    case SweepRemoved(batch, cutoff) => DropExpired(r, batch, cutoff)
    case SweepEphemeral(batch) => r.(rows := r.rows - batch)
    case CreateKey(key, k) => CreateInstallKey(r, key, k)
    case EditKey(key, e) => UpdateInstallKey(r, key, e)
  }

  // ---------------------------------------------------------------------------------------------
  // What each call achieves
  // ---------------------------------------------------------------------------------------------

  /** An accepted row is kept and marked, any other is gone, and no other row changes. */
  lemma DeletionTakesEffect(r: Registry, u: Uid, now: int, v: Uid)
    ensures var after := DeleteDevice(r, u, now).rows;
            && (u in after <==> IsAccepted(r.rows, u))
            && (u in after ==> after[u] == r.rows[u].(status := Removed, removedAt := Some(now)))
            && (v != u ==> (v in after <==> v in r.rows) && (v in after ==> after[v] == r.rows[v]))
  {}

  /** A rename always takes effect, up to case. */
  lemma RenameTakesEffect(r: Registry, u: Uid, name: string, v: Uid)
    requires u in r.rows
    ensures var after := RenameDevice(r, u, name).rows;
            && after.Keys == r.rows.Keys
            && Lower(after[u].name) == Lower(name) && after[u] == r.rows[u].(name := after[u].name)
            && (v != u && v in r.rows ==> after[v] == r.rows[v])
  {
    assert Lower(Lower(name)) == Lower(name);
  }

  /** UpdateDevice writes a new name exactly if it is one, up to case, and no accepted row holds it. */
  lemma UpdateNameTakesEffectIff(r: Registry, u: Uid, name: string)
    requires u in r.rows && Lower(r.rows[u].name) == r.rows[u].name
    ensures var r' := UpdateDeviceName(r, u, name);
            if name != "" && Lower(name) != r.rows[u].name && !NameTaken(r.rows, Lower(name))
            then r' == r.(rows := r.rows[u := r.rows[u].(name := Lower(name))])
            else r' == r
  {}

  /** The sweep of ephemeral devices drops exactly its batch. */
  lemma EphemeralSweepTakesEffect(r: Registry, batch: set<Uid>, v: Uid)
    ensures var after := Step(r, SweepEphemeral(batch)).rows;
            && (v in after <==> v in r.rows && v !in batch) && (v in after ==> after[v] == r.rows[v])
  {}

  /** The sweep of removed devices drops exactly the rows of its batch that were marked before the cutoff. */
  lemma SweepTakesEffect(r: Registry, batch: set<Uid>, cutoff: int, v: Uid)
    requires v in r.rows
    ensures var after := DropExpired(r, batch, cutoff).rows;
            && after.Keys <= r.rows.Keys && (v in after ==> after[v] == r.rows[v])
            && (v !in after <==> v in batch && r.rows[v].removedAt.Some? && r.rows[v].removedAt.value < cutoff)
  {}

  /** A fresh, unused user's key is there afterwards, and an edit that is not refused is carried out. */
  lemma KeyCallsTakeEffect(r: Registry, key: string, k: InstallKey, e: KeyEdit)
    ensures key !in r.keys && k.keyType == User && k.usedTimes == 0 ==>
              CreateInstallKey(r, key, k) == r.(keys := r.keys[key := k])
    ensures key in r.keys && InstallKeys.EditKey(r.keys[key], e).Some? ==>
              UpdateInstallKey(r, key, e) == r.(keys := r.keys[key := InstallKeys.EditKey(r.keys[key], e).value])
  {}

  /** A pairing succeeds exactly if the enrolment accepts the device or the accept that follows can. */
  lemma PairingSucceedsIff(r: Registry, req: AuthRequest, w: World, later: World)
    requires Core(r)
    ensures var (r1, reply) := AuthDevice(r, req.(installKey := None), true, w);
            AcceptPairing(r, req, w, later).1
            <==> && reply.Authenticated? && reply.uid in r1.rows
                 && (reply.status == Accepted
                     || Acceptable(r1, r1.rows[reply.uid].mac, r1.rows[reply.uid].name, later))
  {
    var first := req.(installKey := None);
    var (r1, reply) := AuthDevice(r, first, true, w);
    AuthSettles(r, first, true, w);
    AuthKeepsCore(r, first, true, w);
    if reply.Authenticated? && reply.status != Accepted {
      AcceptGoesThroughIff(r1, reply.uid, later);
    }
  }

  // ---------------------------------------------------------------------------------------------
  // Whole runs
  // ---------------------------------------------------------------------------------------------

  ghost function Run(r: Registry, ops: seq<Op>): Registry
    decreases |ops|
  {
    if ops == [] then r else Run(Step(r, ops[0]), ops[1..])
  }

  // ---------------------------------------------------------------------------------------------
  // What every run keeps
  // ---------------------------------------------------------------------------------------------

  /** The new name, if it is written at all, is held by no other accepted row. */
  ghost predicate RenameSafe(r: Registry, u: Uid, name: string) {
    IsAccepted(r.rows, u) && !EqualFold(r.rows[u].name, name) ==> NameFreeFor(r.rows, u, Lower(name))
  }

  /** The one call that needs care for the core: RenameDevice looks for no conflict itself. */
  ghost predicate Safe(r: Registry, op: Op) {
    op.Rename? ==> RenameSafe(r, op.u, op.name)
  }

  ghost predicate AllSafe(r: Registry, ops: seq<Op>)
    decreases |ops|
  {
    ops == [] || (Safe(r, ops[0]) && AllSafe(Step(r, ops[0]), ops[1..]))
  }

  lemma {:induction false} RenameKeepsNamesUniqueIffSafe(r: Registry, u: Uid, name: string)
    requires UniqueNames(r.rows)
    ensures UniqueNames(RenameDevice(r, u, name).rows) <==> RenameSafe(r, u, name)
  {
    var after := RenameDevice(r, u, name).rows;
    assert forall v :: IsAccepted(after, v) <==> IsAccepted(r.rows, v);
    if IsAccepted(r.rows, u) && !EqualFold(r.rows[u].name, name) {
      assert after[u].name == Lower(name);
      assert forall v | IsAccepted(after, v) && v != u :: after[v] == r.rows[v];
    }
  }

  /** A renaming that RenameDevice carries out and that leaves two accepted devices with one name. */
  lemma RenameCanDuplicateAName()
    ensures exists r: Registry, u, name :: Core(r) && Marked(r.rows) && !UniqueNames(RenameDevice(r, u, name).rows)
  {
    var u, v := Uid("m1", "k1", "t"), Uid("m2", "k2", "t");
    var rows := map[u := Device("a", "m1", Accepted, None, "", None), v := Device("b", "m2", Accepted, None, "", None)];
    var r := Registry("t", rows, map[], None, None, 0, 0);
    var after := RenameDevice(r, v, "a").rows;
    assert Lower("b")[0] != Lower("a")[0];
    assert Lower("a") == "a";
    assert IsAccepted(after, u) && IsAccepted(after, v) && after[u].name == after[v].name;
    assert Core(r) && Marked(rows);
  }

  lemma NamingKeepsCore(r: Registry, u: Uid, name: string)
    requires Core(r) && u in r.rows
    requires r.rows[u].status == Accepted ==> NameFreeFor(r.rows, u, name)
    ensures Core(r.(rows := r.rows[u := r.rows[u].(name := name)]))
  {
    WriteBackKeepsCore(r, u, r.rows[u].(name := name));
  }

  lemma UpdateNameKeepsCore(r: Registry, u: Uid, name: string)
    requires Core(r)
    ensures Core(UpdateDeviceName(r, u, name))
  {
    if UpdateDeviceName(r, u, name) != r {
      assert forall v | IsAccepted(r.rows, v) && r.rows[v].name == Lower(name) :: HoldsName(r.rows, v, Lower(name));
      NamingKeepsCore(r, u, Lower(name));
    }
  }

  lemma AcceptPairingKeepsCore(r: Registry, req: AuthRequest, w: World, later: World)
    requires Core(r)
    ensures Core(AcceptPairing(r, req, w, later).0)
  {
    var (r1, reply) := AuthDevice(r, req.(installKey := None), true, w);
    AuthKeepsCore(r, req.(installKey := None), true, w);
    if reply.Authenticated? {
      UpdateStatusKeepsCore(r1, reply.uid, Accepted, later);
    }
  }

  lemma StepKeepsCore(r: Registry, op: Op)
    requires Core(r) && Safe(r, op)
    ensures Core(Step(r, op))
  {
    match op
    case Auth(req, w) => AuthKeepsCore(r, req, false, w);
    case PairingAccept(req, w, later) => AcceptPairingKeepsCore(r, req, w, later);
    case SetStatus(u, st, w) => UpdateStatusKeepsCore(r, u, st, w);
    case Delete(_, _) => FewerAcceptedKeepsCore(r, Step(r, op));
    case Rename(u, name) =>
      if RenameDevice(r, u, name) != r { NamingKeepsCore(r, u, Lower(name)); }
    case UpdateName(u, name) => UpdateNameKeepsCore(r, u, name);
    case SweepRemoved(_, _) => FewerAcceptedKeepsCore(r, Step(r, op));
    case SweepEphemeral(_) => FewerAcceptedKeepsCore(r, Step(r, op));
    case CreateKey(_, _) =>
    case EditKey(_, _) =>
  }

  /**
   * In every run whose renames are safe, whatever statuses are set on whatever rows: accepted devices never
   * share a MAC and never share a name, the accepted rows never exceed the ceiling, and the counter the
   * ceiling is checked against never falls short of them.
   */
  lemma {:induction false} RunKeepsCore(r: Registry, ops: seq<Op>)
    requires Core(r) && AllSafe(r, ops)
    ensures Core(Run(r, ops))
    decreases |ops|
  {
    if ops != [] {
      StepKeepsCore(r, ops[0]);
      RunKeepsCore(Step(r, ops[0]), ops[1..]);
    }
  }

  // ---------------------------------------------------------------------------------------------
  // What careful runs keep
  // ---------------------------------------------------------------------------------------------

  /** Status updates keep off removed rows. The request validator already shuts out st == Removed. */
  ghost predicate Careful(r: Registry, op: Op) {
    op.SetStatus? ==> op.st != Removed && (op.u in r.rows ==> r.rows[op.u].status != Removed)
  }

  ghost predicate AllCareful(r: Registry, ops: seq<Op>)
    decreases |ops|
  {
    ops == [] || (Careful(r, ops[0]) && AllCareful(Step(r, ops[0]), ops[1..]))
  }

  lemma UpdateStatusKeepsMark(r: Registry, u: Uid, st: Status, w: World)
    requires Marked(r.rows) && st != Removed && (u in r.rows ==> r.rows[u].status != Removed)
    ensures Marked(UpdateStatus(r, u, st, w).rows)
  {
    if StatusOutcome(r, u, st, w) == Ok && st != r.rows[u].status {
      UpdateKeepsMarkIffNotRemoved(r, u, st, w);
    }
  }

  lemma AcceptPairingKeepsMark(r: Registry, req: AuthRequest, w: World, later: World)
    requires Marked(r.rows)
    ensures Marked(AcceptPairing(r, req, w, later).0.rows)
  {
    var (r1, reply) := AuthDevice(r, req.(installKey := None), true, w);
    AuthSettles(r, req.(installKey := None), true, w);
    if reply.Authenticated? {
      UpdateStatusKeepsMark(r1, reply.uid, Accepted, later);
    }
  }

  lemma StepKeepsMark(r: Registry, op: Op)
    requires Marked(r.rows) && Careful(r, op)
    ensures Marked(Step(r, op).rows)
  {
    match op
    case Auth(req, w) => AuthSettles(r, req, false, w);
    case PairingAccept(req, w, later) => AcceptPairingKeepsMark(r, req, w, later);
    case SetStatus(u, st, w) => UpdateStatusKeepsMark(r, u, st, w);
    case _ =>
  }

  /** In every run whose status updates keep off removed rows, removedAt is set on exactly the removed rows. */
  lemma {:induction false} RunKeepsMark(r: Registry, ops: seq<Op>)
    requires Marked(r.rows) && AllCareful(r, ops)
    ensures Marked(Run(r, ops).rows)
    decreases |ops|
  {
    if ops != [] {
      StepKeepsMark(r, ops[0]);
      RunKeepsMark(Step(r, ops[0]), ops[1..]);
    }
  }

  // ---------------------------------------------------------------------------------------------
  // Accepted is stable
  // ---------------------------------------------------------------------------------------------

  /** u's place was taken by a newly accepted row with the same MAC. */
  ghost predicate MergedAway(before: Rows, after: Rows, u: Uid)
    requires u in before
  {
    && u !in after
    && exists v :: IsAccepted(after, v) && !IsAccepted(before, v) && after[v].mac == before[u].mac
  }

  lemma AcceptedSurvivesTouch(before: Rows, after: Rows, u: Uid, v: Uid)
    requires UniqueMacs(before) && TouchesOnly(before, after, v) && IsAccepted(before, u) && u != v
    ensures (u in after && after[u] == before[u]) || MergedAway(before, after, u)
  {
    if u !in after {
      assert IsAccepted(after, v) && after[v].mac == before[u].mac;
    }
  }

  /**
   * An accepted device's own call changes nothing if and only if its row carries no removed mark, or the call
   * is refused for want of an identity, a host name or a key.
   */
  lemma OwnCallSparesAcceptedIff(r: Registry, req: AuthRequest, paired: bool, w: World)
    requires req.identity.Some? && IsAccepted(r.rows, UidOf(r, req))
    ensures AuthDevice(r, req, paired, w).0 == r
            <==> || r.rows[UidOf(r, req)].removedAt.None?
                 || Unidentified(req).Some?
                 || EnrollmentKey(r, req.installKey, paired, w.now).KeyRefused?
  {
    AuthSettles(r, req, paired, w);
  }

  /**
   * When an acceptance lasts: once a row has just been accepted, the device's next call disturbs it if and
   * only if the row was a removed one and the call is not refused.
   */
  lemma AcceptanceIsUndoneIffRowWasRemoved(r: Registry, u: Uid, w: World, req: AuthRequest, later: World)
    requires Marked(r.rows) && StatusOutcome(r, u, Accepted, w) == Ok
    requires req.identity.Some? && UidOf(r, req) == u
    ensures var accepted := UpdateStatus(r, u, Accepted, w);
            && IsAccepted(accepted.rows, u)
            && (AuthDevice(accepted, req, false, later).0 != accepted
                <==> && r.rows[u].status == Removed
                     && Unidentified(req).None?
                     && EnrollmentKey(r, req.installKey, false, later.now).KeyChosen?)
  {
    OwnCallSparesAcceptedIff(UpdateStatus(r, u, Accepted, w), req, false, later);
  }

  /** A run in which this happens: a removed row is accepted, and the device's next call makes it pending. */
  lemma AcceptingARemovedRowIsUndoneByItsNextCall()
    ensures exists r: Registry, u, w: World, req: AuthRequest ::
              && Core(r) && Marked(r.rows) && u in r.rows && r.rows[u].status == Removed
              && IsAccepted(UpdateStatus(r, u, Accepted, w).rows, u)
              && req.identity.Some? && UidOf(r, req) == u
              && !IsAccepted(AuthDevice(UpdateStatus(r, u, Accepted, w), req, false, w).0.rows, u)
  {
    var u := Uid("m", "k", "t");
    var w := World(0, WebhookFailed, true, false, false, false, NoEvaluator);
    var r := Registry("t", map[u := Device("a", "m", Removed, Some(0), "", None)], map[], None, None, 0, 0);
    var req := AuthRequest(Some("m"), "a", "k", None);
    assert InStatus(r.rows, Accepted) == {};
    assert Core(r) && Marked(r.rows);
    var r1 := UpdateStatus(r, u, Accepted, w);
    assert r1 == r.(rows := map[u := Device("a", "m", Accepted, Some(0), "", None)]);
    var r2 := AuthDevice(r1, req, false, w).0;
    assert r2.rows[u].status == Pending;
  }

  /** Another device's call leaves an accepted row alone or merges it. */
  lemma EnrolmentSparesAccepted(r: Registry, u: Uid, req: AuthRequest, paired: bool, w: World)
    requires UniqueMacs(r.rows) && IsAccepted(r.rows, u)
    requires req.identity.Some? && UidOf(r, req) == u ==> r.rows[u].removedAt.None?
    ensures var after := AuthDevice(r, req, paired, w).0.rows;
            (u in after && after[u] == r.rows[u]) || MergedAway(r.rows, after, u)
  {
    var (r', reply) := AuthDevice(r, req, paired, w);
    AuthSettles(r, req, paired, w);
    if reply.Authenticated? {
      if reply.uid == u {
        OwnCallSparesAcceptedIff(r, req, paired, w);
      } else {
        AcceptedSurvivesTouch(r.rows, r'.rows, u, reply.uid);
      }
    }
  }

  /** A pairing touches other rows only as one enrolment does, and leaves its own row unmarked. */
  lemma PairingTouches(r: Registry, req: AuthRequest, w: World, later: World)
    requires AuthDevice(r, req.(installKey := None), true, w).1.Authenticated?
    ensures req.identity.Some?
    ensures var r' := AcceptPairing(r, req, w, later).0;
            && r'.tenant == r.tenant && TouchesOnly(r.rows, r'.rows, UidOf(r, req))
            && r'.rows[UidOf(r, req)].removedAt.None?
  {
    var first := req.(installKey := None);
    var (r1, reply) := AuthDevice(r, first, true, w);
    AuthSettles(r, first, true, w);
    UpdateStatusTouches(r1, reply.uid, Accepted, later);
  }

  lemma PairingSparesAccepted(r: Registry, u: Uid, req: AuthRequest, w: World, later: World)
    requires UniqueMacs(r.rows) && IsAccepted(r.rows, u)
    requires req.identity.Some? && UidOf(r, req) == u ==> r.rows[u].removedAt.None?
    ensures var after := AcceptPairing(r, req, w, later).0.rows;
            (u in after && after[u] == r.rows[u]) || MergedAway(r.rows, after, u)
  {
    var first := req.(installKey := None);
    AuthSettles(r, first, true, w);
    if AuthDevice(r, first, true, w).1.Authenticated? {
      PairingTouches(r, req, w, later);
      if UidOf(r, req) == u {
        OwnCallSparesAcceptedIff(r, first, true, w);
      } else {
        AcceptedSurvivesTouch(r.rows, AcceptPairing(r, req, w, later).0.rows, u, UidOf(r, req));
      }
    }
  }

  /** The device itself calls in, or the sweep of removed rows has it in its batch. */
  predicate TakenForRemoved(r: Registry, op: Op, u: Uid) {
    match op
    case Auth(req, _) => req.identity.Some? && UidOf(r, req) == u
    case PairingAccept(req, _, _) => req.identity.Some? && UidOf(r, req) == u
    case SweepRemoved(batch, _) => u in batch
    case _ => false
  }

  /**
   * An accepted device leaves that status only when it is deleted, swept as an expired ephemeral device, or
   * merged into a newly accepted row with its MAC, or when its row carries a removed mark, which careful runs
   * never leave on it, and is then taken for a removed one.
   */
  lemma AcceptedIsStable(r: Registry, op: Op, u: Uid)
    requires UniqueMacs(r.rows) && IsAccepted(r.rows, u)
    ensures || IsAccepted(Step(r, op).rows, u)
            || (op.Delete? && op.u == u)
            || (op.SweepEphemeral? && u in op.batch)
            || ((op.Auth? || op.PairingAccept? || op.SetStatus?) && MergedAway(r.rows, Step(r, op).rows, u))
            || (r.rows[u].removedAt.Some? && TakenForRemoved(r, op, u))
  {
    if !(r.rows[u].removedAt.Some? && TakenForRemoved(r, op, u)) {
      match op
      case Auth(req, w) => EnrolmentSparesAccepted(r, u, req, false, w);
      case PairingAccept(req, w, later) => PairingSparesAccepted(r, u, req, w, later);
      case SetStatus(v, st, w) =>
        if v in r.rows && v != u {
          UpdateStatusTouches(r, v, st, w);
          AcceptedSurvivesTouch(r.rows, Step(r, op).rows, u, v);
        }
      case _ =>
    }
  }

  /** A reconnect moves only a pending row, and only if its stored key is still valid and may be retried. */
  lemma ReconnectMovesOnlyReconcilable(r: Registry, req: AuthRequest, paired: bool, w: World)
    requires req.identity.Some? && !Enrolling(r, UidOf(r, req))
    ensures var u := UidOf(r, req);
            var after := AuthDevice(r, req, paired, w).0.rows;
            && u in after
            && (after[u].status != r.rows[u].status ==>
                  && r.rows[u].status == Pending && after[u].status in {Accepted, Rejected}
                  && r.rows[u].keyId in r.keys && r.keys[r.rows[u].keyId].IsValid(w.now)
                  && r.keys[r.rows[u].keyId].mode in {Webhook, Allowlist})
  {
    var u := UidOf(r, req);
    AuthSettles(r, req, paired, w);
    if r.rows[u].status == Pending && Reconcilable(r, r.rows[u], w.now) {
      ReconcileSettles(r, u, w);
    }
  }

  // ---------------------------------------------------------------------------------------------
  // Pairing and self-authentication agree
  // ---------------------------------------------------------------------------------------------

  lemma AcceptPairingAccepts(r: Registry, req: AuthRequest, w: World, later: World)
    requires AcceptPairing(r, req, w, later).1
    ensures req.identity.Some?
    ensures var r' := AcceptPairing(r, req, w, later).0;
            && r'.tenant == r.tenant && IsAccepted(r'.rows, UidOf(r, req))
            && r'.rows[UidOf(r, req)].removedAt.None?
  {
    var (r1, reply) := AuthDevice(r, req.(installKey := None), true, w);
    AuthSettles(r, req.(installKey := None), true, w);
    AcceptingAccepts(r1, reply.uid, later);
  }

  /**
   * After a successful pairing the device's row is accepted, and the agent's own later call, with the same
   * identity and public key but any host name and install key, resolves to that row and changes nothing.
   */
  lemma PairedDeviceAuthenticatesAsItself(r: Registry, req: AuthRequest, w: World, later: World,
                                          own: AuthRequest, ownWorld: World)
    requires AcceptPairing(r, req, w, later).1
    requires own.identity == req.identity && own.publicKey == req.publicKey
    ensures req.identity.Some?
    ensures var r' := AcceptPairing(r, req, w, later).0;
            && IsAccepted(r'.rows, UidOf(r, req))
            && UidOf(r', own) == UidOf(r, req)
            && AuthDevice(r', own, false, ownWorld).0 == r'
            && (Unidentified(own).None? ==>
                  AuthDevice(r', own, false, ownWorld).1
                  == Authenticated(UidOf(r, req), r'.rows[UidOf(r, req)].name, Accepted))
  {
    AcceptPairingAccepts(r, req, w, later);
    OwnCallSparesAcceptedIff(AcceptPairing(r, req, w, later).0, own, false, ownWorld);
  }

  // ---------------------------------------------------------------------------------------------
  // Who gets accepted, and what it costs
  // ---------------------------------------------------------------------------------------------

  /** One more use of k and no other change to the keys. */
  predicate SpendsOne(before: map<string, InstallKey>, after: map<string, InstallKey>, k: string) {
    k in before && after == before[k := before[k].(usedTimes := before[k].usedTimes + 1)]
  }

  /** A pending row was settled to st under key k: accepted only by its policy, for one use that it had room for. */
  ghost predicate FairlySettled(r: Registry, r': Registry, k: Option<string>, mac: string, w: World, paired: bool, st: Status)
    requires KnownKey(r, k)
  {
    && (st == Accepted ==> k.Some? && Admits(r.keys[k.value], mac, w.webhook, paired) && r.keys[k.value].HasRoom()
                           && SpendsOne(r.keys, r'.keys, k.value))
    && (st == Rejected ==> k.Some? && !paired && TurnsAway(r.keys[k.value], mac, w.webhook))
    && (st != Accepted ==> r'.keys == r.keys)
  }

  lemma ApplyIsFair(r: Registry, k: Option<string>, u: Uid, paired: bool, w: World)
    requires KnownKey(r, k) && u in r.rows && r.rows[u].status == Pending
    ensures var decision := EvaluateEnrollment(KeyOf(r, k), u.mac, w.webhook, paired);
            var (r', st) := ApplyDecision(r, decision, k, u, w);
            FairlySettled(r, r', k, u.mac, w, paired, st)
  {
    var decision := EvaluateEnrollment(KeyOf(r, k), u.mac, w.webhook, paired);
    ApplyDecisionSpendsOneUsePerAccept(r, decision, k, u, w);
  }

  /** The key whose policy decides: the one chosen for an enrolment, or the one a known device enrolled with. */
  function DecidingKey(r: Registry, req: AuthRequest, paired: bool, now: int): Option<string>
    requires req.identity.Some?
  {
    var u := UidOf(r, req);
    if !Enrolling(r, u) then Some(r.rows[u].keyId)
    else match EnrollmentKey(r, req.installKey, paired, now)
      case KeyRefused(_) => None
      case KeyChosen(id) => id
  }

  /**
   * Whenever an agent's call gets a device accepted, the deciding key's policy admits the device, that key
   * had room, and exactly one use of it was spent. The key was valid unless it is the pairing key of a
   * pairing, and it is the presented key if one was presented. A device is rejected only if the deciding
   * key's policy turns it away. Unless a device was accepted, no key changes.
   */
  lemma AcceptanceSpendsAnAdmittingKey(r: Registry, req: AuthRequest, paired: bool, w: World)
    requires req.identity.Some?
    ensures var u := UidOf(r, req);
            var (r', reply) := AuthDevice(r, req, paired, w);
            var enrolling, k := Enrolling(r, u), DecidingKey(r, req, paired, w.now);
            var moved := reply.Authenticated? && (enrolling || r.rows[u].status != reply.status);
            && (moved && reply.status == Accepted ==>
                  && k.Some? && SpendsOne(r.keys, r'.keys, k.value) && r.keys[k.value].HasRoom()
                  && Admits(r.keys[k.value], u.mac, w.webhook, paired && enrolling)
                  && (r.keys[k.value].IsValid(w.now) || (enrolling && paired && k == r.pairingKey))
                  && (enrolling && req.installKey.Some? ==> k == req.installKey && !r.keys[k.value].IsSystem()))
            && (moved && reply.status == Rejected ==>
                  k.Some? && k.value in r.keys && TurnsAway(r.keys[k.value], u.mac, w.webhook))
            && (!(moved && reply.status == Accepted) ==> r'.keys == r.keys)
  {
    var u := UidOf(r, req);
    var choice := EnrollmentKey(r, req.installKey, paired, w.now);
    if Unidentified(req).None? {
      if u !in r.rows {
        if choice.KeyChosen? {
          var d := NewDevice(Lower(DeviceHostname(req.hostname, req.identity.value)), u.mac, choice.id);
          ApplyIsFair(r.(rows := r.rows[u := d]), choice.id, u, paired, w);
        }
      } else if r.rows[u].removedAt.Some? {
        if choice.KeyChosen? {
          ApplyIsFair(WithPending(r, u, BackToPending(r.rows[u], choice.id)), choice.id, u, paired, w);
        }
      } else if r.rows[u].status == Pending && Reconcilable(r, r.rows[u], w.now) {
        ApplyIsFair(r, Some(r.rows[u].keyId), u, false, w);
      }
    }
  }

  /** A user's key that has been revoked. */
  predicate Revoked(r: Registry, key: string) {
    key in r.keys && r.keys[key].keyType == User && r.keys[key].revoked && r.pairingKey != Some(key)
  }

  lemma AuthSparesRevokedKey(r: Registry, req: AuthRequest, paired: bool, w: World, key: string)
    requires Revoked(r, key)
    ensures var r' := AuthDevice(r, req, paired, w).0;
            Revoked(r', key) && r'.keys[key] == r.keys[key] && r'.pairingKey == r.pairingKey
  {
    if req.identity.Some? {
      AcceptanceSpendsAnAdmittingKey(r, req, paired, w);
      AuthSettles(r, req, paired, w);
    }
  }

  lemma {:induction false} StepSparesRevokedKey(r: Registry, op: Op, key: string)
    requires Revoked(r, key)
    ensures Revoked(Step(r, op), key) && Step(r, op).keys[key] == r.keys[key]
  {
    match op
    case Auth(req, w) => AuthSparesRevokedKey(r, req, false, w, key);
    case PairingAccept(req, w, _) => AuthSparesRevokedKey(r, req.(installKey := None), true, w, key);
    case _ =>
  }

  /** Revocation is final: over every run a revoked key is neither edited nor used again. */
  lemma {:induction false} RevokedKeyIsNeverUsedAgain(r: Registry, ops: seq<Op>, key: string)
    requires Revoked(r, key)
    ensures key in Run(r, ops).keys && Run(r, ops).keys[key] == r.keys[key]
    decreases |ops|
  {
    if ops != [] {
      StepSparesRevokedKey(r, ops[0], key);
      RevokedKeyIsNeverUsedAgain(Step(r, ops[0]), ops[1..], key);
    }
  }

  /** A deleted device that calls again comes back as the same row, under its old name; no second row appears. */
  lemma DeletedDeviceReturnsAsItself(r: Registry, u: Uid, now: int, req: AuthRequest, w: World)
    requires IsAccepted(r.rows, u) && req.identity.Some? && UidOf(r, req) == u
    ensures var gone := DeleteDevice(r, u, now);
            var (back, reply) := AuthDevice(gone, req, false, w);
            && u in gone.rows && gone.rows[u].status == Removed
            && back.rows.Keys <= r.rows.Keys && u in back.rows
            && back.rows[u].name == r.rows[u].name && back.rows[u].mac == r.rows[u].mac
            && (reply.Refused? ==> back == gone)
            && (reply.Authenticated? ==> back.rows[u].status == reply.status && back.rows[u].removedAt.None?)
  {
    var gone := DeleteDevice(r, u, now);
    AuthSettles(gone, req, false, w);
    var (back, reply) := AuthDevice(gone, req, false, w);
    if reply.Authenticated? {
      ReRegisterSettles(gone, u, EnrollmentKey(gone, req.installKey, false, w.now).id, false, w);
      assert forall v | v in back.rows :: v in gone.rows;
    }
  }
}
