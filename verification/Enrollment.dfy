/**
 * AuthDevice: enrolling a new device, re-registering a removed one and reconciling a pending one, with the
 * choice of install key and the uses it spends.
 */
module Enrollment {
  import opened Prelude
  import opened InstallKeys
  import opened Devices

  /** identity is the MAC, absent when the agent sent no identity; installKey is the presented key's digest. */
  datatype AuthRequest = AuthRequest(
    identity: Option<string>,
    hostname: string,
    publicKey: string,
    installKey: Option<string>
  )

  datatype AuthError = NoIdentity | NoIdentityAndHostname | InvalidKey | KeyRequired

  datatype AuthReply = Refused(error: AuthError) | Authenticated(uid: Uid, name: string, status: Status)

  function DeviceHostname(hostname: string, mac: string): string {
    if hostname != "" then hostname else ReplaceChar(mac, ':', '-')
  }

  // ---------------------------------------------------------------------------------------------
  // Choosing the key and applying its decision
  // ---------------------------------------------------------------------------------------------

  datatype KeyChoice = KeyRefused(error: AuthError) | KeyChosen(id: Option<string>)

  function SystemKey(r: Registry, id: Option<string>): Option<string> {
    if id.Some? && id.value in r.keys then id else None
  }

  function EnrollmentKey(r: Registry, presented: Option<string>, paired: bool, now: int): KeyChoice {
    if presented.Some? then
      if presented.value !in r.keys || r.keys[presented.value].IsSystem() || !r.keys[presented.value].IsValid(now)
      then KeyRefused(InvalidKey)
      else KeyChosen(presented)
    else if paired then KeyChosen(SystemKey(r, r.pairingKey))
    else
      var legacy := SystemKey(r, r.legacyKey);
      if legacy.Some? && !r.keys[legacy.value].IsValid(now) then KeyRefused(KeyRequired) else KeyChosen(legacy)
  }

  predicate KnownKey(r: Registry, k: Option<string>) {
    k.Some? ==> k.value in r.keys
  }

  function KeyOf(r: Registry, k: Option<string>): Option<InstallKey>
    requires KnownKey(r, k)
  {
    if k.Some? then Some(r.keys[k.value]) else None
  }

  function Digest(k: Option<string>): string {
    if k.Some? then k.value else ""
  }

  /** The store's guarded increment and its inverse. */
  function Reserve(r: Registry, k: Option<string>): Registry
    requires KnownKey(r, k)
  {
    if k.None? then r else r.(keys := r.keys[k.value := r.keys[k.value].(usedTimes := r.keys[k.value].usedTimes + 1)])
  }

  function Release(r: Registry, k: Option<string>): Registry
    requires KnownKey(r, k)
  {
    if k.None? || r.keys[k.value].usedTimes == 0 then r
    else r.(keys := r.keys[k.value := r.keys[k.value].(usedTimes := r.keys[k.value].usedTimes - 1)])
  }

  predicate CanReserve(r: Registry, k: Option<string>)
    requires KnownKey(r, k)
  {
    k.Some? ==> r.keys[k.value].HasRoom()
  }

  ghost function ApplyDecision(r: Registry, decision: Decision, k: Option<string>, u: Uid, w: World): (Registry, Status)
    requires KnownKey(r, k)
  {
    match decision
    case Accept =>
      if !CanReserve(r, k) then (r, Pending)
      else
        var reserved := Reserve(r, k);
        if StatusOutcome(reserved, u, Accepted, w) == Ok then (UpdateStatus(reserved, u, Accepted, w), Accepted)
        else (Release(reserved, k), Pending)
    case Reject =>
      if StatusOutcome(r, u, Rejected, w) == Ok then (UpdateStatus(r, u, Rejected, w), Rejected) else (r, Pending)
    case LeavePending => (r, Pending)
  }

  lemma ReleaseUndoesReserve(r: Registry, k: Option<string>)
    requires KnownKey(r, k)
    ensures Release(Reserve(r, k), k) == r
  {
    if k.Some? {
      assert Release(Reserve(r, k), k).keys == r.keys;
    }
  }

  /**
   * Applying a decision to a pending row moves it to the status returned and changes nothing else about it
   * but its name, touches no other row but a merged one, and spends exactly one use of the key when, and only
   * when, it accepts.
   */
  lemma ApplyDecisionSpendsOneUsePerAccept(r: Registry, decision: Decision, k: Option<string>, u: Uid, w: World)
    requires KnownKey(r, k) && u in r.rows && r.rows[u].status == Pending
    ensures var (r', st) := ApplyDecision(r, decision, k, u, w);
            && TouchesOnly(r.rows, r'.rows, u)
            && r'.rows[u] == r.rows[u].(status := st, name := r'.rows[u].name)
            && r' == (if st == Accepted then Reserve(r, k) else r).(rows := r'.rows)
            && (st == Accepted ==> decision == Accept && CanReserve(r, k))
            && (st == Rejected ==> decision == Reject)
            && (st == Pending ==> r' == r) && st != Removed
  {
    ReleaseUndoesReserve(r, k);
    UpdateStatusTouches(Reserve(r, k), u, Accepted, w);
    UpdateStatusTouches(r, u, Rejected, w);
  }

  /** It also keeps the core, and leaves free the name an accepted row had beforehand. */
  lemma ApplyDecisionKeepsCore(r: Registry, decision: Decision, k: Option<string>, u: Uid, w: World)
    requires Core(r) && KnownKey(r, k) && u in r.rows && r.rows[u].status == Pending
    ensures var (r', st) := ApplyDecision(r, decision, k, u, w);
            Core(r') && (st == Accepted ==> NameFreeFor(r'.rows, u, r.rows[u].name))
  {
    var reserved := Reserve(r, k);
    ReleaseUndoesReserve(r, k);
    assert Core(reserved);
    if decision == Accept && CanReserve(r, k) && StatusOutcome(reserved, u, Accepted, w) == Ok {
      UpdateStatusKeepsCore(reserved, u, Accepted, w);
      AcceptKeepsUnique(reserved, u, w);
    } else if decision == Reject {
      UpdateStatusKeepsCore(r, u, Rejected, w);
    }
  }

  // ---------------------------------------------------------------------------------------------
  // AuthDevice
  // ---------------------------------------------------------------------------------------------

  function NewDevice(name: string, mac: string, k: Option<string>): Device {
    Device(name, mac, Pending, None, Digest(k), None)
  }

  ghost function Enrol(r: Registry, u: Uid, name: string, k: Option<string>, paired: bool, w: World): (Registry, Status)
    requires KnownKey(r, k)
  {
    var created := r.(rows := r.rows[u := NewDevice(name, u.mac, k)]);
    ApplyDecision(created, EvaluateEnrollment(KeyOf(r, k), u.mac, w.webhook, paired), k, u, w)
  }

  /**
   * Applies a decision to the stored row and then writes the caller's copy of the device back over it,
   * with the resulting status and with the name the caller read before the decision.
   */
  ghost function Settle(r: Registry, u: Uid, d: Device, decision: Decision, k: Option<string>, w: World): (Registry, Status)
    requires KnownKey(r, k)
  {
    var (r', st) := ApplyDecision(r, decision, k, u, w);
    (r'.(rows := r'.rows[u := d.(status := st)]), st)
  }

  function BackToPending(d: Device, k: Option<string>): Device {
    d.(removedAt := None, status := Pending, keyId := Digest(k))
  }

  /**
   * The registry with a row written as pending. The counters are told that a removed row became pending, so
   * if the row was in truth accepted, the accepted counter keeps a unit too many.
   */
  function WithPending(r: Registry, u: Uid, d: Device): Registry {
    r.(rows := r.rows[u := d], overcount := r.overcount + One(IsAccepted(r.rows, u)))
  }

  ghost function ReRegister(r: Registry, u: Uid, k: Option<string>, paired: bool, w: World): (Registry, Status)
    requires KnownKey(r, k) && u in r.rows
  {
    var d := BackToPending(r.rows[u], k);
    Settle(WithPending(r, u, d), u, d, EvaluateEnrollment(KeyOf(r, k), u.mac, w.webhook, paired), k, w)
  }

  predicate Reconcilable(r: Registry, d: Device, now: int) {
    && d.keyId != ""
    && (d.lastAttempt.Some? ==> now - d.lastAttempt.value >= RECONCILE_INTERVAL)
    && d.keyId in r.keys && r.keys[d.keyId].IsValid(now) && r.keys[d.keyId].ReconcilableOnAuth()
  }

  ghost function Reconcile(r: Registry, u: Uid, w: World): (Registry, Status)
    requires u in r.rows && Reconcilable(r, r.rows[u], w.now)
  {
    var d := r.rows[u];
    var k := Some(d.keyId);
    Settle(r, u, d.(lastAttempt := Some(w.now)), EvaluateEnrollment(KeyOf(r, k), u.mac, w.webhook, false), k, w)
  }

  /** What AuthDevice refuses before it looks at any row. */
  function Unidentified(req: AuthRequest): Option<AuthError> {
    if req.identity.None? then Some(NoIdentity)
    else if DeviceHostname(req.hostname, req.identity.value) == "" then Some(NoIdentityAndHostname)
    else None
  }

  /** The host name and the install key play no part in the identifier. */
  function UidOf(r: Registry, req: AuthRequest): Uid
    requires req.identity.Some?
  {
    Uid(req.identity.value, req.publicKey, r.tenant)
  }

  /** Enrolling needs a key decision only when there is no row yet or the row is marked removed. */
  predicate Enrolling(r: Registry, u: Uid) {
    u !in r.rows || r.rows[u].removedAt.Some?
  }

  ghost function AuthDevice(r: Registry, req: AuthRequest, paired: bool, w: World): (Registry, AuthReply) {
    if Unidentified(req).Some? then (r, Refused(Unidentified(req).value))
    else
      var u := UidOf(r, req);
      var choice := EnrollmentKey(r, req.installKey, paired, w.now);
      if Enrolling(r, u) && choice.KeyRefused? then (r, Refused(choice.error))
      else if u !in r.rows then
        var name := Lower(DeviceHostname(req.hostname, req.identity.value));
        var (r', st) := Enrol(r, u, name, choice.id, paired, w);
        (r', Authenticated(u, name, st))
      else if r.rows[u].removedAt.Some? then
        var (r', st) := ReRegister(r, u, choice.id, paired, w);
        (r', Authenticated(u, r.rows[u].name, st))
      else if r.rows[u].status == Pending && Reconcilable(r, r.rows[u], w.now) then
        var (r', st) := Reconcile(r, u, w);
        (r', Authenticated(u, r.rows[u].name, st))
      else (r, Authenticated(u, r.rows[u].name, r.rows[u].status))
  }

  // ---------------------------------------------------------------------------------------------
  // What AuthDevice does to its own row and to others
  // ---------------------------------------------------------------------------------------------

  /** u's row was written or decided on: it has status st and no removed mark, and others are as they were or merged. */
  ghost predicate Settled(r: Registry, r': Registry, u: Uid, st: Status) {
    && r'.tenant == r.tenant && r'.pairingKey == r.pairingKey && TouchesOnly(r.rows, r'.rows, u)
    && r'.rows[u].status == st && r'.rows[u].removedAt.None?
  }

  lemma TouchesFromBefore(rows: Rows, d: Device, after: Rows, u: Uid)
    requires TouchesOnly(rows[u := d], after, u) && (u in rows ==> d.mac == rows[u].mac)
    ensures TouchesOnly(rows, after, u)
  {}

  lemma EnrolSettles(r: Registry, u: Uid, name: string, k: Option<string>, paired: bool, w: World)
    requires KnownKey(r, k) && u !in r.rows
    ensures var (r', st) := Enrol(r, u, name, k, paired, w); Settled(r, r', u, st) && st != Removed
  {
    var d := NewDevice(name, u.mac, k);
    var created := r.(rows := r.rows[u := d]);
    ApplyDecisionSpendsOneUsePerAccept(created, EvaluateEnrollment(KeyOf(r, k), u.mac, w.webhook, paired), k, u, w);
    TouchesFromBefore(r.rows, d, Enrol(r, u, name, k, paired, w).0.rows, u);
  }

  lemma SettleSettles(r: Registry, u: Uid, d: Device, decision: Decision, k: Option<string>, w: World)
    requires KnownKey(r, k) && u in r.rows && r.rows[u].status == Pending
    requires d.removedAt.None? && d.mac == r.rows[u].mac
    ensures var (r', st) := Settle(r, u, d, decision, k, w);
            Settled(r, r', u, st) && st != Removed && r'.rows[u] == d.(status := st)
  {
    ApplyDecisionSpendsOneUsePerAccept(r, decision, k, u, w);
  }

  lemma ReRegisterSettles(r: Registry, u: Uid, k: Option<string>, paired: bool, w: World)
    requires KnownKey(r, k) && u in r.rows
    ensures var (r', st) := ReRegister(r, u, k, paired, w);
            Settled(r, r', u, st) && st != Removed && r'.rows[u].name == r.rows[u].name
  {
    var d := BackToPending(r.rows[u], k);
    SettleSettles(WithPending(r, u, d), u, d, EvaluateEnrollment(KeyOf(r, k), u.mac, w.webhook, paired), k, w);
    TouchesFromBefore(r.rows, d, ReRegister(r, u, k, paired, w).0.rows, u);
  }

  lemma ReconcileSettles(r: Registry, u: Uid, w: World)
    requires u in r.rows && r.rows[u].status == Pending && Reconcilable(r, r.rows[u], w.now)
    requires r.rows[u].removedAt.None?
    ensures var (r', st) := Reconcile(r, u, w); Settled(r, r', u, st) && st != Removed
  {
    var d := r.rows[u];
    var k := Some(d.keyId);
    SettleSettles(r, u, d.(lastAttempt := Some(w.now)),
                  EvaluateEnrollment(KeyOf(r, k), u.mac, w.webhook, false), k, w);
  }

  /**
   * A refusal changes nothing. Otherwise AuthDevice answers with the status the device's row now has, that
   * row is not marked removed, and no other row changed except one a merge took away. Marks that agreed with
   * statuses still do.
   */
  lemma AuthSettles(r: Registry, req: AuthRequest, paired: bool, w: World)
    ensures var (r', reply) := AuthDevice(r, req, paired, w);
            && r'.tenant == r.tenant && r'.pairingKey == r.pairingKey
            && (reply.Refused? ==> r' == r)
            && (reply.Authenticated? ==>
                  req.identity.Some? && reply.uid == UidOf(r, req) && Settled(r, r', reply.uid, reply.status))
            && (Marked(r.rows) ==> Marked(r'.rows))
  {
    if Unidentified(req).None? {
      var u := UidOf(r, req);
      var choice := EnrollmentKey(r, req.installKey, paired, w.now);
      if u !in r.rows {
        if choice.KeyChosen? {
          EnrolSettles(r, u, Lower(DeviceHostname(req.hostname, req.identity.value)), choice.id, paired, w);
        }
      } else if r.rows[u].removedAt.Some? {
        if choice.KeyChosen? {
          ReRegisterSettles(r, u, choice.id, paired, w);
        }
      } else if r.rows[u].status == Pending && Reconcilable(r, r.rows[u], w.now) {
        ReconcileSettles(r, u, w);
      }
      var (r', reply) := AuthDevice(r, req, paired, w);
      if reply.Authenticated? && Marked(r.rows) {
        MarkFollowsTouch(r.rows, r'.rows, u);
      }
    }
  }

  // ---------------------------------------------------------------------------------------------
  // AuthDevice keeps the core
  // ---------------------------------------------------------------------------------------------

  /** Overwriting a row without changing its MAC or status needs only that its new name is free. */
  lemma WriteBackKeepsCore(r: Registry, u: Uid, d: Device)
    requires Core(r) && u in r.rows && d.mac == r.rows[u].mac && d.status == r.rows[u].status
    requires d.status == Accepted ==> NameFreeFor(r.rows, u, d.name)
    ensures Core(r.(rows := r.rows[u := d]))
  {
    CountPut(r.rows, u, d, Accepted);
    assert forall v | IsAccepted(r.rows[u := d], v) :: IsAccepted(r.rows, v);
  }

  /** Writing the pre-merge name back is harmless: the merge could only go ahead if that name was free. */
  lemma SettleKeepsCore(r: Registry, u: Uid, d: Device, decision: Decision, k: Option<string>, w: World)
    requires Core(r) && KnownKey(r, k) && u in r.rows && r.rows[u].status == Pending
    requires d.mac == r.rows[u].mac && d.name == r.rows[u].name
    ensures Core(Settle(r, u, d, decision, k, w).0)
  {
    ApplyDecisionSpendsOneUsePerAccept(r, decision, k, u, w);
    ApplyDecisionKeepsCore(r, decision, k, u, w);
    var (mid, st) := ApplyDecision(r, decision, k, u, w);
    WriteBackKeepsCore(mid, u, d.(status := st));
  }

  lemma EnrolKeepsCore(r: Registry, u: Uid, name: string, k: Option<string>, paired: bool, w: World)
    requires Core(r) && KnownKey(r, k) && u !in r.rows
    ensures Core(Enrol(r, u, name, k, paired, w).0)
  {
    var created := r.(rows := r.rows[u := NewDevice(name, u.mac, k)]);
    FewerAcceptedKeepsCore(r, created);
    ApplyDecisionKeepsCore(created, EvaluateEnrollment(KeyOf(r, k), u.mac, w.webhook, paired), k, u, w);
  }

  /** Also for a row that is marked removed but is not. */
  lemma ReRegisterKeepsCore(r: Registry, u: Uid, k: Option<string>, paired: bool, w: World)
    requires Core(r) && KnownKey(r, k) && u in r.rows
    ensures Core(ReRegister(r, u, k, paired, w).0)
  {
    var d := BackToPending(r.rows[u], k);
    FewerAcceptedKeepsCore(r, WithPending(r, u, d));
    SettleKeepsCore(WithPending(r, u, d), u, d, EvaluateEnrollment(KeyOf(r, k), u.mac, w.webhook, paired), k, w);
  }

  lemma ReconcileKeepsCore(r: Registry, u: Uid, w: World)
    requires Core(r) && u in r.rows && r.rows[u].status == Pending && Reconcilable(r, r.rows[u], w.now)
    ensures Core(Reconcile(r, u, w).0)
  {
    var d := r.rows[u];
    var k := Some(d.keyId);
    SettleKeepsCore(r, u, d.(lastAttempt := Some(w.now)),
                    EvaluateEnrollment(KeyOf(r, k), u.mac, w.webhook, false), k, w);
  }

  lemma AuthKeepsCore(r: Registry, req: AuthRequest, paired: bool, w: World)
    requires Core(r)
    ensures Core(AuthDevice(r, req, paired, w).0)
  {
    if Unidentified(req).None? {
      var u := UidOf(r, req);
      var choice := EnrollmentKey(r, req.installKey, paired, w.now);
      if Enrolling(r, u) {
        if choice.KeyChosen? {
          if u in r.rows {
            ReRegisterKeepsCore(r, u, choice.id, paired, w);
          } else {
            EnrolKeepsCore(r, u, Lower(DeviceHostname(req.hostname, req.identity.value)), choice.id, paired, w);
          }
        }
      } else if r.rows[u].status == Pending && Reconcilable(r, r.rows[u], w.now) {
        ReconcileKeepsCore(r, u, w);
      }
    }
  }

  // ---------------------------------------------------------------------------------------------
  // When AuthDevice refuses, accepts, rejects and leaves pending
  // ---------------------------------------------------------------------------------------------

  lemma UnidentifiedIff(req: AuthRequest)
    ensures Unidentified(req) == Some(NoIdentity) <==> req.identity.None?
    ensures Unidentified(req) == Some(NoIdentityAndHostname)
            <==> req.identity == Some("") && req.hostname == ""
  {}

  /** A presented key must be a user's key in force. */
  lemma PresentedKeyIsChosenIff(r: Registry, key: string, paired: bool, now: int)
    ensures var choice := EnrollmentKey(r, Some(key), paired, now);
            if key in r.keys && r.keys[key].keyType == User && InForce(r.keys[key], now)
            then choice == KeyChosen(Some(key)) else choice == KeyRefused(InvalidKey)
  {}

  /** Without one, a pairing goes through the pairing key, and others through the legacy key if it is in force. */
  lemma KeylessChoiceIff(r: Registry, paired: bool, now: int)
    ensures var system := if paired then r.pairingKey else r.legacyKey;
            var choice := EnrollmentKey(r, None, paired, now);
            if system.None? || system.value !in r.keys then choice == KeyChosen(None)
            else if paired || InForce(r.keys[system.value], now) then choice == KeyChosen(system)
            else choice == KeyRefused(KeyRequired)
  {}

  /** A decision's outcome on a pending row, both ways. */
  lemma DecisionIsAppliedIff(r: Registry, decision: Decision, k: Option<string>, u: Uid, w: World)
    requires UniqueNames(r.rows) && KnownKey(r, k) && u in r.rows && r.rows[u].status == Pending
    ensures var st := ApplyDecision(r, decision, k, u, w).1;
            && (st == Accepted <==> && decision == Accept && (k.Some? ==> UseLeft(r.keys[k.value]))
                                    && Acceptable(r, r.rows[u].mac, r.rows[u].name, w))
            && (st == Rejected <==> decision == Reject)
  {
    var reserved := Reserve(r, k);
    AcceptGoesThroughIff(reserved, u, w);
    assert Acceptable(reserved, r.rows[u].mac, r.rows[u].name, w) <==> Acceptable(r, r.rows[u].mac, r.rows[u].name, w);
    ApplyDecisionSpendsOneUsePerAccept(r, decision, k, u, w);
  }

  /** What a key k does to the pending row of u. */
  ghost predicate DecidedBy(r: Registry, k: Option<string>, u: Uid, paired: bool, w: World, st: Status)
    requires KnownKey(r, k) && u in r.rows
  {
    && (st == Accepted <==> && k.Some? && Admits(r.keys[k.value], u.mac, w.webhook, paired) && UseLeft(r.keys[k.value])
                            && Acceptable(r, r.rows[u].mac, r.rows[u].name, w))
    && (st == Rejected <==> k.Some? && !paired && TurnsAway(r.keys[k.value], u.mac, w.webhook))
    && st in {Accepted, Rejected, Pending}
  }

  lemma PolicyIsCarriedOut(r: Registry, k: Option<string>, u: Uid, paired: bool, w: World)
    requires UniqueNames(r.rows) && KnownKey(r, k) && u in r.rows && r.rows[u].status == Pending
    ensures var decision := EvaluateEnrollment(KeyOf(r, k), u.mac, w.webhook, paired);
            DecidedBy(r, k, u, paired, w, ApplyDecision(r, decision, k, u, w).1)
  {
    var decision := EvaluateEnrollment(KeyOf(r, k), u.mac, w.webhook, paired);
    if k.Some? {
      PolicyDecidesIff(r.keys[k.value], u.mac, w.webhook, paired);
    }
    DecisionIsAppliedIff(r, decision, k, u, w);
    ApplyDecisionSpendsOneUsePerAccept(r, decision, k, u, w);
  }

  /** The registry once a new device waits in it, or a returning one waits again. */
  function AtTheDoor(r: Registry, req: AuthRequest, k: Option<string>): Registry
    requires req.identity.Some?
  {
    var u := UidOf(r, req);
    if u in r.rows then WithPending(r, u, BackToPending(r.rows[u], k))
    else r.(rows := r.rows[u := NewDevice(Lower(DeviceHostname(req.hostname, u.mac)), u.mac, k)])
  }

  /**
   * A device that is new, or marked removed, is refused exactly without identity, host name and MAC, or a key
   * it may use. Otherwise it is accepted exactly if its key admits it, has a use left, and the device is
   * acceptable; rejected exactly if its key turns it away; and pending in all other cases.
   */
  lemma EnrollingDeviceIsDecidedByItsKey(r: Registry, req: AuthRequest, paired: bool, w: World)
    requires UniqueNames(r.rows) && req.identity.Some? && Enrolling(r, UidOf(r, req))
    ensures var u := UidOf(r, req);
            var choice := EnrollmentKey(r, req.installKey, paired, w.now);
            var reply := AuthDevice(r, req, paired, w).1;
            if Unidentified(req).Some? then reply == Refused(Unidentified(req).value)
            else if choice.KeyRefused? then reply == Refused(choice.error)
            else reply.Authenticated? && reply.uid == u
                 && reply.name == AtTheDoor(r, req, choice.id).rows[u].name
                 && DecidedBy(AtTheDoor(r, req, choice.id), choice.id, u, paired, w, reply.status)
  {
    var u := UidOf(r, req);
    var choice := EnrollmentKey(r, req.installKey, paired, w.now);
    if Unidentified(req).None? && choice.KeyChosen? {
      var waiting := AtTheDoor(r, req, choice.id);
      assert forall v | IsAccepted(waiting.rows, v) :: IsAccepted(r.rows, v) && waiting.rows[v] == r.rows[v];
      PolicyIsCarriedOut(waiting, choice.id, u, paired, w);
    }
  }

  /** The stored key of a waiting device is due to be asked again. */
  predicate Due(r: Registry, d: Device, now: int) {
    && d.status == Pending && d.keyId != "" && d.keyId in r.keys
    && InForce(r.keys[d.keyId], now) && r.keys[d.keyId].mode in {Webhook, Allowlist}
    && (d.lastAttempt.Some? ==> now >= d.lastAttempt.value + MINUTE)
  }

  /**
   * A known device's call changes nothing unless its key is due. If it is, the call is stamped on the row and
   * the key decides as it does for a new device.
   */
  lemma ReconnectIsDecidedByTheStoredKey(r: Registry, req: AuthRequest, paired: bool, w: World)
    requires UniqueNames(r.rows) && req.identity.Some? && !Enrolling(r, UidOf(r, req)) && Unidentified(req).None?
    ensures var u := UidOf(r, req);
            var d := r.rows[u];
            var (r', reply) := AuthDevice(r, req, paired, w);
            && reply.Authenticated? && reply.uid == u && reply.name == d.name
            && (!Due(r, d, w.now) ==> r' == r && reply.status == d.status)
            && (Due(r, d, w.now) ==> DecidedBy(r, Some(d.keyId), u, false, w, reply.status)
                                     && u in r'.rows
                                     && r'.rows[u] == d.(status := reply.status, lastAttempt := Some(w.now)))
  {
    var u := UidOf(r, req);
    var d := r.rows[u];
    if d.status == Pending && Reconcilable(r, d, w.now) {
      PolicyIsCarriedOut(r, Some(d.keyId), u, false, w);
    }
  }

  /** A device left pending is not asked about again within the next minute, however often it calls. */
  lemma ReconnectsAreThrottled(r: Registry, req: AuthRequest, paired: bool, w: World, again: AuthRequest, later: World)
    requires UniqueNames(r.rows) && req.identity.Some? && !Enrolling(r, UidOf(r, req)) && Unidentified(req).None?
    requires Due(r, r.rows[UidOf(r, req)], w.now) && AuthDevice(r, req, paired, w).1.status == Pending
    requires again.identity == req.identity && again.publicKey == req.publicKey && later.now < w.now + MINUTE
    ensures var r1 := AuthDevice(r, req, paired, w).0; AuthDevice(r1, again, false, later).0 == r1
  {
    var (r1, reply) := AuthDevice(r, req, paired, w);
    ReconnectIsDecidedByTheStoredKey(r, req, paired, w);
    AuthSettles(r, req, paired, w);
  }

  /** A new device's row holds what it presented; its name gives way only to that of the device it succeeds. */
  lemma NewDeviceIsRecorded(r: Registry, req: AuthRequest, paired: bool, w: World)
    requires req.identity.Some? && UidOf(r, req) !in r.rows && AuthDevice(r, req, paired, w).1.Authenticated?
    ensures var (r', reply) := AuthDevice(r, req, paired, w);
            var u := UidOf(r, req);
            var choice := EnrollmentKey(r, req.installKey, paired, w.now);
            && reply.name == Lower(if req.hostname != "" then req.hostname else ReplaceChar(u.mac, ':', '-'))
            && u in r'.rows && choice.KeyChosen?
            && r'.rows[u] == Device(r'.rows[u].name, u.mac, reply.status, None, Digest(choice.id), None)
            && (reply.status != Accepted || !MacTaken(r.rows, u.mac) ==> r'.rows[u].name == reply.name)
  {
    var u := UidOf(r, req);
    var choice := EnrollmentKey(r, req.installKey, paired, w.now);
    var waiting := AtTheDoor(r, req, choice.id);
    var decision := EvaluateEnrollment(KeyOf(r, choice.id), u.mac, w.webhook, paired);
    ApplyDecisionSpendsOneUsePerAccept(waiting, decision, choice.id, u, w);
    assert forall v | HoldsMac(waiting.rows, v, u.mac) :: HoldsMac(r.rows, v, u.mac);
    assert MacHolder(Reserve(waiting, choice.id).rows, u.mac).Some? ==> MacTaken(r.rows, u.mac);
  }

  /** A returning device's row is the one it had, under the key it comes with now and without the removed mark. */
  lemma ReturningDeviceIsRecorded(r: Registry, req: AuthRequest, paired: bool, w: World)
    requires req.identity.Some? && UidOf(r, req) in r.rows && r.rows[UidOf(r, req)].removedAt.Some?
    requires AuthDevice(r, req, paired, w).1.Authenticated?
    ensures var (r', reply) := AuthDevice(r, req, paired, w);
            var u := UidOf(r, req);
            var choice := EnrollmentKey(r, req.installKey, paired, w.now);
            && u in r'.rows && choice.KeyChosen? && reply.name == r.rows[u].name
            && r'.rows[u] == r.rows[u].(status := reply.status, removedAt := None, keyId := Digest(choice.id))
  {
    var u := UidOf(r, req);
    var choice := EnrollmentKey(r, req.installKey, paired, w.now);
    var d := BackToPending(r.rows[u], choice.id);
    SettleSettles(WithPending(r, u, d), u, d,
                  EvaluateEnrollment(KeyOf(r, choice.id), u.mac, w.webhook, paired), choice.id, w);
  }
}
