/**
 * Device enrolment, row by row. A Registry is what the store holds for one namespace: device rows and
 * install keys. Of the counters it has only the excess of the accepted one, which the ceiling is checked
 * against. Every service call is a function from a registry and the outside
 * world's answers to the next registry. The class in DeviceService.dfy performs the same calls with the
 * store's denormalised counters and write order, and is proved to end in the registry given here.
 */
module Devices {
  import opened Prelude
  import opened InstallKeys

  datatype Status = Pending | Accepted | Rejected | Removed

  /**
   * A device's identifier is a hash of exactly these three fields (the host name and the install key are
   * left out of it). The hash is taken to be injective, so the identifier is the triple itself.
   */
  datatype Uid = Uid(mac: string, publicKey: string, tenant: string)

  datatype Device = Device(
    name: string,
    mac: string,
    status: Status,
    removedAt: Option<int>,
    keyId: string,
    lastAttempt: Option<int>
  )

  type Rows = map<Uid, Device>

  /** overcount is how far the accepted counter stands above the number of accepted rows. */
  datatype Registry = Registry(
    tenant: string,
    rows: Rows,
    keys: map<string, InstallKey>,
    legacyKey: Option<string>,
    pairingKey: Option<string>,
    maxDevices: int,
    overcount: int
  )

  const RECONCILE_INTERVAL: int := MINUTE

  // ---------------------------------------------------------------------------------------------
  // Counting rows
  // ---------------------------------------------------------------------------------------------

  function InStatus(rows: Rows, st: Status): set<Uid> {
    set u | u in rows && rows[u].status == st
  }

  function Count(rows: Rows, st: Status): nat {
    |InStatus(rows, st)|
  }

  function One(b: bool): int {
    if b then 1 else 0
  }

  lemma CountPut(rows: Rows, u: Uid, d: Device, st: Status)
    ensures Count(rows[u := d], st)
         == Count(rows, st) - One(u in rows && rows[u].status == st) + One(d.status == st)
  {
    var before, after := InStatus(rows, st), InStatus(rows[u := d], st);
    assert after == (if d.status == st then (before - {u}) + {u} else before - {u});
  }

  /** How many rows of a batch are in a status. */
  function Share(rows: Rows, batch: set<Uid>, st: Status): nat
    requires batch <= rows.Keys
  {
    |set u | u in batch && rows[u].status == st|
  }

  lemma CountDropMany(rows: Rows, batch: set<Uid>, st: Status)
    requires batch <= rows.Keys
    ensures Count(rows - batch, st) == Count(rows, st) - Share(rows, batch, st)
  {
    var gone := set u | u in batch && rows[u].status == st;
    assert InStatus(rows - batch, st) == InStatus(rows, st) - gone;
    assert gone <= InStatus(rows, st);
  }

  lemma CountDrop(rows: Rows, u: Uid, st: Status)
    requires u in rows
    ensures Count(rows - {u}, st) == Count(rows, st) - One(rows[u].status == st)
  {
    assert InStatus(rows - {u}, st) == InStatus(rows, st) - {u};
  }

  // ---------------------------------------------------------------------------------------------
  // What every run keeps
  // ---------------------------------------------------------------------------------------------

  predicate IsAccepted(rows: Rows, u: Uid) {
    u in rows && rows[u].status == Accepted
  }

  ghost predicate Marked(rows: Rows) {
    forall u | u in rows :: rows[u].removedAt.Some? <==> rows[u].status == Removed
  }

  ghost predicate UniqueMacs(rows: Rows) {
    forall u, v | IsAccepted(rows, u) && IsAccepted(rows, v) && rows[u].mac == rows[v].mac :: u == v
  }

  ghost predicate UniqueNames(rows: Rows) {
    forall u, v | IsAccepted(rows, u) && IsAccepted(rows, v) && rows[u].name == rows[v].name :: u == v
  }

  ghost predicate WithinCeiling(r: Registry) {
    r.maxDevices > 0 ==> Count(r.rows, Accepted) <= r.maxDevices
  }

  /** What every run keeps whatever statuses are set; the mark is kept only by runs that take some care. */
  ghost predicate Core(r: Registry) {
    UniqueMacs(r.rows) && UniqueNames(r.rows) && WithinCeiling(r) && r.overcount >= 0
  }

  lemma SubsetIsNoLarger(a: set<Uid>, b: set<Uid>)
    requires a <= b
    ensures |a| <= |b|
  {
    assert b == a + (b - a);
  }

  /** No row became accepted, and those that stayed so kept their MAC and name. */
  lemma FewerAcceptedKeepsCore(r: Registry, r': Registry)
    requires Core(r) && r'.maxDevices == r.maxDevices && r'.overcount >= 0
    requires forall v | IsAccepted(r'.rows, v) ::
               IsAccepted(r.rows, v) && r'.rows[v].mac == r.rows[v].mac && r'.rows[v].name == r.rows[v].name
    ensures Core(r')
  {
    assert forall v | v in InStatus(r'.rows, Accepted) :: IsAccepted(r'.rows, v);
    SubsetIsNoLarger(InStatus(r'.rows, Accepted), InStatus(r.rows, Accepted));
  }

  // ---------------------------------------------------------------------------------------------
  // UpdateDeviceStatus
  // ---------------------------------------------------------------------------------------------

  datatype Licence = NoEvaluator | Verdict(ok: bool) | EvaluatorFailed

  /** Answers from outside the store: merge hooks, billing, licence and the deployment's edition. */
  datatype World = World(
    now: int,
    webhook: WebhookAnswer,
    hookOk: bool,
    cloud: bool,
    billingActive: bool,
    billingAllows: bool,
    licence: Licence
  )

  datatype Outcome = Ok | NotFound | AlreadyAccepted | Duplicated | HookFailed
    | DeviceLimit | MaxDevicesReached | BillingRefused | LicenceLimit

  /** The namespace's device ceiling; maxDevices <= 0 means there is none. */
  function ValidateAcceptance(maxDevices: int, accepted: int, w: World): Outcome {
    if maxDevices > 0 && accepted >= maxDevices then
      if w.cloud && !w.billingActive then DeviceLimit else MaxDevicesReached
    else if w.cloud && !w.billingAllows then BillingRefused
    else if w.licence == Verdict(false) then LicenceLimit
    else Ok
  }

  ghost predicate HoldsMac(rows: Rows, u: Uid, mac: string) {
    IsAccepted(rows, u) && rows[u].mac == mac
  }

  ghost predicate HoldsName(rows: Rows, u: Uid, name: string) {
    IsAccepted(rows, u) && rows[u].name == name
  }

  /** The accepted row a lookup by MAC returns. */
  ghost function MacHolder(rows: Rows, mac: string): (h: Option<Uid>)
    ensures h.Some? ==> HoldsMac(rows, h.value, mac)
    ensures h.None? ==> forall u :: !HoldsMac(rows, u, mac)
  {
    if u :| HoldsMac(rows, u, mac) then Some(u) else None
  }

  /** The accepted row a lookup by name returns. */
  ghost function NameHolder(rows: Rows, name: string): (h: Option<Uid>)
    ensures h.Some? ==> HoldsName(rows, h.value, name)
    ensures h.None? ==> forall u :: !HoldsName(rows, u, name)
  {
    if u :| HoldsName(rows, u, name) then Some(u) else None
  }

  /** The rows once o, the accepted row with u's MAC, has been merged into u. */
  function Merge(rows: Rows, o: Uid, u: Uid): Rows
    requires o in rows && u in rows
  {
    (rows - {o})[u := rows[u].(name := rows[o].name, status := Accepted)]
  }

  /** Why u cannot be accepted now, or Ok. The merge path never consults the ceiling. */
  ghost function AcceptCheck(r: Registry, u: Uid, w: World): Outcome
    requires u in r.rows
  {
    var d := r.rows[u];
    var byName := NameHolder(r.rows, d.name);
    if MacHolder(r.rows, d.mac).Some? then
      if byName.Some? && r.rows[byName.value].mac != d.mac then Duplicated
      else if !w.hookOk then HookFailed
      else Ok
    else if byName.Some? then Duplicated
    else ValidateAcceptance(r.maxDevices, Count(r.rows, Accepted) + r.overcount, w)
  }

  ghost function AcceptRows(rows: Rows, u: Uid): Rows
    requires u in rows
  {
    var holder := MacHolder(rows, rows[u].mac);
    if holder.Some? then Merge(rows, holder.value, u) else rows[u := rows[u].(status := Accepted)]
  }

  ghost function StatusOutcome(r: Registry, u: Uid, st: Status, w: World): Outcome {
    if u !in r.rows then NotFound
    else if r.rows[u].status == Accepted then AlreadyAccepted
    else if st == Accepted then AcceptCheck(r, u, w)
    else Ok
  }

  /** One transaction: either every row of it lands or none does. */
  ghost function UpdateStatus(r: Registry, u: Uid, st: Status, w: World): Registry {
    if StatusOutcome(r, u, st, w) != Ok || st == r.rows[u].status then r
    else if st == Accepted then r.(rows := AcceptRows(r.rows, u))
    else r.(rows := r.rows[u := r.rows[u].(status := st)])
  }

  // ---------------------------------------------------------------------------------------------
  // When an accept goes through, and what it does
  // ---------------------------------------------------------------------------------------------

  ghost predicate MacTaken(rows: Rows, mac: string) {
    exists o :: HoldsMac(rows, o, mac)
  }

  ghost predicate NameTaken(rows: Rows, name: string) {
    exists v :: HoldsName(rows, v, name)
  }

  /** An accepted device of that name has another MAC. */
  ghost predicate NameTakenElsewhere(rows: Rows, mac: string, name: string) {
    exists v :: HoldsName(rows, v, name) && rows[v].mac != mac
  }

  /** The accepted counter has reached the ceiling. */
  predicate Full(r: Registry) {
    r.maxDevices > 0 && r.maxDevices <= Count(r.rows, Accepted) + r.overcount
  }

  /**
   * A device with this MAC and name can be accepted: as the successor of the accepted device with its MAC, or
   * as one more device.
   */
  ghost predicate Acceptable(r: Registry, mac: string, name: string, w: World) {
    if MacTaken(r.rows, mac) then w.hookOk && !NameTakenElsewhere(r.rows, mac, name)
    else && !NameTaken(r.rows, name) && !Full(r)
         && (w.cloud ==> w.billingAllows) && w.licence != Verdict(false)
  }

  /** Why such a device is not accepted: each refusal says what stands in the way, the first in this order. */
  ghost predicate RefusedFor(r: Registry, mac: string, name: string, w: World, why: Outcome) {
    var successor := MacTaken(r.rows, mac);
    match why
    case Duplicated => if successor then NameTakenElsewhere(r.rows, mac, name) else NameTaken(r.rows, name)
    case HookFailed => successor && !NameTakenElsewhere(r.rows, mac, name) && !w.hookOk
    case DeviceLimit => !successor && !NameTaken(r.rows, name) && Full(r) && w.cloud && !w.billingActive
    case MaxDevicesReached => !successor && !NameTaken(r.rows, name) && Full(r) && (w.cloud ==> w.billingActive)
    case BillingRefused => !successor && !NameTaken(r.rows, name) && !Full(r) && w.cloud && !w.billingAllows
    case LicenceLimit =>
      && !successor && !NameTaken(r.rows, name) && !Full(r) && (w.cloud ==> w.billingAllows)
      && w.licence == Verdict(false)
    case _ => false
  }

  /** A row that is not accepted becomes so exactly if it is acceptable, and otherwise nothing changes. */
  lemma AcceptGoesThroughIff(r: Registry, u: Uid, w: World)
    requires UniqueNames(r.rows) && u in r.rows && r.rows[u].status != Accepted
    ensures var r' := UpdateStatus(r, u, Accepted, w);
            && (IsAccepted(r'.rows, u) <==> Acceptable(r, r.rows[u].mac, r.rows[u].name, w))
            && (StatusOutcome(r, u, Accepted, w) == Ok <==> IsAccepted(r'.rows, u))
            && (!IsAccepted(r'.rows, u) ==> r' == r)
  {
    var d := r.rows[u];
    var byMac, byName := MacHolder(r.rows, d.mac), NameHolder(r.rows, d.name);
    assert MacTaken(r.rows, d.mac) <==> byMac.Some?;
    assert NameTaken(r.rows, d.name) <==> byName.Some?;
    assert byName.Some? ==> forall v | HoldsName(r.rows, v, d.name) :: v == byName.value;
  }

  lemma RefusalSaysWhy(r: Registry, u: Uid, w: World, why: Outcome)
    requires UniqueNames(r.rows) && u in r.rows && r.rows[u].status != Accepted && why != Ok
    ensures StatusOutcome(r, u, Accepted, w) == why <==> RefusedFor(r, r.rows[u].mac, r.rows[u].name, w, why)
  {
    var d := r.rows[u];
    var byMac, byName := MacHolder(r.rows, d.mac), NameHolder(r.rows, d.name);
    assert MacTaken(r.rows, d.mac) <==> byMac.Some?;
    assert NameTaken(r.rows, d.name) <==> byName.Some?;
    assert byName.Some? ==> forall v | HoldsName(r.rows, v, d.name) :: v == byName.value;
  }

  /**
   * An accepted row is the one that was there with its status changed. It inherits the name of the accepted
   * device with its MAC, which is gone; all other rows stay.
   */
  lemma AcceptedRowTakesOver(r: Registry, u: Uid, w: World, o: Uid)
    requires UniqueMacs(r.rows) && StatusOutcome(r, u, Accepted, w) == Ok
    ensures var after := UpdateStatus(r, u, Accepted, w).rows;
            && u in after
            && (HoldsMac(r.rows, o, r.rows[u].mac) ==>
                  o !in after && after[u] == r.rows[u].(status := Accepted, name := r.rows[o].name))
            && (!MacTaken(r.rows, r.rows[u].mac) ==> after[u] == r.rows[u].(status := Accepted))
            && (o != u && !HoldsMac(r.rows, o, r.rows[u].mac) ==>
                  (o in after <==> o in r.rows) && (o in after ==> after[o] == r.rows[o]))
  {
    var byMac := MacHolder(r.rows, r.rows[u].mac);
    assert byMac.Some? ==> MacTaken(r.rows, r.rows[u].mac);
  }

  /** A missing or accepted row is refused as such, whatever the new status, and nothing changes. */
  lemma MissingAndAcceptedAreRefused(r: Registry, u: Uid, st: Status, w: World)
    ensures StatusOutcome(r, u, st, w) == NotFound <==> u !in r.rows
    ensures StatusOutcome(r, u, st, w) == AlreadyAccepted <==> IsAccepted(r.rows, u)
    ensures u !in r.rows || IsAccepted(r.rows, u) ==> UpdateStatus(r, u, st, w) == r
  {}

  /** Any other status is set as asked, on any row that is not accepted. */
  lemma OtherStatusesAreSetIff(r: Registry, u: Uid, st: Status, w: World)
    requires st != Accepted
    ensures u in r.rows && r.rows[u].status != Accepted ==> StatusOutcome(r, u, st, w) == Ok
    ensures var r' := UpdateStatus(r, u, st, w);
            if u in r.rows && r.rows[u].status != Accepted
            then r' == r.(rows := r.rows[u := r.rows[u].(status := st)])
            else r' == r
  {
    if u in r.rows && r.rows[u].status == st {
      assert r.rows[u := r.rows[u].(status := st)] == r.rows;
    }
  }

  /**
   * How one status update or enrolment of u may touch the other rows: it leaves each of them alone, or,
   * when u comes out accepted, takes away the accepted row that had u's MAC.
   */
  ghost predicate TouchesOnly(before: Rows, after: Rows, u: Uid) {
    && u in after && (u in before ==> after[u].mac == before[u].mac)
    && (forall v | v in after && v != u :: v in before && after[v] == before[v])
    && (forall v | v in before && v !in after ::
          before[v].status == Accepted && before[v].mac == after[u].mac && after[u].status == Accepted)
  }

  lemma UpdateStatusTouches(r: Registry, u: Uid, st: Status, w: World)
    requires u in r.rows
    ensures TouchesOnly(r.rows, UpdateStatus(r, u, st, w).rows, u)
  {}

  /** Asked to accept, a status update that succeeds or finds the row accepted leaves it accepted and as marked as it was. */
  lemma AcceptingAccepts(r: Registry, u: Uid, w: World)
    requires StatusOutcome(r, u, Accepted, w) in {Ok, AlreadyAccepted}
    ensures var r' := UpdateStatus(r, u, Accepted, w);
            IsAccepted(r'.rows, u) && r'.rows[u].removedAt == r.rows[u].removedAt && r'.tenant == r.tenant
  {}

  /** No other accepted row has this name. */
  ghost predicate NameFreeFor(rows: Rows, u: Uid, name: string) {
    forall v | IsAccepted(rows, v) && rows[v].name == name :: v == u
  }

  /**
   * Accepting u leaves the MACs and names of the accepted rows pairwise distinct, and also leaves free the
   * name u had beforehand. The second half is what lets a caller write that name back after a merge.
   */
  lemma AcceptKeepsUnique(r: Registry, u: Uid, w: World)
    requires UniqueMacs(r.rows) && UniqueNames(r.rows)
    requires u in r.rows && r.rows[u].status != Accepted && AcceptCheck(r, u, w) == Ok
    ensures UniqueMacs(AcceptRows(r.rows, u)) && UniqueNames(AcceptRows(r.rows, u))
    ensures NameFreeFor(AcceptRows(r.rows, u), u, r.rows[u].name)
  {
    var after := AcceptRows(r.rows, u);
    var holder := MacHolder(r.rows, r.rows[u].mac);
    forall v | IsAccepted(after, v) && v != u
      ensures after[v].mac != after[u].mac && after[v].name != after[u].name && after[v].name != r.rows[u].name
      ensures IsAccepted(r.rows, v) && after[v] == r.rows[v]
    {
      assert !HoldsMac(r.rows, v, r.rows[u].mac);
      if after[v].name == r.rows[u].name {
        assert HoldsName(r.rows, v, r.rows[u].name);
      }
      assert holder.Some? ==> IsAccepted(r.rows, holder.value) && holder.value != v;
    }
  }

  /** A merge swaps one accepted row for another, so the ceiling holds although it is not consulted. */
  lemma AcceptKeepsCeiling(r: Registry, u: Uid, w: World)
    requires WithinCeiling(r) && r.overcount >= 0
    requires u in r.rows && r.rows[u].status != Accepted && AcceptCheck(r, u, w) == Ok
    ensures WithinCeiling(r.(rows := AcceptRows(r.rows, u)))
  {
    var holder := MacHolder(r.rows, r.rows[u].mac);
    if holder.Some? {
      var o := holder.value;
      CountDrop(r.rows, o, Accepted);
      CountPut(r.rows - {o}, u, r.rows[u].(name := r.rows[o].name, status := Accepted), Accepted);
    } else {
      CountPut(r.rows, u, r.rows[u].(status := Accepted), Accepted);
    }
  }

  /** Whatever the row's status and the new one. */
  lemma UpdateStatusKeepsCore(r: Registry, u: Uid, st: Status, w: World)
    requires Core(r)
    ensures Core(UpdateStatus(r, u, st, w))
  {
    if StatusOutcome(r, u, st, w) == Ok && st != r.rows[u].status {
      if st == Accepted {
        AcceptKeepsUnique(r, u, w);
        AcceptKeepsCeiling(r, u, w);
      } else {
        FewerAcceptedKeepsCore(r, UpdateStatus(r, u, st, w));
      }
    }
  }

  /**
   * Status updates neither set nor clear removedAt. So an update that changes a row keeps "removedAt is set
   * exactly on removed rows" if and only if the row was not removed and does not become so.
   */
  lemma UpdateKeepsMarkIffNotRemoved(r: Registry, u: Uid, st: Status, w: World)
    requires Marked(r.rows)
    requires StatusOutcome(r, u, st, w) == Ok && st != r.rows[u].status
    ensures Marked(UpdateStatus(r, u, st, w).rows) <==> r.rows[u].status != Removed && st != Removed
  {
    var after := UpdateStatus(r, u, st, w).rows;
    assert after[u].removedAt == r.rows[u].removedAt && after[u].status == st;
  }

  /** After a touch the mark is right everywhere if it was and is right on the touched row. */
  lemma MarkFollowsTouch(before: Rows, after: Rows, u: Uid)
    requires Marked(before) && TouchesOnly(before, after, u)
    requires after[u].removedAt.Some? <==> after[u].status == Removed
    ensures Marked(after)
  {
    forall v | v in after
      ensures after[v].removedAt.Some? <==> after[v].status == Removed
    {
      assert v != u ==> v in before && after[v] == before[v];
    }
  }
}
