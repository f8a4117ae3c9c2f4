/**
 * The device service over one namespace's store: device rows, install keys, and four counters kept beside
 * the rows instead of being recounted. Each method writes in the order the service writes. It is proved to
 * end in the registry that Devices and Enrollment define. Drift is how far a counter stands from the number
 * of rows it counts: careful runs do not move it, and the others move it one way only.
 */
module DeviceService {
  import opened Prelude
  import opened InstallKeys
  import opened Devices
  import opened Enrollment
  import DeviceRuns

  datatype Counts = Counts(pending: int, accepted: int, rejected: int, removed: int) {
    function Get(st: Status): int {
      match st
      case Pending => pending
      case Accepted => accepted
      case Rejected => rejected
      case Removed => removed
    }

    /** NamespaceIncrementDeviceCount: adds to the one column the status names. */
    function Bump(st: Status, delta: int): (c: Counts)
      ensures forall s :: c.Get(s) == Get(s) + (if s == st then delta else 0)
    {
      match st
      case Pending => this.(pending := pending + delta)
      case Accepted => this.(accepted := accepted + delta)
      case Rejected => this.(rejected := rejected + delta)
      case Removed => this.(removed := removed + delta)
    }

    function Sum(): int {
      pending + accepted + rejected + removed
    }

    /** Units went from removed to other statuses, and none were made or lost. */
    predicate LeansTo(later: Counts) {
      && later.Sum() == Sum() && later.removed <= removed
      && later.pending >= pending && later.accepted >= accepted && later.rejected >= rejected
    }
  }

  /** One unit went from removed to m. */
  lemma OneUnitLeans(before: Counts, after: Counts, m: Status)
    requires forall st :: after.Get(st) == before.Get(st) + One(st == m) - One(st == Removed)
    ensures before.LeansTo(after)
  {
    assert after.Get(Pending) == after.pending && after.Get(Accepted) == after.accepted;
    assert after.Get(Rejected) == after.rejected && after.Get(Removed) == after.removed;
  }

  lemma CountsAddUp(rows: Rows)
    ensures |rows| == Count(rows, Pending) + Count(rows, Accepted) + Count(rows, Rejected) + Count(rows, Removed)
  {
    var pending, accepted := InStatus(rows, Pending), InStatus(rows, Accepted);
    var rejected, removed := InStatus(rows, Rejected), InStatus(rows, Removed);
    forall u | u in rows
      ensures u in pending + accepted + rejected + removed
    {
      assert rows[u].status.Pending? || rows[u].status.Accepted? || rows[u].status.Rejected? || rows[u].status.Removed?;
    }
    assert rows.Keys == pending + accepted + rejected + removed;
    assert |pending + accepted| == |pending| + |accepted|;
    assert |pending + accepted + rejected| == |pending + accepted| + |rejected|;
  }

  /** A whole batch was taken off removed, although it held rows of other statuses. */
  lemma BatchLeans(rows: Rows, batch: set<Uid>, before: Counts, after: Counts)
    requires batch <= rows.Keys
    requires forall st :: after.Get(st) == before.Get(st) + Share(rows, batch, st) - (if st == Removed then |batch| else 0)
    ensures before.LeansTo(after)
  {
    var part := map u | u in batch :: rows[u];
    assert part.Keys == batch;
    forall st
      ensures Count(part, st) == Share(rows, batch, st)
    {
      assert InStatus(part, st) == set u | u in batch && rows[u].status == st;
    }
    CountsAddUp(part);
    assert after.Get(Pending) == after.pending && after.Get(Accepted) == after.accepted;
    assert after.Get(Rejected) == after.rejected && after.Get(Removed) == after.removed;
  }

  class Namespace {
    const tenant: string
    var rows: Rows
    var counts: Counts
    var keys: map<string, InstallKey>
    var legacyKey: Option<string>
    var pairingKey: Option<string>
    var maxDevices: int

    /** How far a counter is from the number of rows in its status. */
    function Drift(st: Status): int
      reads this`rows, this`counts
    {
      counts.Get(st) - Count(rows, st)
    }

    function Drifts(): Counts
      reads this`rows, this`counts
    {
      Counts(Drift(Pending), Drift(Accepted), Drift(Rejected), Drift(Removed))
    }

    ghost predicate Counted()
      reads this`rows, this`counts
    {
      forall st :: Drift(st) == 0
    }

    function Reg(): Registry
      reads this
    {
      Registry(tenant, rows, keys, legacyKey, pairingKey, maxDevices, Drift(Accepted))
    }

    /** Lookups by MAC or name have one possible answer. */
    ghost predicate Unique()
      reads this`rows
    {
      UniqueMacs(rows) && UniqueNames(rows)
    }

    constructor (tenant: string, maxDevices: int)
      ensures Reg() == Registry(tenant, map[], map[], None, None, maxDevices, 0)
      ensures Counted() && Core(Reg()) && Marked(rows)
    {
      this.tenant := tenant;
      this.rows := map[];
      this.counts := Counts(0, 0, 0, 0);
      this.keys := map[];
      this.legacyKey := None;
      this.pairingKey := None;
      this.maxDevices := maxDevices;
    }

    method AcceptedByMac(mac: string) returns (h: Option<Uid>)
      ensures h.Some? ==> HoldsMac(rows, h.value, mac)
      ensures h.None? ==> MacHolder(rows, mac).None?
      ensures UniqueMacs(rows) ==> h == MacHolder(rows, mac)
    {
      h := None;
      if u :| u in rows && rows[u].status == Accepted && rows[u].mac == mac {
        assert HoldsMac(rows, u, mac);
        h := Some(u);
      }
    }

    method AcceptedByName(name: string) returns (h: Option<Uid>)
      ensures h.Some? ==> HoldsName(rows, h.value, name)
      ensures h.None? ==> NameHolder(rows, name).None?
      ensures UniqueNames(rows) ==> h == NameHolder(rows, name)
    {
      h := None;
      if u :| u in rows && rows[u].status == Accepted && rows[u].name == name {
        assert HoldsName(rows, u, name);
        h := Some(u);
      }
    }

    /** Renames the new row after the old one, deletes the old one and takes it off its counter. */
    method MergeDevice(o: Uid, u: Uid) returns (device: Device)
      requires o in rows && u in rows && o != u && rows[o].status == Accepted && rows[u].status != Accepted
      modifies this`rows, this`counts
      ensures device == old(rows[u].(name := rows[o].name))
      ensures rows == old((rows - {o})[u := rows[u].(name := rows[o].name)])
      ensures forall st :: Drift(st) == old(Drift(st))
    {
      device := rows[u].(name := rows[o].name);
      var oldStatus := rows[o].status;
      ghost var rows0 := rows;
      rows := rows[u := device];
      rows := rows - {o};
      counts := counts.Bump(oldStatus, -1);
      forall st
        ensures Count(rows, st) == Count(rows0, st) - One(st == Accepted)
      {
        CountPut(rows0, u, device, st);
        CountDrop(rows0[u := device], o, st);
      }
    }

    /** Writes the row with its new status, then moves one unit between the two counters in either order. */
    method WriteStatus(u: Uid, device: Device, newStatus: Status)
      requires u in rows && rows[u].status == device.status && newStatus != device.status
      modifies this`rows, this`counts
      ensures rows == old(rows)[u := device.(status := newStatus)]
      ensures forall st :: Drift(st) == old(Drift(st))
    {
      var deltas := map[device.status := -1, newStatus := 1];
      ghost var counts0 := counts;
      ghost var rows0 := rows;
      rows := rows[u := device.(status := newStatus)];
      var todo := deltas.Keys;
      while todo != {}
        invariant todo <= deltas.Keys && rows == rows0[u := device.(status := newStatus)]
        invariant forall st :: counts.Get(st) == counts0.Get(st) + (if st in deltas && st !in todo then deltas[st] else 0)
        decreases todo
      {
        var st :| st in todo;
        counts := counts.Bump(st, deltas[st]);
        todo := todo - {st};
      }
      forall st
        ensures Drift(st) == counts0.Get(st) - Count(rows0, st)
      {
        CountPut(rows0, u, device.(status := newStatus), st);
      }
    }

    /** The checks an accept has to pass, and the merge when an accepted row has the same MAC. */
    method CheckAndMerge(u: Uid, w: World) returns (outcome: Outcome, device: Device)
      requires u in rows && rows[u].status != Accepted
      modifies this`rows, this`counts
      ensures forall st :: Drift(st) == old(Drift(st))
      ensures outcome != Ok ==> rows == old(rows)
      ensures outcome == Ok ==> u in rows && rows[u] == device && device.status == old(rows[u].status)
      ensures old(Unique()) ==> outcome == AcceptCheck(old(Reg()), u, w)
      ensures old(Unique()) && outcome == Ok ==> rows[u := device.(status := Accepted)] == AcceptRows(old(rows), u)
    {
      device := rows[u];
      var byMac := AcceptedByMac(device.mac);
      var byName := AcceptedByName(device.name);
      if byMac.Some? && byMac.value != u {
        if byName.Some? && rows[byName.value].mac != device.mac {
          return Duplicated, device;
        }
        if !w.hookOk {
          return HookFailed, device;
        }
        device := MergeDevice(byMac.value, u);
        outcome := Ok;
      } else {
        if byName.Some? {
          return Duplicated, device;
        }
        outcome := ValidateAcceptance(maxDevices, counts.accepted, w);
      }
    }

    method UpdateDeviceStatus(u: Uid, newStatus: Status, w: World) returns (outcome: Outcome)
      modifies this`rows, this`counts
      ensures forall st :: Drift(st) == old(Drift(st))
      ensures outcome != Ok ==> rows == old(rows)
      ensures outcome == Ok ==> u in rows && rows[u].status == newStatus
      ensures old(Unique() && u in rows && rows[u].status != Accepted) && newStatus == Accepted ==>
                (outcome == Ok <==> Acceptable(old(Reg()), old(rows[u].mac), old(rows[u].name), w))
      ensures old(Unique()) ==> outcome == StatusOutcome(old(Reg()), u, newStatus, w)
      ensures old(Unique()) ==> Reg() == UpdateStatus(old(Reg()), u, newStatus, w)
    {
      if u !in rows {
        return NotFound;
      }
      var device := rows[u];
      if device.status == Accepted {
        return AlreadyAccepted;
      }
      if newStatus == device.status {
        return Ok;
      }
      if newStatus == Accepted {
        ghost var unique := Unique();
        if unique {
          AcceptGoesThroughIff(Reg(), u, w);
        }
        outcome, device := CheckAndMerge(u, w);
        if outcome != Ok {
          return;
        }
      }
      WriteStatus(u, device, newStatus);
      outcome := Ok;
    }

    method DeleteDevice(u: Uid, now: int) returns (found: bool)
      modifies this`rows, this`counts
      ensures found == (u in old(rows))
      ensures Reg() == DeviceRuns.DeleteDevice(old(Reg()), u, now)
      ensures forall st :: Drift(st) == old(Drift(st))
    {
      if u !in rows {
        return false;
      }
      var device := rows[u];
      ghost var rows0 := rows;
      if device.status == Accepted {
        rows := rows[u := device.(status := Removed, removedAt := Some(now))];
        counts := counts.Bump(Removed, 1);
        forall st { CountPut(rows0, u, device.(status := Removed, removedAt := Some(now)), st); }
      } else {
        rows := rows - {u};
        forall st { CountDrop(rows0, u, st); }
      }
      counts := counts.Bump(device.status, -1);
      found := true;
    }

    method RenameDevice(u: Uid, name: string)
      modifies this`rows
      ensures Reg() == DeviceRuns.RenameDevice(old(Reg()), u, name)
      ensures forall st :: Drift(st) == old(Drift(st))
    {
      if u in rows && !EqualFold(rows[u].name, name) {
        ghost var rows0 := rows;
        forall st { CountPut(rows0, u, rows0[u].(name := Lower(name)), st); }
        rows := rows[u := rows[u].(name := Lower(name))];
      }
    }

    method UpdateDevice(u: Uid, name: string)
      modifies this`rows
      ensures Reg() == DeviceRuns.UpdateDeviceName(old(Reg()), u, name)
      ensures forall st :: Drift(st) == old(Drift(st))
    {
      if u in rows && name != "" && !EqualFold(rows[u].name, name) {
        var holder := AcceptedByName(Lower(name));
        if Lower(name) == rows[u].name || holder.None? {
          ghost var rows0 := rows;
          forall st { CountPut(rows0, u, rows0[u].(name := Lower(name)), st); }
          rows := rows[u := rows[u].(name := Lower(name))];
        }
      }
    }

    /** InstallKeyIncrementUsage: one guarded statement. */
    method ReserveUse(k: Option<string>) returns (ok: bool)
      requires KnownKey(Reg(), k)
      modifies this`keys
      ensures ok == CanReserve(old(Reg()), k)
      ensures Reg() == if ok then Reserve(old(Reg()), k) else old(Reg())
    {
      ok := true;
      if k.Some? {
        if !keys[k.value].HasRoom() {
          return false;
        }
        keys := keys[k.value := keys[k.value].(usedTimes := keys[k.value].usedTimes + 1)];
      }
    }

    /** InstallKeyDecrementUsage: never drives the count below zero. */
    method ReleaseUse(k: Option<string>)
      requires KnownKey(Reg(), k)
      modifies this`keys
      ensures Reg() == Release(old(Reg()), k)
    {
      if k.Some? && keys[k.value].usedTimes > 0 {
        keys := keys[k.value := keys[k.value].(usedTimes := keys[k.value].usedTimes - 1)];
      }
    }

    method ApplyEnrollmentDecision(decision: Decision, k: Option<string>, u: Uid, w: World) returns (status: Status)
      requires KnownKey(Reg(), k)
      modifies this`rows, this`counts, this`keys
      ensures forall st :: Drift(st) == old(Drift(st))
      ensures status == Pending ==> Reg() == old(Reg())
      ensures status != Pending ==> u in rows && rows[u].status == status
      ensures old(Unique()) ==> (Reg(), status) == ApplyDecision(old(Reg()), decision, k, u, w)
    {
      match decision
      case Accept =>
        var reserved := ReserveUse(k);
        if !reserved {
          return Pending;
        }
        var outcome := UpdateDeviceStatus(u, Accepted, w);
        if outcome != Ok {
          ReleaseUndoesReserve(old(Reg()), k);
          ReleaseUse(k);
          return Pending;
        }
        status := Accepted;
      case Reject =>
        var outcome := UpdateDeviceStatus(u, Rejected, w);
        status := if outcome == Ok then Rejected else Pending;
      case LeavePending =>
        status := Pending;
    }

    /** DeviceUpdate of a copy whose status is the stored one: no counter is owed anything. */
    method WriteBack(u: Uid, device: Device)
      requires u in rows && rows[u].status == device.status
      modifies this`rows
      ensures rows == old(rows)[u := device]
      ensures forall st :: Drift(st) == old(Drift(st))
    {
      ghost var rows0 := rows;
      rows := rows[u := device];
      forall st { CountPut(rows0, u, device, st); }
    }

    method EnrolNew(u: Uid, name: string, k: Option<string>, paired: bool, w: World) returns (status: Status)
      requires KnownKey(Reg(), k) && u !in rows
      modifies this`rows, this`counts, this`keys
      ensures forall st :: Drift(st) == old(Drift(st))
      ensures old(Unique()) ==> (Reg(), status) == Enrol(old(Reg()), u, name, k, paired, w)
    {
      ghost var rows0 := rows;
      var device := NewDevice(name, u.mac, k);
      rows := rows[u := device];
      counts := counts.Bump(device.status, 1);
      forall st { CountPut(rows0, u, device, st); }
      assert forall st :: Drift(st) == old(Drift(st));
      assert forall v | IsAccepted(rows, v) :: IsAccepted(rows0, v) && rows[v] == rows0[v];
      var decision := EvaluateEnrollment(KeyOf(Reg(), k), u.mac, w.webhook, paired);
      status := ApplyEnrollmentDecision(decision, k, u, w);
    }

    /** Applies the decision to the stored pending row and writes the caller's copy back over it. */
    method SettleRow(u: Uid, device: Device, decision: Decision, k: Option<string>, w: World) returns (status: Status)
      requires KnownKey(Reg(), k) && u in rows && rows[u].status == Pending
      modifies this`rows, this`counts, this`keys
      ensures forall st :: Drift(st) == old(Drift(st))
      ensures old(Unique()) ==> (Reg(), status) == Settle(old(Reg()), u, device, decision, k, w)
    {
      status := ApplyEnrollmentDecision(decision, k, u, w);
      WriteBack(u, device.(status := status));
    }

    /** Writes a row as pending and takes one unit from the removed counter, whatever status the row had. */
    method UnremoveRow(u: Uid, device: Device)
      requires u in rows && device.status == Pending
      modifies this`rows, this`counts
      ensures rows == old(rows)[u := device]
      ensures forall st :: Drift(st) == old(Drift(st) + One(st == rows[u].status)) - One(st == Removed)
      ensures old(Unique()) ==> Unique()
    {
      ghost var rows0 := rows;
      counts := counts.Bump(Removed, -1);
      counts := counts.Bump(Pending, 1);
      rows := rows[u := device];
      forall st { CountPut(rows0, u, device, st); }
      assert forall v | IsAccepted(rows, v) :: IsAccepted(rows0, v) && rows[v] == rows0[v];
    }

    /**
     * Re-registers a row marked removed. The removed counter gives a unit to the pending counter whatever
     * status the row really had, so the drift is kept only if that status was removed. The pending row is
     * in the store before an accept or a reject looks at it.
     */
    method ReRegisterRow(u: Uid, k: Option<string>, paired: bool, w: World) returns (status: Status)
      requires KnownKey(Reg(), k) && u in rows
      modifies this`rows, this`counts, this`keys
      ensures forall st :: Drift(st) == old(Drift(st) + One(st == rows[u].status)) - One(st == Removed)
      ensures old(Unique()) ==> (Reg(), status) == ReRegister(old(Reg()), u, k, paired, w)
    {
      var device := BackToPending(rows[u], k);
      var decision := EvaluateEnrollment(KeyOf(Reg(), k), u.mac, w.webhook, paired);
      UnremoveRow(u, device);
      status := SettleRow(u, device, decision, k, w);
    }

    method ReconcileEnrollment(u: Uid, w: World) returns (status: Status)
      requires u in rows && rows[u].status == Pending && Reconcilable(Reg(), rows[u], w.now)
      modifies this`rows, this`counts, this`keys
      ensures forall st :: Drift(st) == old(Drift(st))
      ensures old(Unique()) ==> (Reg(), status) == Reconcile(old(Reg()), u, w)
    {
      var device := rows[u];
      var k := Some(device.keyId);
      var decision := EvaluateEnrollment(KeyOf(Reg(), k), u.mac, w.webhook, false);
      status := SettleRow(u, device.(lastAttempt := Some(w.now)), decision, k, w);
    }

    /** The status of a row that AuthDevice will re-register although it is not removed. */
    ghost function Mismarked(r: Registry, req: AuthRequest, paired: bool, now: int): Option<Status> {
      if Unidentified(req).Some? || UidOf(r, req) !in r.rows || r.rows[UidOf(r, req)].removedAt.None?
         || r.rows[UidOf(r, req)].status == Removed || EnrollmentKey(r, req.installKey, paired, now).KeyRefused?
      then None
      else Some(r.rows[UidOf(r, req)].status)
    }

    method AuthDevice(req: AuthRequest, paired: bool, w: World) returns (reply: AuthReply)
      modifies this`rows, this`counts, this`keys
      ensures var m := old(Mismarked(Reg(), req, paired, w.now));
              forall st :: Drift(st) == old(Drift(st)) + (if m.Some? then One(st == m.value) - One(st == Removed) else 0)
      ensures old(Unique()) ==> (Reg(), reply) == Enrollment.AuthDevice(old(Reg()), req, paired, w)
    {
      if Unidentified(req).Some? {
        return Refused(Unidentified(req).value);
      }
      var u := UidOf(Reg(), req);
      var status: Status;
      if Enrolling(Reg(), u) {
        var choice := EnrollmentKey(Reg(), req.installKey, paired, w.now);
        if choice.KeyRefused? {
          return Refused(choice.error);
        }
        if u !in rows {
          var name := Lower(DeviceHostname(req.hostname, req.identity.value));
          status := EnrolNew(u, name, choice.id, paired, w);
          return Authenticated(u, name, status);
        }
        var name := rows[u].name;
        status := ReRegisterRow(u, choice.id, paired, w);
        return Authenticated(u, name, status);
      }
      var device := rows[u];
      status := device.status;
      if device.status == Pending && Reconcilable(Reg(), device, w.now) {
        status := ReconcileEnrollment(u, w);
      }
      return Authenticated(u, device.name, status);
    }

    /** acceptPairingDevice. */
    method AcceptPairingDevice(req: AuthRequest, w: World, later: World) returns (accepted: bool)
      requires Core(Reg())
      modifies this`rows, this`counts, this`keys
      ensures (Reg(), accepted) == DeviceRuns.AcceptPairing(old(Reg()), req, w, later)
      ensures var m := old(Mismarked(Reg(), req.(installKey := None), true, w.now));
              forall st :: Drift(st) == old(Drift(st)) + (if m.Some? then One(st == m.value) - One(st == Removed) else 0)
    {
      var first := req.(installKey := None);
      AuthKeepsCore(Reg(), first, true, w);
      var reply := AuthDevice(first, true, w);
      if reply.Refused? {
        return false;
      }
      var outcome := UpdateDeviceStatus(reply.uid, Accepted, later);
      accepted := outcome == Ok || outcome == AlreadyAccepted;
    }

    /**
     * deviceCleanup: deletes a batch of rows marked removed long ago and takes its size off one counter. Each
     * counter drifts by the rows of the batch it stood for and did not give up, so by nothing if all were removed.
     */
    method CleanupRemoved(batch: set<Uid>, cutoff: int)
      requires batch == DeviceRuns.Expired(rows, batch, cutoff)
      modifies this`rows, this`counts
      ensures rows == old(rows) - batch
      ensures forall st ::
                Drift(st) == old(Drift(st)) + Share(old(rows), batch, st) - (if st == Removed then |batch| else 0)
      ensures old(Marked(rows)) ==> forall st :: Drift(st) == old(Drift(st))
    {
      ghost var rows0 := rows;
      rows := rows - batch;
      counts := counts.Bump(Removed, 0 - |batch|);
      forall st { CountDropMany(rows0, batch, st); }
      if Marked(rows0) {
        forall st
          ensures Share(rows0, batch, st) == if st == Removed then |batch| else 0
        {
          var gone := set u | u in batch && rows0[u].status == st;
          assert gone == if st == Removed then batch else {};
        }
      }
    }

    /** ephemeralCleanup: deletes a batch in any statuses and takes each status's share off its own counter. */
    method CleanupEphemeral(batch: set<Uid>)
      requires batch <= rows.Keys
      modifies this`rows, this`counts
      ensures rows == old(rows) - batch
      ensures forall st :: Drift(st) == old(Drift(st))
    {
      ghost var counts0 := counts;
      var rows0 := rows;
      rows := rows - batch;
      var todo := {Pending, Accepted, Rejected, Removed};
      assert forall st: Status :: st.Pending? || st.Accepted? || st.Rejected? || st.Removed?;
      while todo != {}
        invariant rows == rows0 - batch
        invariant forall st :: counts.Get(st) == counts0.Get(st) - (if st in todo then 0 else Share(rows0, batch, st))
        decreases todo
      {
        var st :| st in todo;
        counts := counts.Bump(st, 0 - Share(rows0, batch, st));
        todo := todo - {st};
      }
      forall st { CountDropMany(rows0, batch, st); }
    }

    /** NamespaceSyncDeviceCounts: recounts everything, which finds nothing to correct while drift is zero. */
    method SyncDeviceCounts()
      modifies this`counts
      ensures Counted()
      ensures old(Counted()) ==> counts == old(counts)
    {
      counts := Counts(Count(rows, Pending), Count(rows, Accepted), Count(rows, Rejected), Count(rows, Removed));
      assert forall st :: counts.Get(st) == Count(rows, st);
      assert old(Drift(Pending) == 0 && Drift(Accepted) == 0 && Drift(Rejected) == 0 && Drift(Removed) == 0)
             ==> counts == old(counts);
    }

    /** What the four drifts say of each counter. */
    lemma DriftsTell()
      ensures Drifts() == Counts(0, 0, 0, 0) <==> Counted()
      ensures forall st :: Drifts().Get(st) == Drift(st)
    {}

    /** What is left of exact counters once units have leaked from removed to other statuses. */
    ghost predicate Leaning()
      reads this`rows, this`counts
    {
      && counts.Sum() == |rows| && counts.removed <= Count(rows, Removed)
      && (forall st | st != Removed :: counts.Get(st) >= Count(rows, st))
    }

    lemma DriftsLean()
      requires Counts(0, 0, 0, 0).LeansTo(Drifts())
      ensures Leaning()
    {
      CountsAddUp(rows);
    }

    method CreateInstallKey(key: string, k: InstallKey)
      modifies this`keys
      ensures Reg() == DeviceRuns.CreateInstallKey(old(Reg()), key, k)
    {
      if key !in keys && k.keyType == User && k.usedTimes == 0 {
        keys := keys[key := k];
      }
    }

    method UpdateInstallKey(key: string, e: KeyEdit)
      modifies this`keys
      ensures Reg() == DeviceRuns.UpdateInstallKey(old(Reg()), key, e)
    {
      if key in keys {
        var edited := EditKey(keys[key], e);
        if edited.Some? {
          keys := keys[key := edited.value];
        }
      }
    }

    method PerformAuth(req: AuthRequest, w: World)
      requires Core(Reg())
      modifies this`rows, this`counts, this`keys
      ensures Reg() == Enrollment.AuthDevice(old(Reg()), req, false, w).0
      ensures old(Drifts()).LeansTo(Drifts())
      ensures old(Marked(rows)) ==> Drifts() == old(Drifts())
    {
      ghost var m := Mismarked(Reg(), req, false, w.now);
      var _ := AuthDevice(req, false, w);
      if m.Some? {
        OneUnitLeans(old(Drifts()), Drifts(), m.value);
      }
    }

    method PerformPairing(req: AuthRequest, w: World, later: World)
      requires Core(Reg())
      modifies this`rows, this`counts, this`keys
      ensures Reg() == DeviceRuns.AcceptPairing(old(Reg()), req, w, later).0
      ensures old(Drifts()).LeansTo(Drifts())
      ensures old(Marked(rows)) ==> Drifts() == old(Drifts())
    {
      ghost var m := Mismarked(Reg(), req.(installKey := None), true, w.now);
      var _ := AcceptPairingDevice(req, w, later);
      if m.Some? {
        OneUnitLeans(old(Drifts()), Drifts(), m.value);
      }
    }

    method PerformSweeps(op: DeviceRuns.Op)
      requires op.SweepRemoved? || op.SweepEphemeral?
      modifies this`rows, this`counts
      ensures Reg() == DeviceRuns.Step(old(Reg()), op)
      ensures old(Drifts()).LeansTo(Drifts())
      ensures old(Marked(rows)) ==> Drifts() == old(Drifts())
    {
      if op.SweepRemoved? {
        var gone := DeviceRuns.Expired(rows, op.batch, op.cutoff);
        CleanupRemoved(gone, op.cutoff);
        BatchLeans(old(rows), gone, old(Drifts()), Drifts());
      } else {
        CleanupEphemeral(set u | u in op.batch && u in rows);
        assert rows == old(rows) - op.batch;
      }
    }

    /**
     * Any call ends where its row-level step ends, moves drift from the removed counter to others if it moves
     * it at all, and does not move it while marks agree with statuses.
     */
    method Perform(op: DeviceRuns.Op)
      requires Core(Reg())
      modifies this`rows, this`counts, this`keys
      ensures Reg() == DeviceRuns.Step(old(Reg()), op)
      ensures old(Drifts()).LeansTo(Drifts())
      ensures old(Marked(rows)) ==> Drifts() == old(Drifts())
    {
      match op
      case Auth(req, w) => PerformAuth(req, w);
      case PairingAccept(req, w, later) => PerformPairing(req, w, later);
      case SetStatus(u, st, w) => var _ := UpdateDeviceStatus(u, st, w);
      case Delete(u, now) => var _ := DeleteDevice(u, now);
      case Rename(u, name) => RenameDevice(u, name);
      case UpdateName(u, name) => UpdateDevice(u, name);
      case SweepRemoved(_, _) => PerformSweeps(op);
      case SweepEphemeral(_) => PerformSweeps(op);
      case CreateKey(key, k) => CreateInstallKey(key, k);
      case EditKey(key, e) => UpdateInstallKey(key, e);
    }

    /**
     * Every run whose renames are safe ends where the row-level run ends, so accepted devices share neither
     * MAC nor name and stay within the ceiling although only a counter is checked. If the counters were right
     * at the start they always add up to the number of rows, pending, accepted and rejected never undercount
     * and removed never overcounts; and in careful runs every counter stays right.
     */
    method Serve(ops: seq<DeviceRuns.Op>)
      requires Core(Reg()) && DeviceRuns.AllSafe(Reg(), ops)
      modifies this`rows, this`counts, this`keys
      ensures Reg() == DeviceRuns.Run(old(Reg()), ops) && Core(Reg())
      ensures old(Counted()) ==> Leaning()
      ensures old(Counted() && Marked(rows) && DeviceRuns.AllCareful(Reg(), ops)) ==> Counted() && Marked(rows)
    {
      var rest := ops;
      ghost var careful := Marked(rows) && DeviceRuns.AllCareful(Reg(), ops);
      DriftsTell();
      while rest != []
        invariant Core(Reg()) && DeviceRuns.AllSafe(Reg(), rest)
        invariant DeviceRuns.Run(Reg(), rest) == DeviceRuns.Run(old(Reg()), ops)
        invariant old(Drifts()).LeansTo(Drifts())
        invariant careful ==> Marked(rows) && DeviceRuns.AllCareful(Reg(), rest) && Drifts() == old(Drifts())
        decreases |rest|
      {
        DeviceRuns.StepKeepsCore(Reg(), rest[0]);
        if careful {
          DeviceRuns.StepKeepsMark(Reg(), rest[0]);
        }
        Perform(rest[0]);
        rest := rest[1..];
      }
      DriftsTell();
      if old(Counted()) {
        DriftsLean();
      }
    }
  }
}
