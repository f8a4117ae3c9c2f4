/**
 * Pre-authorised pairing codes. Claims run side by side over a cache whose entries expire: read the code,
 * reserve it with SetNX, accept the device, then write the outcome or release the reservation. People
 * accept agent-minted codes meanwhile. Each cache or store call is one step, any two calls may have any
 * other steps between them, time passes at will, and a call may stop for good after any step.
 */
module Pairing {
  import opened Prelude

  const TTL: int := 10 * MINUTE

  /** publicKey is "" until a device is known; preauth is the namespace a pre-authorised code enrols into. */
  datatype Record = Record(preauth: Option<string>, publicKey: string, expires: int)

  datatype Reservation = Reservation(publicKey: string, expires: int)

  datatype Call =
    | Reading(code: string, publicKey: string, tenant: string, seenUntil: int)
    | Reserved(code: string, publicKey: string, tenant: string)
    | Accepted(code: string, publicKey: string, tenant: string)
    | Releasing(code: string)
    | UserAccepting(code: string, publicKey: string, tenant: string)
    | UserStoring(code: string, publicKey: string)

  /** How a code came to be: prepared for a namespace, good until deadline, or minted for an agent's key. */
  datatype Origin = Prepared(tenant: string, deadline: int) | ForAgent

  /** A device accepted on the strength of a code. */
  datatype Enrolled = Enrolled(code: string, publicKey: string, tenant: string)

  datatype State = State(
    now: int,
    codes: map<string, Record>,
    claims: map<string, Reservation>,
    calls: map<nat, Call>,
    minted: map<string, Origin>,
    enrolled: set<Enrolled>
  )

  const START := State(0, map[], map[], map[], map[], {})

  datatype Step =
    | Tick(delay: nat)
    | Prepare(code: string, tenant: string)
    | CreateForAgent(code: string, publicKey: string)
    | ClaimGet(id: nat, code: string, publicKey: string)
    | ClaimReserve(id: nat)
    | ClaimAccept(id: nat, ok: bool)
    | ClaimRelease(id: nat, ok: bool)
    | ClaimStore(id: nat, ok: bool)
    | UserGet(id: nat, code: string, tenant: string)
    | UserAccept(id: nat, ok: bool)
    | UserStore(id: nat, ok: bool)

  predicate LiveCode(s: State, code: string) {
    code in s.codes && s.now < s.codes[code].expires
  }

  predicate LiveClaim(s: State, code: string) {
    code in s.claims && s.now < s.claims[code].expires
  }

  /** Codes are fresh when minted; a call goes through its steps in order. */
  predicate Enabled(s: State, step: Step) {
    match step
    case Tick(_) => true
    case Prepare(code, _) => code !in s.minted
    case CreateForAgent(code, publicKey) => code !in s.minted && publicKey != ""
    case ClaimGet(id, _, publicKey) => id !in s.calls && publicKey != ""
    case ClaimReserve(id) => id in s.calls && s.calls[id].Reading?
    case ClaimAccept(id, _) => id in s.calls && s.calls[id].Reserved?
    case ClaimRelease(id, _) => id in s.calls && s.calls[id].Releasing?
    case ClaimStore(id, _) => id in s.calls && s.calls[id].Accepted?
    case UserGet(id, _, _) => id !in s.calls
    case UserAccept(id, _) => id in s.calls && s.calls[id].UserAccepting?
    case UserStore(id, _) => id in s.calls && s.calls[id].UserStoring?
  }

  function Finish(s: State, id: nat): State {
    s.(calls := s.calls - {id})
  }

  function Apply(s: State, step: Step): State
    requires Enabled(s, step)
  {
    match step
    case Tick(delay) => s.(now := s.now + delay)
    case Prepare(code, tenant) =>
      s.(codes := s.codes[code := Record(Some(tenant), "", s.now + TTL)],
         minted := s.minted[code := Prepared(tenant, s.now + TTL)])
    case CreateForAgent(code, publicKey) =>
      s.(codes := s.codes[code := Record(None, publicKey, s.now + TTL)], minted := s.minted[code := ForAgent])
    case ClaimGet(id, code, publicKey) =>
      // Only an unclaimed pre-authorised code goes on; a claimed one just reports its outcome.
      if LiveCode(s, code) && s.codes[code].preauth.Some? && s.codes[code].publicKey == "" then
        s.(calls := s.calls[id := Reading(code, publicKey, s.codes[code].preauth.value, s.codes[code].expires)])
      else s
    case ClaimReserve(id) =>
      var c := s.calls[id];
      if LiveClaim(s, c.code) then Finish(s, id)
      else s.(claims := s.claims[c.code := Reservation(c.publicKey, s.now + TTL)],
              calls := s.calls[id := Reserved(c.code, c.publicKey, c.tenant)])
    case ClaimAccept(id, ok) =>
      var c := s.calls[id];
      if ok then s.(enrolled := s.enrolled + {Enrolled(c.code, c.publicKey, c.tenant)},
                    calls := s.calls[id := Accepted(c.code, c.publicKey, c.tenant)])
      else s.(calls := s.calls[id := Releasing(c.code)])
    case ClaimRelease(id, ok) =>
      Finish(if ok then s.(claims := s.claims - {s.calls[id].code}) else s, id)
    case ClaimStore(id, ok) =>
      var c := s.calls[id];
      Finish(if ok then s.(codes := s.codes[c.code := Record(Some(c.tenant), c.publicKey, s.now + TTL)]) else s, id)
    case UserGet(id, code, tenant) =>
      if LiveCode(s, code) && s.codes[code].publicKey != "" && s.codes[code].preauth.None? then
        s.(calls := s.calls[id := UserAccepting(code, s.codes[code].publicKey, tenant)])
      else s
    case UserAccept(id, ok) =>
      var c := s.calls[id];
      if ok then s.(enrolled := s.enrolled + {Enrolled(c.code, c.publicKey, c.tenant)},
                    calls := s.calls[id := UserStoring(c.code, c.publicKey)])
      else Finish(s, id)
    case UserStore(id, ok) =>
      var c := s.calls[id];
      Finish(if ok then s.(codes := s.codes[c.code := Record(None, c.publicKey, s.now + TTL)]) else s, id)
  }

  function Run(s: State, steps: seq<Step>): State
    decreases |steps|
  {
    if steps == [] then s
    else Run(if Enabled(s, steps[0]) then Apply(s, steps[0]) else s, steps[1..])
  }

  // ---------------------------------------------------------------------------------------------
  // What calls and records owe to their codes
  // ---------------------------------------------------------------------------------------------

  predicate IsPrepared(minted: map<string, Origin>, code: string, tenant: string) {
    code in minted && minted[code].Prepared? && minted[code].tenant == tenant
  }

  predicate IsForAgent(minted: map<string, Origin>, code: string) {
    code in minted && minted[code].ForAgent?
  }

  /** A code entry keeps the origin of its code, and an unclaimed one lasts exactly to its deadline. */
  predicate RecordSound(minted: map<string, Origin>, code: string, r: Record) {
    match r.preauth
    case Some(t) => IsPrepared(minted, code, t) && (r.publicKey == "" ==> r.expires == minted[code].deadline)
    case None => IsForAgent(minted, code) && r.publicKey != ""
  }

  ghost predicate CodesFaithful(s: State) {
    forall code | code in s.codes :: RecordSound(s.minted, code, s.codes[code])
  }

  predicate CallSound(minted: map<string, Origin>, enrolled: set<Enrolled>, c: Call) {
    match c
    case Reading(code, pk, t, until) => IsPrepared(minted, code, t) && until == minted[code].deadline && pk != ""
    case Reserved(code, pk, t) => IsPrepared(minted, code, t) && pk != ""
    case Accepted(code, pk, t) => IsPrepared(minted, code, t) && pk != "" && Enrolled(code, pk, t) in enrolled
    case Releasing(code) => code in minted && minted[code].Prepared?
    case UserAccepting(code, pk, _) => IsForAgent(minted, code) && pk != ""
    case UserStoring(code, pk) => IsForAgent(minted, code) && pk != ""
  }

  ghost predicate CallsFaithful(s: State) {
    forall id | id in s.calls :: CallSound(s.minted, s.enrolled, s.calls[id])
  }

  predicate EnrolledInTenant(minted: map<string, Origin>, e: Enrolled) {
    e.code in minted && (minted[e.code].Prepared? ==> e.tenant == minted[e.code].tenant)
  }

  ghost predicate Faithful(s: State) {
    && CodesFaithful(s) && CallsFaithful(s)
    && (forall e | e in s.enrolled :: EnrolledInTenant(s.minted, e))
  }

  /** The step belongs to a call that is under way. */
  predicate Continues(step: Step) {
    || step.ClaimReserve? || step.ClaimAccept? || step.ClaimRelease? || step.ClaimStore?
    || step.UserAccept? || step.UserStore?
  }

  lemma StepKeepsCodesFaithful(s: State, step: Step)
    requires Faithful(s) && Enabled(s, step)
    ensures CodesFaithful(Apply(s, step))
  {
    if Continues(step) {
      assert CallSound(s.minted, s.enrolled, s.calls[step.id]);
    }
  }

  lemma StepKeepsCallsFaithful(s: State, step: Step)
    requires Faithful(s) && Enabled(s, step)
    ensures CallsFaithful(Apply(s, step))
  {
    if Continues(step) {
      assert CallSound(s.minted, s.enrolled, s.calls[step.id]);
    } else if (step.ClaimGet? || step.UserGet?) && LiveCode(s, step.code) {
      assert RecordSound(s.minted, step.code, s.codes[step.code]);
    }
  }

  lemma StepKeepsFaithful(s: State, step: Step)
    requires Faithful(s) && Enabled(s, step)
    ensures Faithful(Apply(s, step))
  {
    StepKeepsCodesFaithful(s, step);
    StepKeepsCallsFaithful(s, step);
    if step.ClaimAccept? || step.UserAccept? {
      assert CallSound(s.minted, s.enrolled, s.calls[step.id]);
    }
  }

  // ---------------------------------------------------------------------------------------------
  // What each step achieves
  // ---------------------------------------------------------------------------------------------

  lemma RunPrepends(s: State, step: Step, rest: seq<Step>)
    requires Enabled(s, step)
    ensures Run(s, [step] + rest) == Run(Apply(s, step), rest)
  {
    assert ([step] + rest)[1..] == rest;
  }

  /** A code can be claimed: its entry is live, pre-authorised and names no device yet. */
  predicate Claimable(s: State, code: string) {
    LiveCode(s, code) && s.codes[code].preauth.Some? && s.codes[code].publicKey == ""
  }

  /** A prepared code is claimable, and an agent's code live, for exactly the lifetime. */
  lemma MintedCodesLiveForTheTtl(s: State, code: string, owner: string, delay: nat)
    requires code !in s.minted && owner != ""
    ensures Claimable(Apply(Apply(s, Prepare(code, owner)), Tick(delay)), code) <==> delay < TTL
    ensures LiveCode(Apply(Apply(s, CreateForAgent(code, owner)), Tick(delay)), code) <==> delay < TTL
    ensures Apply(s, Prepare(code, owner)).codes[code].preauth == Some(owner)
    ensures Apply(s, CreateForAgent(code, owner)).codes[code].publicKey == owner
  {}

  /** A claim goes on exactly if the code can be claimed; otherwise nothing changes. */
  lemma ClaimGoesOnIff(s: State, id: nat, code: string, publicKey: string)
    requires Enabled(s, ClaimGet(id, code, publicKey))
    ensures var s' := Apply(s, ClaimGet(id, code, publicKey));
            if Claimable(s, code)
            then s' == s.(calls := s.calls[id := Reading(code, publicKey, s.codes[code].preauth.value, s.codes[code].expires)])
            else s' == s
  {}

  /** SetNX wins exactly if no reservation of the code is live, and then reserves it for the caller and the lifetime. */
  lemma ReserveWinsIff(s: State, id: nat)
    requires Enabled(s, ClaimReserve(id))
    ensures var c := s.calls[id];
            var s' := Apply(s, ClaimReserve(id));
            if c.code in s.claims && s.now < s.claims[c.code].expires
            then s' == s.(calls := s.calls - {id})
            else s' == s.(claims := s.claims[c.code := Reservation(c.publicKey, s.now + TTL)],
                          calls := s.calls[id := Reserved(c.code, c.publicKey, c.tenant)])
  {}

  /** Once a release has arrived, any call that waits on the code wins its SetNX, so a retry can proceed. */
  lemma ReleaseLetsARetryWin(s: State, id: nat, jd: nat)
    requires Enabled(s, ClaimRelease(id, true))
    requires jd in s.calls && s.calls[jd].Reading? && s.calls[jd].code == s.calls[id].code
    ensures var released := Apply(s, ClaimRelease(id, true));
            && id !in released.calls && !LiveClaim(released, s.calls[id].code)
            && Enabled(released, ClaimReserve(jd)) && Apply(released, ClaimReserve(jd)).calls[jd].Reserved?
  {}

  /** The steps of a claim that nothing stands in the way of. */
  function WholeClaim(id: nat, code: string, publicKey: string): seq<Step> {
    [ClaimGet(id, code, publicKey)] + ([ClaimReserve(id)] + ([ClaimAccept(id, true)] + [ClaimStore(id, true)]))
  }

  /**
   * A code that can be claimed and is not reserved can always be taken by a device with any key: the device is
   * enrolled into the code's tenant, the entry then names its key for another lifetime, and the code can be
   * claimed no more.
   */
  lemma FreeCodeCanBeTaken(s: State, id: nat, code: string, publicKey: string)
    requires Claimable(s, code) && !LiveClaim(s, code) && id !in s.calls && publicKey != ""
    ensures var tenant := s.codes[code].preauth.value;
            var end := Run(s, WholeClaim(id, code, publicKey));
            && end.enrolled == s.enrolled + {Enrolled(code, publicKey, tenant)}
            && end.codes == s.codes[code := Record(Some(tenant), publicKey, s.now + TTL)]
            && end.calls == s.calls && LiveClaim(end, code) && !Claimable(end, code)
  {
    var a := Apply(s, ClaimGet(id, code, publicKey));
    var b := Apply(a, ClaimReserve(id));
    var c := Apply(b, ClaimAccept(id, true));
    assert [ClaimStore(id, true)] == [ClaimStore(id, true)] + [];
    RunPrepends(c, ClaimStore(id, true), []);
    RunPrepends(b, ClaimAccept(id, true), [ClaimStore(id, true)]);
    RunPrepends(a, ClaimReserve(id), [ClaimAccept(id, true)] + [ClaimStore(id, true)]);
    RunPrepends(s, ClaimGet(id, code, publicKey), [ClaimReserve(id)] + ([ClaimAccept(id, true)] + [ClaimStore(id, true)]));
    assert s.calls[id := Reading(code, publicKey, "", 0)] - {id} == s.calls;
  }

  /** A refused claim whose release arrives leaves the code as free as it was, for this device or another. */
  lemma RefusedClaimCanBeRetried(s: State, id: nat, code: string, publicKey: string)
    requires Claimable(s, code) && !LiveClaim(s, code) && id !in s.calls && publicKey != ""
    ensures var tried := [ClaimGet(id, code, publicKey)]
                         + ([ClaimReserve(id)] + ([ClaimAccept(id, false)] + [ClaimRelease(id, true)]));
            var end := Run(s, tried);
            && Claimable(end, code) && !LiveClaim(end, code) && end.calls == s.calls && end.enrolled == s.enrolled
  {
    var a := Apply(s, ClaimGet(id, code, publicKey));
    var b := Apply(a, ClaimReserve(id));
    var c := Apply(b, ClaimAccept(id, false));
    assert [ClaimRelease(id, true)] == [ClaimRelease(id, true)] + [];
    RunPrepends(c, ClaimRelease(id, true), []);
    RunPrepends(b, ClaimAccept(id, false), [ClaimRelease(id, true)]);
    RunPrepends(a, ClaimReserve(id), [ClaimAccept(id, false)] + [ClaimRelease(id, true)]);
    RunPrepends(s, ClaimGet(id, code, publicKey), [ClaimReserve(id)] + ([ClaimAccept(id, false)] + [ClaimRelease(id, true)]));
    assert s.calls[id := Releasing(code)] - {id} == s.calls;
  }

  /** A user's accept goes on exactly with a live code that an agent minted; otherwise nothing changes. */
  lemma UserAcceptGoesOnIff(s: State, id: nat, code: string, tenant: string)
    requires Enabled(s, UserGet(id, code, tenant))
    ensures var s' := Apply(s, UserGet(id, code, tenant));
            if LiveCode(s, code) && s.codes[code].preauth.None? && s.codes[code].publicKey != ""
            then s' == s.(calls := s.calls[id := UserAccepting(code, s.codes[code].publicKey, tenant)])
            else s' == s
  {}

  /** Such an accept enrols the agent's key into the user's tenant and renews the code for the agent to poll. */
  lemma AgentCodeCanBeAccepted(s: State, id: nat, code: string, tenant: string)
    requires LiveCode(s, code) && s.codes[code].preauth.None? && s.codes[code].publicKey != "" && id !in s.calls
    ensures var key := s.codes[code].publicKey;
            var end := Run(s, [UserGet(id, code, tenant)] + ([UserAccept(id, true)] + [UserStore(id, true)]));
            && end.enrolled == s.enrolled + {Enrolled(code, key, tenant)}
            && end.codes == s.codes[code := Record(None, key, s.now + TTL)] && end.calls == s.calls
  {
    var a := Apply(s, UserGet(id, code, tenant));
    var b := Apply(a, UserAccept(id, true));
    assert [UserStore(id, true)] == [UserStore(id, true)] + [];
    RunPrepends(b, UserStore(id, true), []);
    RunPrepends(a, UserAccept(id, true), [UserStore(id, true)]);
    RunPrepends(s, UserGet(id, code, tenant), [UserAccept(id, true)] + [UserStore(id, true)]);
    assert s.calls[id := UserStoring(code, s.codes[code].publicKey)] - {id} == s.calls;
  }

  // ---------------------------------------------------------------------------------------------
  // Single use, and exactly what breaks it
  // ---------------------------------------------------------------------------------------------

  predicate ReservedBy(c: Call, code: string, publicKey: string) {
    c.Reserved? && c.code == code && c.publicKey == publicKey
  }

  predicate EnrolledBy(e: Enrolled, code: string, publicKey: string) {
    e.code == code && e.publicKey == publicKey
  }

  /** The key has enrolled through the code, or has a call that won the reservation and is about to. */
  ghost predicate Claimant(s: State, code: string, publicKey: string) {
    || (exists id :: id in s.calls && ReservedBy(s.calls[id], code, publicKey))
    || (exists e :: e in s.enrolled && EnrolledBy(e, code, publicKey))
  }

  ghost predicate OneKey(s: State) {
    forall code, p, q | code in s.minted && s.minted[code].Prepared? && Claimant(s, code, p) && Claimant(s, code, q) ::
      p == q
  }

  /** The call's SetNX wins although another key is a claimant. */
  ghost predicate Overtakes(s: State, id: nat)
    requires Enabled(s, ClaimReserve(id))
  {
    !LiveClaim(s, s.calls[id].code) && exists p :: p != s.calls[id].publicKey && Claimant(s, s.calls[id].code, p)
  }

  ghost predicate NoneOvertakes(s: State, steps: seq<Step>)
    decreases |steps|
  {
    steps == [] ||
    (if Enabled(s, steps[0]) then
       (steps[0].ClaimReserve? ==> !Overtakes(s, steps[0].id)) && NoneOvertakes(Apply(s, steps[0]), steps[1..])
     else NoneOvertakes(s, steps[1..]))
  }

  /** Through the code two keys have enrolled. */
  ghost predicate TwoKeys(s: State, code: string) {
    exists e, f :: e in s.enrolled && f in s.enrolled && e.code == f.code == code && e.publicKey != f.publicKey
  }

  /** Some run from here enrols two keys through the code, and overtakes nobody on the way. */
  ghost predicate CanEnrolTwo(s: State, code: string) {
    exists rest :: NoneOvertakes(s, rest) && TwoKeys(Run(s, rest), code)
  }

  /** A new claimant of a prepared code is one that has just won its reservation. */
  lemma ClaimantsComeFromReservations(s: State, step: Step, code: string, p: string)
    requires Faithful(s) && Enabled(s, step) && code in s.minted && s.minted[code].Prepared?
    requires Claimant(Apply(s, step), code, p)
    ensures || Claimant(s, code, p)
            || (step.ClaimReserve? && !LiveClaim(s, code)
                && s.calls[step.id].code == code && s.calls[step.id].publicKey == p)
  {
    var s' := Apply(s, step);
    if step.UserAccept? {
      assert CallSound(s.minted, s.enrolled, s.calls[step.id]);
      assert s.calls[step.id].code != code;
    } else if step.ClaimAccept? {
      assert ReservedBy(s.calls[step.id], s.calls[step.id].code, s.calls[step.id].publicKey);
    }
    if id :| id in s'.calls && ReservedBy(s'.calls[id], code, p) {
      assert id in s.calls;
    } else {
      var e :| e in s'.enrolled && EnrolledBy(e, code, p);
    }
  }

  lemma ClaimantsAreMinted(s: State, code: string, p: string)
    requires Faithful(s) && Claimant(s, code, p)
    ensures code in s.minted
  {
    if id :| id in s.calls && ReservedBy(s.calls[id], code, p) {
      assert CallSound(s.minted, s.enrolled, s.calls[id]);
    }
  }

  lemma StepKeepsOneKey(s: State, step: Step)
    requires Faithful(s) && OneKey(s) && Enabled(s, step)
    requires step.ClaimReserve? ==> !Overtakes(s, step.id)
    ensures OneKey(Apply(s, step))
  {
    var s' := Apply(s, step);
    forall code, p, q | code in s'.minted && s'.minted[code].Prepared? && Claimant(s', code, p) && Claimant(s', code, q)
      ensures p == q
    {
      if code in s.minted {
        ClaimantsComeFromReservations(s, step, code, p);
        ClaimantsComeFromReservations(s, step, code, q);
      } else {
        assert s'.calls == s.calls && s'.enrolled == s.enrolled;
        assert Claimant(s, code, p);
        ClaimantsAreMinted(s, code, p);
      }
    }
  }

  lemma {:induction false} RunKeepsOneKey(s: State, steps: seq<Step>)
    requires Faithful(s) && OneKey(s) && NoneOvertakes(s, steps)
    ensures Faithful(Run(s, steps)) && OneKey(Run(s, steps))
    decreases |steps|
  {
    if steps != [] {
      if Enabled(s, steps[0]) {
        StepKeepsFaithful(s, steps[0]);
        StepKeepsOneKey(s, steps[0]);
        RunKeepsOneKey(Apply(s, steps[0]), steps[1..]);
      } else {
        RunKeepsOneKey(s, steps[1..]);
      }
    }
  }

  /**
   * In every interleaving without overtaking, a code prepared for a namespace enrols at most one public key,
   * and only into that namespace, whether or not outcomes and releases reach the cache.
   */
  lemma PreparedCodeEnrolsOneKey(steps: seq<Step>, e: Enrolled, f: Enrolled)
    requires NoneOvertakes(START, steps)
    requires e in Run(START, steps).enrolled && f in Run(START, steps).enrolled && e.code == f.code
    ensures e.code in Run(START, steps).minted
    ensures Run(START, steps).minted[e.code].Prepared? ==>
              e.publicKey == f.publicKey && e.tenant == f.tenant == Run(START, steps).minted[e.code].tenant
  {
    RunKeepsOneKey(START, steps);
    var s := Run(START, steps);
    assert EnrolledInTenant(s.minted, e) && EnrolledInTenant(s.minted, f);
    assert EnrolledBy(e, e.code, e.publicKey) && EnrolledBy(f, e.code, f.publicKey);
    assert Claimant(s, e.code, e.publicKey) && Claimant(s, e.code, f.publicKey);
  }

  /** A code stays as it was minted. */
  lemma {:induction false} MintedStays(s: State, steps: seq<Step>, code: string)
    requires code in s.minted
    ensures code in Run(s, steps).minted && Run(s, steps).minted[code] == s.minted[code]
    decreases |steps|
  {
    if steps != [] {
      MintedStays(if Enabled(s, steps[0]) then Apply(s, steps[0]) else s, steps[1..], code);
    }
  }

  lemma OneKeyMeansNoTwo(s: State, rest: seq<Step>, code: string)
    requires Faithful(s) && OneKey(s) && NoneOvertakes(s, rest) && code in s.minted && s.minted[code].Prepared?
    ensures !TwoKeys(Run(s, rest), code)
  {
    RunKeepsOneKey(s, rest);
    MintedStays(s, rest, code);
    var end := Run(s, rest);
    forall e, f | e in end.enrolled && f in end.enrolled && e.code == f.code == code
      ensures e.publicKey == f.publicKey
    {
      assert EnrolledBy(e, code, e.publicKey) && EnrolledBy(f, code, f.publicKey);
      assert Claimant(end, code, e.publicKey) && Claimant(end, code, f.publicKey);
    }
  }

  /** The overtaken claimant has enrolled already, so the overtaking call has only to be accepted. */
  lemma OvertakingAnEnrolment(s: State, id: nat, e: Enrolled) returns (rest: seq<Step>)
    requires id in s.calls && s.calls[id].Reserved? && e in s.enrolled
    requires e.code == s.calls[id].code && e.publicKey != s.calls[id].publicKey
    ensures NoneOvertakes(s, rest) && TwoKeys(Run(s, rest), e.code) && CanEnrolTwo(s, e.code)
  {
    rest := [ClaimAccept(id, true)];
    assert rest[1..] == [];
    var s' := Apply(s, ClaimAccept(id, true));
    assert Run(s, rest) == s' && NoneOvertakes(s', []);
    var c := s.calls[id];
    assert Enrolled(c.code, c.publicKey, c.tenant) in s'.enrolled && e in s'.enrolled;
  }

  /** The overtaken claimant is about to enrol, so both calls can be accepted. */
  lemma OvertakingAReservation(s: State, id: nat, jd: nat) returns (rest: seq<Step>)
    requires id in s.calls && s.calls[id].Reserved? && jd in s.calls && s.calls[jd].Reserved?
    requires s.calls[jd].code == s.calls[id].code && s.calls[jd].publicKey != s.calls[id].publicKey
    ensures NoneOvertakes(s, rest) && TwoKeys(Run(s, rest), s.calls[id].code) && CanEnrolTwo(s, s.calls[id].code)
  {
    var d := s.calls[jd];
    var s' := Apply(s, ClaimAccept(jd, true));
    var tail := OvertakingAnEnrolment(s', id, Enrolled(d.code, d.publicKey, d.tenant));
    rest := [ClaimAccept(jd, true)] + tail;
    assert rest[1..] == tail;
  }

  /**
   * Exactly when single use is lost: from a state in which every prepared code has one claimant, a SetNX after
   * which two keys can enrol through its code, without any later overtaking, is one that overtakes another key;
   * and every one that does lets two keys enrol.
   */
  lemma ReserveBreaksSingleUseIffItOvertakes(s: State, id: nat)
    requires Faithful(s) && OneKey(s) && Enabled(s, ClaimReserve(id))
    ensures var s' := Apply(s, ClaimReserve(id));
            CanEnrolTwo(s', s.calls[id].code) <==> Overtakes(s, id)
  {
    var s', c := Apply(s, ClaimReserve(id)), s.calls[id];
    assert CallSound(s.minted, s.enrolled, c);
    if Overtakes(s, id) {
      var p :| p != c.publicKey && Claimant(s, c.code, p);
      if jd :| jd in s.calls && ReservedBy(s.calls[jd], c.code, p) {
        assert s'.calls[jd] == s.calls[jd];
        var _ := OvertakingAReservation(s', id, jd);
      } else {
        var e :| e in s.enrolled && EnrolledBy(e, c.code, p);
        var _ := OvertakingAnEnrolment(s', id, e);
      }
    } else {
      StepKeepsFaithful(s, ClaimReserve(id));
      StepKeepsOneKey(s, ClaimReserve(id));
      forall rest | NoneOvertakes(s', rest)
        ensures !TwoKeys(Run(s', rest), c.code)
      {
        OneKeyMeansNoTwo(s', rest, c.code);
      }
    }
  }

  // ---------------------------------------------------------------------------------------------
  // Timing: overtaking needs an expired reservation, and so a SetNX later than the code it is for
  // ---------------------------------------------------------------------------------------------

  /** Every reservation outlasts the unclaimed code it is for: it was made later, with the same TTL. */
  ghost predicate ClaimsOutlast(s: State) {
    && (forall code | code in s.minted :: s.minted[code].Prepared? ==> s.minted[code].deadline <= s.now + TTL)
    && forall code | code in s.claims ::
         code in s.minted && s.minted[code].Prepared? && s.claims[code].expires >= s.minted[code].deadline
  }

  predicate Holds(c: Call, code: string) {
    c.code == code && (c.Reserved? || c.Releasing? || c.Accepted?)
  }

  /** A call that holds a code has it reserved in its own name. */
  predicate HolderSound(claims: map<string, Reservation>, c: Call) {
    Holds(c, c.code) ==> c.code in claims && (!c.Releasing? ==> claims[c.code].publicKey == c.publicKey)
  }

  /** No two calls hold the same code. */
  ghost predicate HoldersAlone(s: State) {
    && (forall id | id in s.calls :: HolderSound(s.claims, s.calls[id]))
    && (forall id, jd | id in s.calls && jd in s.calls && Holds(s.calls[id], s.calls[jd].code)
                        && Holds(s.calls[jd], s.calls[jd].code) :: id == jd)
  }

  /** An enrolment through a prepared code has the code's tenant and the key the code stays reserved for. */
  predicate EnrolmentSound(minted: map<string, Origin>, claims: map<string, Reservation>, e: Enrolled) {
    && e.code in minted
    && (minted[e.code].Prepared? ==>
          e.tenant == minted[e.code].tenant && e.code in claims && claims[e.code].publicKey == e.publicKey)
  }

  /** Nobody is still accepting or releasing a code that has enrolled a device. */
  ghost predicate EnrolmentsFinal(s: State) {
    && (forall e | e in s.enrolled :: EnrolmentSound(s.minted, s.claims, e))
    && (forall e, id | e in s.enrolled && id in s.calls && Holds(s.calls[id], e.code) :: s.calls[id].Accepted?)
  }

  ghost predicate Inv(s: State) {
    CodesFaithful(s) && ClaimsOutlast(s) && CallsFaithful(s) && HoldersAlone(s) && EnrolmentsFinal(s)
  }

  /** SetNX lands on no expired reservation: the code was never reserved, was released, or is still reserved. */
  predicate Timely(s: State, step: Step)
    requires Enabled(s, step)
  {
    step.ClaimReserve? && s.calls[step.id].code in s.claims ==> LiveClaim(s, s.calls[step.id].code)
  }

  /** SetNX reaches the cache while the code entry the call read is still live. */
  predicate Prompt(s: State, step: Step)
    requires Enabled(s, step)
  {
    step.ClaimReserve? ==> s.now < s.calls[step.id].seenUntil
  }

  predicate AllTimely(s: State, steps: seq<Step>)
    decreases |steps|
  {
    steps == [] ||
    (if Enabled(s, steps[0]) then Timely(s, steps[0]) && AllTimely(Apply(s, steps[0]), steps[1..])
     else AllTimely(s, steps[1..]))
  }

  predicate AllPrompt(s: State, steps: seq<Step>)
    decreases |steps|
  {
    steps == [] ||
    (if Enabled(s, steps[0]) then Prompt(s, steps[0]) && AllPrompt(Apply(s, steps[0]), steps[1..])
     else AllPrompt(s, steps[1..]))
  }

  lemma TickKeepsInv(s: State, delay: nat)
    requires Inv(s)
    ensures Inv(Apply(s, Tick(delay)))
  {}

  lemma PrepareKeepsInv(s: State, code: string, tenant: string)
    requires Inv(s) && Enabled(s, Prepare(code, tenant))
    ensures Inv(Apply(s, Prepare(code, tenant)))
  {
    var s' := Apply(s, Prepare(code, tenant));
    assert CodesFaithful(s') && ClaimsOutlast(s') && CallsFaithful(s');
  }

  lemma CreateKeepsInv(s: State, code: string, publicKey: string)
    requires Inv(s) && Enabled(s, CreateForAgent(code, publicKey))
    ensures Inv(Apply(s, CreateForAgent(code, publicKey)))
  {
    var s' := Apply(s, CreateForAgent(code, publicKey));
    assert CodesFaithful(s') && ClaimsOutlast(s') && CallsFaithful(s');
  }

  /** Adding a call that holds nothing. */
  lemma NewCallKeepsInv(s: State, id: nat, c: Call)
    requires Inv(s) && id !in s.calls && CallSound(s.minted, s.enrolled, c) && !Holds(c, c.code)
    ensures Inv(s.(calls := s.calls[id := c]))
  {
    var s' := s.(calls := s.calls[id := c]);
    assert CodesFaithful(s') && ClaimsOutlast(s') && CallsFaithful(s');
  }

  lemma GetKeepsInv(s: State, step: Step)
    requires Inv(s) && Enabled(s, step) && (step.ClaimGet? || step.UserGet?)
    ensures Inv(Apply(s, step))
  {
    var s' := Apply(s, step);
    if s' != s {
      assert RecordSound(s.minted, step.code, s.codes[step.code]);
      NewCallKeepsInv(s, step.id, s'.calls[step.id]);
    }
  }

  lemma FinishKeepsInv(s: State, id: nat)
    requires Inv(s)
    ensures Inv(Finish(s, id))
  {
    var s' := Finish(s, id);
    assert CodesFaithful(s') && ClaimsOutlast(s') && CallsFaithful(s');
  }

  /** A code nobody has reserved is held by no call and has enrolled nobody. */
  lemma UnreservedIsFree(s: State, code: string)
    requires Inv(s) && code in s.minted && s.minted[code].Prepared? && code !in s.claims
    ensures forall id | id in s.calls :: !Holds(s.calls[id], code)
    ensures forall e | e in s.enrolled :: e.code != code
  {
    forall id | id in s.calls
      ensures !Holds(s.calls[id], code)
    {
      assert HolderSound(s.claims, s.calls[id]);
    }
  }

  lemma WinKeepsInv(s: State, id: nat, r: Reservation)
    requires Inv(s) && id in s.calls && s.calls[id].Reading? && s.calls[id].code !in s.claims
    requires r == Reservation(s.calls[id].publicKey, s.now + TTL)
    ensures var c := s.calls[id];
            Inv(s.(claims := s.claims[c.code := r], calls := s.calls[id := Reserved(c.code, c.publicKey, c.tenant)]))
  {
    var c := s.calls[id];
    assert CallSound(s.minted, s.enrolled, c);
    UnreservedIsFree(s, c.code);
    var s' := s.(claims := s.claims[c.code := r], calls := s.calls[id := Reserved(c.code, c.publicKey, c.tenant)]);
    assert ClaimsOutlast(s') && CallsFaithful(s');
  }

  lemma ReserveKeepsInv(s: State, id: nat)
    requires Inv(s) && Enabled(s, ClaimReserve(id)) && Timely(s, ClaimReserve(id))
    ensures Inv(Apply(s, ClaimReserve(id)))
  {
    if LiveClaim(s, s.calls[id].code) {
      FinishKeepsInv(s, id);
    } else {
      WinKeepsInv(s, id, Reservation(s.calls[id].publicKey, s.now + TTL));
    }
  }

  /** The call that is accepting holds the code alone, and the code has enrolled nobody before it. */
  lemma ClaimantIsAlone(s: State, id: nat)
    requires Inv(s) && id in s.calls && (s.calls[id].Reserved? || s.calls[id].Releasing?)
    ensures HolderSound(s.claims, s.calls[id])
    ensures forall e | e in s.enrolled :: e.code != s.calls[id].code
    ensures forall jd | jd in s.calls && Holds(s.calls[jd], s.calls[id].code) :: jd == id
    ensures s.calls[id].code in s.claims && CallSound(s.minted, s.enrolled, s.calls[id])
  {
    assert Holds(s.calls[id], s.calls[id].code);
  }

  lemma ClaimRefusalKeepsInv(s: State, id: nat)
    requires Inv(s) && Enabled(s, ClaimAccept(id, false))
    ensures Inv(Apply(s, ClaimAccept(id, false)))
  {
    ClaimantIsAlone(s, id);
    var s' := Apply(s, ClaimAccept(id, false));
    assert CodesFaithful(s') && ClaimsOutlast(s');
    assert CallsFaithful(s') && HoldersAlone(s');
  }

  lemma ClaimAcceptKeepsInv(s: State, id: nat)
    requires Inv(s) && Enabled(s, ClaimAccept(id, true))
    ensures Inv(Apply(s, ClaimAccept(id, true)))
  {
    ClaimantIsAlone(s, id);
    var s' := Apply(s, ClaimAccept(id, true));
    assert CodesFaithful(s') && ClaimsOutlast(s');
    assert CallsFaithful(s');
    assert HoldersAlone(s');
  }

  lemma UserAcceptKeepsInv(s: State, id: nat, ok: bool)
    requires Inv(s) && Enabled(s, UserAccept(id, ok))
    ensures Inv(Apply(s, UserAccept(id, ok)))
  {
    assert CallSound(s.minted, s.enrolled, s.calls[id]);
    var s' := Apply(s, UserAccept(id, ok));
    assert CodesFaithful(s') && ClaimsOutlast(s');
    assert CallsFaithful(s');
    assert HoldersAlone(s');
  }

  lemma ClaimReleaseKeepsInv(s: State, id: nat, ok: bool)
    requires Inv(s) && Enabled(s, ClaimRelease(id, ok))
    ensures Inv(Apply(s, ClaimRelease(id, ok)))
  {
    ClaimantIsAlone(s, id);
    var s' := Apply(s, ClaimRelease(id, ok));
    assert CodesFaithful(s') && ClaimsOutlast(s');
    assert CallsFaithful(s') && HoldersAlone(s');
  }

  lemma StoreKeepsInv(s: State, step: Step)
    requires Inv(s) && Enabled(s, step) && (step.ClaimStore? || step.UserStore?)
    ensures Inv(Apply(s, step))
  {
    assert CallSound(s.minted, s.enrolled, s.calls[step.id]);
    var s' := Apply(s, step);
    assert CodesFaithful(s') && ClaimsOutlast(s');
    assert CallsFaithful(s') && HoldersAlone(s');
  }

  lemma StepKeepsInv(s: State, step: Step)
    requires Inv(s) && Enabled(s, step) && Timely(s, step)
    ensures Inv(Apply(s, step))
  {
    match step
    case ClaimReserve(id) => ReserveKeepsInv(s, id);
    case Tick(delay) => TickKeepsInv(s, delay);
    case Prepare(code, tenant) => PrepareKeepsInv(s, code, tenant);
    case CreateForAgent(code, publicKey) => CreateKeepsInv(s, code, publicKey);
    case ClaimGet(_, _, _) => GetKeepsInv(s, step);
    case UserGet(_, _, _) => GetKeepsInv(s, step);
    case ClaimAccept(id, ok) => if ok { ClaimAcceptKeepsInv(s, id); } else { ClaimRefusalKeepsInv(s, id); }
    case UserAccept(id, ok) => UserAcceptKeepsInv(s, id, ok);
    case ClaimRelease(id, ok) => ClaimReleaseKeepsInv(s, id, ok);
    case ClaimStore(_, _) => StoreKeepsInv(s, step);
    case UserStore(_, _) => StoreKeepsInv(s, step);
  }

  /** A claimant's code is reserved in the claimant's name. */
  lemma ClaimantHoldsTheReservation(s: State, code: string, p: string)
    requires Inv(s) && code in s.minted && s.minted[code].Prepared? && Claimant(s, code, p)
    ensures code in s.claims && s.claims[code].publicKey == p
  {
    if id :| id in s.calls && ReservedBy(s.calls[id], code, p) {
      assert HolderSound(s.claims, s.calls[id]) && Holds(s.calls[id], code);
    } else {
      var e :| e in s.enrolled && EnrolledBy(e, code, p);
      assert EnrolmentSound(s.minted, s.claims, e);
    }
  }

  /** A SetNX that overtakes finds the reservation expired, and comes after the code it is for has expired. */
  lemma OvertakingIsLate(s: State, id: nat)
    requires Inv(s) && Enabled(s, ClaimReserve(id))
    ensures Overtakes(s, id) ==> !Timely(s, ClaimReserve(id))
    ensures !Timely(s, ClaimReserve(id)) ==> !Prompt(s, ClaimReserve(id))
  {
    var c := s.calls[id];
    assert CallSound(s.minted, s.enrolled, c);
    if Overtakes(s, id) {
      var p :| p != c.publicKey && Claimant(s, c.code, p);
      ClaimantHoldsTheReservation(s, c.code, p);
    }
  }

  /** While another key is a claimant, overtaking and landing on an expired reservation are the same thing. */
  lemma OvertakesIffExpired(s: State, id: nat, p: string)
    requires Inv(s) && Enabled(s, ClaimReserve(id))
    requires p != s.calls[id].publicKey && Claimant(s, s.calls[id].code, p)
    ensures s.calls[id].code in s.claims
    ensures Overtakes(s, id) <==> s.now >= s.claims[s.calls[id].code].expires
  {
    assert CallSound(s.minted, s.enrolled, s.calls[id]);
    ClaimantHoldsTheReservation(s, s.calls[id].code, p);
  }

  lemma {:induction false} TimelyRunsDoNotOvertake(s: State, steps: seq<Step>)
    requires Inv(s) && AllTimely(s, steps)
    ensures NoneOvertakes(s, steps) && Inv(Run(s, steps))
    decreases |steps|
  {
    if steps != [] {
      if Enabled(s, steps[0]) {
        if steps[0].ClaimReserve? {
          OvertakingIsLate(s, steps[0].id);
        }
        StepKeepsInv(s, steps[0]);
        TimelyRunsDoNotOvertake(Apply(s, steps[0]), steps[1..]);
      } else {
        TimelyRunsDoNotOvertake(s, steps[1..]);
      }
    }
  }

  /** A run whose SetNX calls all come while the codes they read are live is timely, and so overtakes nobody. */
  lemma {:induction false} PromptRunsAreTimely(s: State, steps: seq<Step>)
    requires Inv(s) && AllPrompt(s, steps)
    ensures AllTimely(s, steps)
    decreases |steps|
  {
    if steps != [] {
      if Enabled(s, steps[0]) {
        if steps[0].ClaimReserve? {
          OvertakingIsLate(s, steps[0].id);
        }
        StepKeepsInv(s, steps[0]);
        PromptRunsAreTimely(Apply(s, steps[0]), steps[1..]);
      } else {
        PromptRunsAreTimely(s, steps[1..]);
      }
    }
  }

  lemma SleeperEnrols(s: State)
    requires 2 in s.calls && s.calls[2].Reading? && s.calls[2].code in s.claims
    requires s.claims[s.calls[2].code].expires <= s.now + TTL
    ensures Run(s, [Tick(TTL), ClaimReserve(2), ClaimAccept(2, true)]).enrolled
         == s.enrolled + {Enrolled(s.calls[2].code, s.calls[2].publicKey, s.calls[2].tenant)}
  {
    var a := Apply(s, Tick(TTL));
    var b := Apply(a, ClaimReserve(2));
    RunPrepends(b, ClaimAccept(2, true), []);
    RunPrepends(a, ClaimReserve(2), [ClaimAccept(2, true)]);
    RunPrepends(s, Tick(TTL), [ClaimReserve(2)] + [ClaimAccept(2, true)]);
    assert [Tick(TTL), ClaimReserve(2), ClaimAccept(2, true)]
           == [Tick(TTL)] + ([ClaimReserve(2)] + [ClaimAccept(2, true)]);
    assert [ClaimAccept(2, true)] == [ClaimAccept(2, true)] + [];
  }

  lemma FirstWinsThenSleeper(s: State) returns (steps: seq<Step>)
    requires s.calls == map[1 := Reading("C", "k1", "t", TTL), 2 := Reading("C", "k2", "t", TTL)] && s.claims == map[]
    ensures Run(s, steps).enrolled == s.enrolled + {Enrolled("C", "k1", "t")} + {Enrolled("C", "k2", "t")}
  {
    var reserved := Apply(s, ClaimReserve(1));
    var accepted := Apply(reserved, ClaimAccept(1, true));
    SleeperEnrols(accepted);
    var tail := [Tick(TTL), ClaimReserve(2), ClaimAccept(2, true)];
    RunPrepends(reserved, ClaimAccept(1, true), tail);
    RunPrepends(s, ClaimReserve(1), [ClaimAccept(1, true)] + tail);
    steps := [ClaimReserve(1)] + ([ClaimAccept(1, true)] + tail);
  }

  /** A run that overtakes: a call that sleeps through the reservation enrols a second key. */
  lemma StalledCallEnrolsASecondKey()
    ensures exists steps :: Enrolled("C", "k1", "t") in Run(START, steps).enrolled
                            && Enrolled("C", "k2", "t") in Run(START, steps).enrolled
  {
    var s1 := Apply(START, Prepare("C", "t"));
    var s2 := Apply(s1, ClaimGet(1, "C", "k1"));
    var s3 := Apply(s2, ClaimGet(2, "C", "k2"));
    assert s3.calls == map[1 := Reading("C", "k1", "t", TTL), 2 := Reading("C", "k2", "t", TTL)] && s3.claims == map[];
    var tail := FirstWinsThenSleeper(s3);
    RunPrepends(s2, ClaimGet(2, "C", "k2"), tail);
    RunPrepends(s1, ClaimGet(1, "C", "k1"), [ClaimGet(2, "C", "k2")] + tail);
    RunPrepends(START, Prepare("C", "t"), [ClaimGet(1, "C", "k1")] + ([ClaimGet(2, "C", "k2")] + tail));
  }
}
