/** The install key: the per-key enrolment policy and the rules that say whether a key may still enrol. */
module InstallKeys {
  import opened Prelude

  datatype Mode = Automatic | Manual | Webhook | Allowlist | UnknownMode

  datatype KeyType = User | Legacy | Pairing

  datatype InstallKey = InstallKey(
    mode: Mode,
    keyType: KeyType,
    allowedMacs: seq<string>,
    usageLimit: int,
    usedTimes: nat,
    revoked: bool,
    disabled: bool,
    expiresAt: Option<int>
  ) {
    predicate IsSystem() {
      keyType == Legacy || keyType == Pairing
    }

    predicate IsExpired(now: int) {
      expiresAt.Some? && now > expiresAt.value
    }

    predicate IsOverused() {
      usageLimit > 0 && usedTimes >= usageLimit
    }

    predicate IsValid(now: int) {
      !revoked && !disabled && !IsExpired(now) && !IsOverused()
    }

    predicate ReconcilableOnAuth() {
      mode == Webhook || mode == Allowlist
    }

    /** The guard the store puts on the increment, in the same statement as the increment itself. */
    predicate HasRoom() {
      usageLimit == 0 || usedTimes < usageLimit
    }
  }

  /** What the policy decides for one device. */
  datatype Decision = Accept | Reject | LeavePending

  /** The integrator's answer; every transport failure or unreadable answer is WebhookFailed. */
  datatype WebhookAnswer = WebhookFailed | WebhookAccepts | WebhookRejects | WebhookDefers

  function EvaluateEnrollment(key: Option<InstallKey>, mac: string, webhook: WebhookAnswer, paired: bool): Decision {
    if key.None? then LeavePending
    else if paired then Accept
    else match key.value.mode
      case Automatic => Accept
      case Manual => LeavePending
      case Allowlist => if Lower(TrimSpace(mac)) in key.value.allowedMacs then Accept else Reject
      case Webhook => (match webhook
                       case WebhookAccepts => Accept
                       case WebhookRejects => Reject
                       case _ => LeavePending)
      case UnknownMode => LeavePending
  }

  /** The key's policy lets this device in. A webhook that fails or defers lets nobody in. */
  predicate Admits(key: InstallKey, mac: string, webhook: WebhookAnswer, paired: bool) {
    || paired
    || key.mode == Automatic
    || (key.mode == Allowlist && Lower(TrimSpace(mac)) in key.allowedMacs)
    || (key.mode == Webhook && webhook == WebhookAccepts)
  }

  /** The key's policy turns this device away. */
  predicate TurnsAway(key: InstallKey, mac: string, webhook: WebhookAnswer) {
    || (key.mode == Allowlist && Lower(TrimSpace(mac)) !in key.allowedMacs)
    || (key.mode == Webhook && webhook == WebhookRejects)
  }

  /** The policy in both directions: whom it lets in, whom it turns away, and that it leaves the rest pending. */
  lemma PolicyDecidesIff(key: InstallKey, mac: string, webhook: WebhookAnswer, paired: bool)
    ensures EvaluateEnrollment(Some(key), mac, webhook, paired) == Accept <==> Admits(key, mac, webhook, paired)
    ensures EvaluateEnrollment(Some(key), mac, webhook, paired) == Reject <==> !paired && TurnsAway(key, mac, webhook)
    ensures EvaluateEnrollment(None, mac, webhook, paired) == LeavePending
  {}

  /** The key has a use left. */
  predicate UseLeft(k: InstallKey) {
    k.usageLimit == 0 || k.usedTimes < k.usageLimit
  }

  /** The key is neither revoked nor paused, its expiry has not passed, and its limit, if any, is not used up. */
  predicate InForce(k: InstallKey, now: int) {
    && !k.revoked && !k.disabled
    && (k.expiresAt.Some? ==> now <= k.expiresAt.value)
    && (k.usageLimit > 0 ==> k.usedTimes < k.usageLimit)
  }

  lemma ValidIffInForce(k: InstallKey, now: int)
    ensures k.IsValid(now) <==> InForce(k, now)
    ensures k.HasRoom() <==> UseLeft(k)
  {}

  /**
   * A patch of a key; absent fields stay as they are. expiresAt == Some(None) clears the expiry. others says
   * that the name, the tags or the ephemeral settings are patched too, and fits that the checks on those, on
   * the webhook settings and on the expiry's range pass.
   */
  datatype KeyEdit = KeyEdit(
    mode: Option<Mode>,
    allowedMacs: Option<seq<string>>,
    revoked: Option<bool>,
    disabled: Option<bool>,
    usageLimit: Option<nat>,
    expiresAt: Option<Option<int>>,
    others: bool,
    fits: bool
  )

  function Patched<T>(current: T, patch: Option<T>): T {
    if patch.Some? then patch.value else current
  }

  predicate ModeFits(mode: Mode, allowedMacs: seq<string>) {
    mode != UnknownMode && (mode == Allowlist ==> allowedMacs != [])
  }

  /** Nothing about the pairing key, and little about the legacy key, can be edited; a revoked key is terminal. */
  predicate Editable(k: InstallKey, e: KeyEdit) {
    if k.IsSystem() then
      k.keyType != Pairing && e.revoked.None? && e.usageLimit.None? && e.expiresAt.None? && !e.others
    else !k.revoked
  }

  function EditKey(k: InstallKey, e: KeyEdit): Option<InstallKey> {
    var mode, macs := Patched(k.mode, e.mode), Patched(k.allowedMacs, e.allowedMacs);
    if !Editable(k, e) || !e.fits then None
    else if (e.mode.Some? || e.allowedMacs.Some?) && !ModeFits(mode, macs) then None
    else if e.usageLimit.Some? && e.usageLimit.value != 0 && e.usageLimit.value < k.usedTimes then None
    else Some(k.(mode := mode, allowedMacs := macs,
                 revoked := k.revoked || e.revoked == Some(true),
                 disabled := Patched(k.disabled, e.disabled),
                 usageLimit := Patched(k.usageLimit, e.usageLimit),
                 expiresAt := Patched(k.expiresAt, e.expiresAt)))
  }

  /** An edit that goes through sets what it names and leaves the rest; the use count is never among it. */
  lemma EditTakesEffect(k: InstallKey, e: KeyEdit)
    requires EditKey(k, e).Some?
    ensures var k' := EditKey(k, e).value;
            && k'.usedTimes == k.usedTimes && k'.keyType == k.keyType
            && (e.mode.Some? ==> k'.mode == e.mode.value) && (e.mode.None? ==> k'.mode == k.mode)
            && (e.allowedMacs.Some? ==> k'.allowedMacs == e.allowedMacs.value)
            && (e.allowedMacs.None? ==> k'.allowedMacs == k.allowedMacs)
            && (e.revoked == Some(true) ==> k'.revoked) && (e.revoked != Some(true) ==> k'.revoked == k.revoked)
            && (e.disabled.Some? ==> k'.disabled == e.disabled.value)
            && (e.disabled.None? ==> k'.disabled == k.disabled)
            && (e.usageLimit.Some? ==> k'.usageLimit == e.usageLimit.value)
            && (e.usageLimit.None? ==> k'.usageLimit == k.usageLimit)
            && (e.expiresAt.Some? ==> k'.expiresAt == e.expiresAt.value)
            && (e.expiresAt.None? ==> k'.expiresAt == k.expiresAt)
  {}

  /** When an edit is refused. */
  lemma EditIsRefusedIff(k: InstallKey, e: KeyEdit)
    ensures EditKey(k, e).None? <==>
              || k.keyType == Pairing
              || (k.keyType == Legacy && (e.revoked.Some? || e.usageLimit.Some? || e.expiresAt.Some? || e.others))
              || (k.keyType == User && k.revoked)
              || !e.fits
              || ((e.mode.Some? || e.allowedMacs.Some?)
                  && (var mode := if e.mode.Some? then e.mode.value else k.mode;
                      var macs := if e.allowedMacs.Some? then e.allowedMacs.value else k.allowedMacs;
                      mode == UnknownMode || (mode == Allowlist && macs == [])))
              || (e.usageLimit.Some? && 0 < e.usageLimit.value < k.usedTimes)
  {}
}
