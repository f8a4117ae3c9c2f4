/** Login codes: short-lived codes that lead from the console to a device, at most one live one per device. */
module LoginCode {
  import opened Prelude

  const TTL: int := 10 * MINUTE

  datatype ByCode = ByCode(uid: string, tenant: string, expires: int)

  datatype ByDevice = ByDevice(code: string, expires: int)

  datatype Cache = Cache(now: int, codes: map<string, ByCode>, devices: map<string, ByDevice>)

  /** The code leads to the device. */
  predicate Resolves(c: Cache, code: string, uid: string) {
    code in c.codes && c.now < c.codes[code].expires && c.codes[code].uid == uid
  }

  function Previous(c: Cache, uid: string): string {
    if uid in c.devices && c.now < c.devices[uid].expires then c.devices[uid].code else ""
  }

  function Issue(c: Cache, uid: string, tenant: string, code: string): Cache {
    var kept := if Previous(c, uid) != "" then c.codes - {Previous(c, uid)} else c.codes;
    c.(codes := kept[code := ByCode(uid, tenant, c.now + TTL)],
       devices := c.devices[uid := ByDevice(code, c.now + TTL)])
  }

  /** A live code is the one its device remembers, and the device remembers it at least as long. */
  ghost predicate Remembered(c: Cache) {
    forall code | code in c.codes && c.now < c.codes[code].expires ::
      && code != ""
      && c.codes[code].uid in c.devices
      && c.devices[c.codes[code].uid].code == code
      && c.devices[c.codes[code].uid].expires >= c.codes[code].expires
  }

  class LoginCodes {
    var now: int
    var codes: map<string, ByCode>
    var devices: map<string, ByDevice>

    function State(): Cache
      reads this
    {
      Cache(now, codes, devices)
    }

    constructor (now: int)
      ensures State() == Cache(now, map[], map[])
    {
      this.now := now;
      codes := map[];
      devices := map[];
    }

    /** code is the freshly drawn random code; it may collide with a code another device holds. */
    method CreateDeviceLoginCode(uid: string, tenant: string, code: string)
      modifies this`codes, this`devices
      ensures State() == Issue(old(State()), uid, tenant, code)
    {
      var previous := "";
      if uid in devices && now < devices[uid].expires {
        previous := devices[uid].code;
      }
      if previous != "" {
        codes := codes - {previous};
      }
      codes := codes[code := ByCode(uid, tenant, now + TTL)];
      devices := devices[uid := ByDevice(code, now + TTL)];
    }

    method Wait(delay: nat)
      modifies this`now
      ensures State() == old(State()).(now := old(now) + delay)
    {
      now := now + delay;
    }
  }

  datatype Step = Create(uid: string, tenant: string, code: string) | Pass(delay: nat)

  function Apply(c: Cache, step: Step): Cache {
    match step
    case Create(uid, tenant, code) => Issue(c, uid, tenant, code)
    case Pass(delay) => c.(now := c.now + delay)
  }

  function Run(c: Cache, steps: seq<Step>): Cache
    decreases |steps|
  {
    if steps == [] then c else Run(Apply(c, steps[0]), steps[1..])
  }

  lemma StepKeepsRemembered(c: Cache, step: Step)
    requires Remembered(c) && (step.Create? ==> step.code != "")
    ensures Remembered(Apply(c, step))
  {
    var c' := Apply(c, step);
    if step.Create? {
      forall code | code in c'.codes && c'.now < c'.codes[code].expires && code != step.code
        ensures code in c.codes && c'.codes[code] == c.codes[code] && c.codes[code].uid != step.uid
      {
        assert code in c.codes;
      }
    }
  }

  lemma {:induction false} RunKeepsRemembered(c: Cache, steps: seq<Step>)
    requires Remembered(c) && forall i | 0 <= i < |steps| :: steps[i].Create? ==> steps[i].code != ""
    ensures Remembered(Run(c, steps))
    decreases |steps|
  {
    if steps != [] {
      StepKeepsRemembered(c, steps[0]);
      RunKeepsRemembered(Apply(c, steps[0]), steps[1..]);
    }
  }

  /** Over every run, at any instant, at most one code leads to a given device, even after codes have collided. */
  lemma AtMostOneLiveCode(start: int, steps: seq<Step>, uid: string, a: string, b: string)
    requires forall i | 0 <= i < |steps| :: steps[i].Create? ==> steps[i].code != ""
    requires var c := Run(Cache(start, map[], map[]), steps); Resolves(c, a, uid) && Resolves(c, b, uid)
    ensures a == b
  {
    RunKeepsRemembered(Cache(start, map[], map[]), steps);
  }

  /**
   * The new code leads to the device in its tenant. Another live code is lost exactly if it is the one the
   * device remembers; that is the device's own, unless codes have collided before.
   */
  lemma IssuingDropsOnlyTheRememberedCode(c: Cache, uid: string, tenant: string, code: string, other: string)
    requires Remembered(c) && other != code && other in c.codes && c.now < c.codes[other].expires
    ensures var c' := Issue(c, uid, tenant, code);
            && c'.codes[code] == ByCode(uid, tenant, c.now + TTL)
            && (other !in c'.codes <==> other == Previous(c, uid))
            && (other in c'.codes ==> c'.codes[other] == c.codes[other])
            && (c.codes[other].uid == uid ==> other == Previous(c, uid))
  {}

  /** After a collision a device's next code takes a live code from the device that drew the same one. */
  lemma CollisionCostsAnotherDeviceItsCode()
    ensures exists c: Cache :: Remembered(c) && Resolves(c, "A", "y") && !Resolves(Issue(c, "x", "t", "B"), "A", "y")
  {
    var c := Issue(Issue(Cache(0, map[], map[]), "x", "t", "A"), "y", "t", "A");
    assert c.codes == map["A" := ByCode("y", "t", TTL)];
    assert Previous(c, "x") == "A";
    assert Remembered(c) && Resolves(c, "A", "y") && !Resolves(Issue(c, "x", "t", "B"), "A", "y");
  }

  /** A new code does lead to its device, until it expires or is replaced. */
  lemma IssuedCodeResolves(c: Cache, uid: string, tenant: string, code: string, delay: nat)
    ensures Resolves(Apply(Issue(c, uid, tenant, code), Pass(delay)), code, uid) <==> delay < TTL
  {}
}
