/**
 * Access policies: whether a user may reach a device as some login from some address. Authorize walks the
 * policy list twice; the specification it is proved against does not mention the list's order.
 */
module AccessPolicy {
  import opened Prelude

  // ---------------------------------------------------------------------------------------------
  // Addresses and prefixes
  // ---------------------------------------------------------------------------------------------

  /** An address of 32 or 128 bits, read as one number. Only IPv6 addresses can carry a zone. */
  datatype Addr = Addr(width: nat, value: nat, zoned: bool)

  datatype Prefix = Prefix(width: nat, value: nat, bits: nat)

  function Pow2(n: nat): nat {
    if n == 0 then 1 else 2 * Pow2(n - 1)
  }

  lemma {:induction false} Pow2Positive(n: nat)
    ensures Pow2(n) >= 1
  {
    if n > 0 {
      Pow2Positive(n - 1);
    }
  }

  predicate ValidPrefix(p: Prefix) {
    p.bits <= p.width
  }

  /** An IPv4 address inside IPv6 is taken out of it. */
  function Unmap(a: Addr): Addr {
    if a.width == 128 && a.value / 0x1_0000_0000 == 0xffff then Addr(32, a.value % 0x1_0000_0000, false) else a
  }

  /** Addresses that agree with the prefix on its leading bits. */
  function BlockSize(p: Prefix): (n: nat)
    requires ValidPrefix(p)
    ensures n >= 1
  {
    Pow2Positive(p.width - p.bits);
    Pow2(p.width - p.bits)
  }

  predicate Contains(p: Prefix, a: Addr)
    requires ValidPrefix(p)
  {
    a.width == p.width && !a.zoned && a.value / BlockSize(p) == p.value / BlockSize(p)
  }

  function BlockStart(p: Prefix): int
    requires ValidPrefix(p)
  {
    p.value / BlockSize(p) * BlockSize(p)
  }

  lemma QuotientsAgreeOnBlock(x: nat, y: nat, n: nat)
    requires n >= 1
    ensures x / n == y / n <==> y / n * n <= x < y / n * n + n
  {
    var qx, qy := x / n, y / n;
    assert x == qx * n + x % n;
    if qx < qy {
      assert qx * n + n <= qy * n by { assert (qx + 1) * n <= qy * n; }
    } else if qx > qy {
      assert qy * n + n <= qx * n by { assert (qy + 1) * n <= qx * n; }
    }
  }

  /** A prefix covers one contiguous power-of-two block, as in section 3.1 of RFC 4632. */
  lemma PrefixCoversBlock(p: Prefix, a: Addr)
    requires ValidPrefix(p)
    ensures Contains(p, a) <==>
              a.width == p.width && !a.zoned && BlockStart(p) <= a.value < BlockStart(p) + BlockSize(p)
    ensures p.bits == p.width ==> (Contains(p, a) <==> a.width == p.width && !a.zoned && a.value == p.value)
  {
    QuotientsAgreeOnBlock(a.value, p.value, BlockSize(p));
    if p.bits == p.width {
      assert Pow2(0) == 1;
    }
  }

  // ---------------------------------------------------------------------------------------------
  // Matching one policy
  // ---------------------------------------------------------------------------------------------

  /** The parts that belong to libraries: regular expressions and the reading and printing of addresses. */
  datatype Library = Library(
    regexp: (string, string) -> Option<bool>,
    parseAddr: string -> Option<Addr>,
    parsePrefix: string -> Option<Prefix>,
    formatAddr: Addr -> string
  )

  datatype UserType = Human | Service

  datatype Subject = ByUser(id: string) | ByRole(role: string) | AllMembers | UnknownSubject

  /** hostname "" and no tags selects every device. */
  datatype Filter = Filter(hostname: string, tags: seq<string>)

  datatype Policy = Policy(
    name: string,
    subject: Subject,
    filter: Filter,
    logins: seq<string>,
    sourceIps: seq<string>,
    deny: bool,
    requireReauth: bool,
    reauthPeriod: Option<int>
  )

  datatype Request = Request(
    user: string,
    role: string,
    userType: UserType,
    deviceName: string,
    deviceTags: seq<string>,
    login: string,
    clientIp: string
  )

  datatype Eval = Match | NoMatch | Broken

  function FilterMatches(lib: Library, f: Filter, rq: Request): Eval {
    if f.hostname != "" then
      match lib.regexp(f.hostname, rq.deviceName)
      case None => Broken
      case Some(b) => if b then Match else NoMatch
    else if |f.tags| > 0 then
      if exists t :: t in f.tags && t in rq.deviceTags then Match else NoMatch
    else Match
  }

  predicate SubjectMatches(s: Subject, rq: Request) {
    match s
    case AllMembers => rq.userType != Service
    case ByRole(role) => role == rq.role
    case ByUser(id) => id == rq.user
    case UnknownSubject => false
  }

  predicate LoginMatches(logins: seq<string>, login: string) {
    "*" in logins || login in logins
  }

  function GoodPrefix(lib: Library, cidr: string): Option<Prefix> {
    match lib.parsePrefix(cidr)
    case None => None
    case Some(p) => if ValidPrefix(p) then Some(p) else None
  }

  /** The loop over the policy's blocks: the first that matches or cannot be read decides. */
  function AnyPrefixContains(lib: Library, cidrs: seq<string>, a: Addr): Eval {
    if cidrs == [] then NoMatch
    else match GoodPrefix(lib, cidrs[0])
      case None => Broken
      case Some(p) => if Contains(p, a) then Match else AnyPrefixContains(lib, cidrs[1..], a)
  }

  function SourceIpMatches(lib: Library, cidrs: seq<string>, clientIp: string): Eval {
    if |cidrs| == 0 then Match
    else match lib.parseAddr(clientIp)
      case None => Broken
      case Some(a) => AnyPrefixContains(lib, cidrs, Unmap(a))
  }

  function PolicyApplies(lib: Library, p: Policy, rq: Request): Eval {
    if !SubjectMatches(p.subject, rq) then NoMatch
    else
      var byFilter := FilterMatches(lib, p.filter, rq);
      if byFilter == Broken then Broken
      else if byFilter == NoMatch || !LoginMatches(p.logins, rq.login) then NoMatch
      else SourceIpMatches(lib, p.sourceIps, rq.clientIp)
  }

  /** For blocks that can all be read, and an address that can, matching is lying in some block. */
  lemma {:induction false} SourceIpIsUnionOfBlocks(lib: Library, cidrs: seq<string>, a: Addr)
    requires forall c | c in cidrs :: GoodPrefix(lib, c).Some?
    ensures AnyPrefixContains(lib, cidrs, a) == Match
            <==> exists c :: c in cidrs && Contains(GoodPrefix(lib, c).value, a)
    ensures AnyPrefixContains(lib, cidrs, a) != Broken
  {
    if cidrs != [] {
      assert cidrs[0] in cidrs;
      SourceIpIsUnionOfBlocks(lib, cidrs[1..], a);
      assert forall c :: c in cidrs <==> c == cidrs[0] || c in cidrs[1..];
    }
  }

  // ---------------------------------------------------------------------------------------------
  // When a policy applies, field by field
  // ---------------------------------------------------------------------------------------------

  /** The subject names the member, the member's role, or all members, which leaves service accounts out. */
  predicate Names(s: Subject, rq: Request) {
    s == ByUser(rq.user) || s == ByRole(rq.role) || (s == AllMembers && rq.userType == Human)
  }

  /** A host name expression is all that counts if there is one; then a shared tag; an empty filter selects all. */
  ghost predicate Selects(lib: Library, f: Filter, rq: Request) {
    || (f.hostname != "" && lib.regexp(f.hostname, rq.deviceName) == Some(true))
    || (f.hostname == "" && f.tags != [] && exists t :: t in f.tags && t in rq.deviceTags)
    || (f.hostname == "" && f.tags == [])
  }

  predicate SelectorFails(lib: Library, f: Filter, rq: Request) {
    f.hostname != "" && lib.regexp(f.hostname, rq.deviceName) == None
  }

  /** The entry can be read, and the address lies in the block it stands for. */
  predicate InBlock(lib: Library, cidr: string, a: Addr) {
    && GoodPrefix(lib, cidr).Some?
    && var p := GoodPrefix(lib, cidr).value;
       a.width == p.width && !a.zoned && BlockStart(p) <= a.value < BlockStart(p) + BlockSize(p)
  }

  predicate AllReadable(lib: Library, cidrs: seq<string>) {
    forall c | c in cidrs :: GoodPrefix(lib, c).Some?
  }

  predicate InNone(lib: Library, cidrs: seq<string>, a: Addr) {
    forall c | c in cidrs :: !InBlock(lib, c, a)
  }

  /** The address lies in a block that comes before any entry that cannot be read. */
  ghost predicate ReachesBlock(lib: Library, cidrs: seq<string>, a: Addr) {
    exists i :: 0 <= i < |cidrs| && InBlock(lib, cidrs[i], a) && AllReadable(lib, cidrs[..i])
  }

  /** An entry that cannot be read comes before any block the address lies in. */
  ghost predicate ReachesUnreadable(lib: Library, cidrs: seq<string>, a: Addr) {
    exists i :: 0 <= i < |cidrs| && GoodPrefix(lib, cidrs[i]).None? && InNone(lib, cidrs[..i], a)
  }

  ghost predicate SourceAdmits(lib: Library, cidrs: seq<string>, clientIp: string) {
    cidrs == [] || (lib.parseAddr(clientIp).Some? && ReachesBlock(lib, cidrs, Unmap(lib.parseAddr(clientIp).value)))
  }

  ghost predicate SourceFails(lib: Library, cidrs: seq<string>, clientIp: string) {
    cidrs != [] && (lib.parseAddr(clientIp).Some? ==>
                      ReachesUnreadable(lib, cidrs, Unmap(lib.parseAddr(clientIp).value)))
  }

  ghost predicate Applies(lib: Library, p: Policy, rq: Request) {
    && Names(p.subject, rq) && Selects(lib, p.filter, rq)
    && ("*" in p.logins || rq.login in p.logins)
    && SourceAdmits(lib, p.sourceIps, rq.clientIp)
  }

  /** Some part of the policy that is looked at cannot be evaluated. */
  ghost predicate Fails(lib: Library, p: Policy, rq: Request) {
    && Names(p.subject, rq)
    && (|| SelectorFails(lib, p.filter, rq)
        || (Selects(lib, p.filter, rq) && ("*" in p.logins || rq.login in p.logins)
            && SourceFails(lib, p.sourceIps, rq.clientIp)))
  }

  /** An IPv4 address written inside IPv6 is that IPv4 address; any other stays itself. */
  lemma UnmapTakesOutIpv4(v: nat, zoned: bool, a: Addr)
    requires v < 0x1_0000_0000
    ensures Unmap(Addr(128, 0xffff_0000_0000 + v, zoned)) == Addr(32, v, false)
    ensures a.width != 128 || !(0xffff_0000_0000 <= a.value < 0x1_0000_0000_0000) ==> Unmap(a) == a
  {}

  /** The first entry decides if it holds the address or cannot be read; else the rest does. */
  lemma BlockIsFirstOrInRest(lib: Library, cidrs: seq<string>, a: Addr)
    requires cidrs != []
    ensures ReachesBlock(lib, cidrs, a)
            <==> || InBlock(lib, cidrs[0], a)
                 || (GoodPrefix(lib, cidrs[0]).Some? && ReachesBlock(lib, cidrs[1..], a))
  {
    var rest := cidrs[1..];
    if InBlock(lib, cidrs[0], a) {
      assert AllReadable(lib, cidrs[..0]);
    }
    if ReachesBlock(lib, cidrs, a) && !InBlock(lib, cidrs[0], a) {
      var i :| 0 <= i < |cidrs| && InBlock(lib, cidrs[i], a) && AllReadable(lib, cidrs[..i]);
      assert cidrs[..i] == [cidrs[0]] + rest[..i - 1] && rest[i - 1] == cidrs[i];
    }
    if GoodPrefix(lib, cidrs[0]).Some? && ReachesBlock(lib, rest, a) {
      var i :| 0 <= i < |rest| && InBlock(lib, rest[i], a) && AllReadable(lib, rest[..i]);
      assert cidrs[..i + 1] == [cidrs[0]] + rest[..i] && cidrs[i + 1] == rest[i];
    }
  }

  lemma UnreadableIsFirstOrInRest(lib: Library, cidrs: seq<string>, a: Addr)
    requires cidrs != []
    ensures ReachesUnreadable(lib, cidrs, a)
            <==> || GoodPrefix(lib, cidrs[0]).None?
                 || (!InBlock(lib, cidrs[0], a) && ReachesUnreadable(lib, cidrs[1..], a))
  {
    var rest := cidrs[1..];
    if GoodPrefix(lib, cidrs[0]).None? {
      assert InNone(lib, cidrs[..0], a);
    }
    if ReachesUnreadable(lib, cidrs, a) && GoodPrefix(lib, cidrs[0]).Some? {
      var i :| 0 <= i < |cidrs| && GoodPrefix(lib, cidrs[i]).None? && InNone(lib, cidrs[..i], a);
      assert cidrs[..i] == [cidrs[0]] + rest[..i - 1] && rest[i - 1] == cidrs[i];
    }
    if !InBlock(lib, cidrs[0], a) && ReachesUnreadable(lib, rest, a) {
      var i :| 0 <= i < |rest| && GoodPrefix(lib, rest[i]).None? && InNone(lib, rest[..i], a);
      assert cidrs[..i + 1] == [cidrs[0]] + rest[..i] && cidrs[i + 1] == rest[i];
    }
  }

  lemma {:induction false} BlocksAreSearchedInOrder(lib: Library, cidrs: seq<string>, a: Addr)
    ensures AnyPrefixContains(lib, cidrs, a) == Match <==> ReachesBlock(lib, cidrs, a)
    ensures AnyPrefixContains(lib, cidrs, a) == Broken <==> ReachesUnreadable(lib, cidrs, a)
  {
    if cidrs != [] {
      BlocksAreSearchedInOrder(lib, cidrs[1..], a);
      BlockIsFirstOrInRest(lib, cidrs, a);
      UnreadableIsFirstOrInRest(lib, cidrs, a);
      if GoodPrefix(lib, cidrs[0]).Some? {
        PrefixCoversBlock(GoodPrefix(lib, cidrs[0]).value, a);
      }
    }
  }

  /** A policy matches exactly if every one of its fields admits the request, and is broken exactly if one fails. */
  lemma PolicyAppliesIff(lib: Library, p: Policy, rq: Request)
    ensures PolicyApplies(lib, p, rq) == Match <==> Applies(lib, p, rq)
    ensures PolicyApplies(lib, p, rq) == Broken <==> Fails(lib, p, rq)
  {
    if lib.parseAddr(rq.clientIp).Some? {
      BlocksAreSearchedInOrder(lib, p.sourceIps, Unmap(lib.parseAddr(rq.clientIp).value));
    }
  }

  // ---------------------------------------------------------------------------------------------
  // Authorize
  // ---------------------------------------------------------------------------------------------

  datatype Decision = Decision(allowed: bool, requireReauth: bool, reauthPeriod: Option<int>, reason: string)

  ghost predicate Blocks(lib: Library, p: Policy, rq: Request) {
    p.deny && (Applies(lib, p, rq) || Fails(lib, p, rq))
  }

  ghost predicate Grants(lib: Library, p: Policy, rq: Request) {
    !p.deny && Applies(lib, p, rq)
  }

  ghost predicate Demands(lib: Library, p: Policy, rq: Request) {
    Grants(lib, p, rq) && p.requireReauth
  }

  /** No period means re-authenticating every session, which is the strictest of all. */
  predicate AtLeastAsStrict(a: Option<int>, b: Option<int>) {
    a.None? || (b.Some? && a.value <= b.value)
  }

  function StricterReauthPeriod(a: Option<int>, b: Option<int>): (c: Option<int>)
    ensures (c == a || c == b) && AtLeastAsStrict(c, a) && AtLeastAsStrict(c, b)
  {
    if a.None? || b.None? then None
    else if b.value < a.value then b
    else a
  }

  /** The strictest period among a set of policies. */
  ghost predicate Strictest(period: Option<int>, demanding: set<Policy>) {
    && (exists p :: p in demanding && p.reauthPeriod == period)
    && (forall p | p in demanding :: AtLeastAsStrict(period, p.reauthPeriod))
  }

  ghost function Granting(lib: Library, policies: set<Policy>, rq: Request): set<Policy> {
    set p | p in policies && Grants(lib, p, rq)
  }

  ghost function Demanding(lib: Library, policies: set<Policy>, rq: Request): set<Policy> {
    set p | p in policies && Demands(lib, p, rq)
  }

  /**
   * The decision for a member, from the policies' fields alone. Access is allowed exactly if no deny applies
   * or fails to evaluate and some allow applies. Re-authentication is required exactly if some matching
   * allow demands it and the member is not a service account, in the strictest window among those.
   */
  ghost predicate Decides(lib: Library, policies: set<Policy>, rq: Request, d: Decision) {
    && (d.allowed <==> (forall p | p in policies :: !Blocks(lib, p, rq))
                       && Granting(lib, policies, rq) != {})
    && (d.requireReauth <==> d.allowed && rq.userType != Service && Demanding(lib, policies, rq) != {})
    && (d.requireReauth ==> Strictest(d.reauthPeriod, Demanding(lib, policies, rq)))
    && (!d.requireReauth ==> d.reauthPeriod.None?)
  }

  datatype Member = Member(id: string, role: string, userType: UserType)

  /** The first member with the identifier, if any. */
  function FindMember(members: seq<Member>, id: string): (found: Option<Member>)
    ensures found.None? <==> forall m | m in members :: m.id != id
    ensures found.Some? ==>
              exists i :: 0 <= i < |members| && members[i] == found.value && found.value.id == id
                          && forall j | 0 <= j < i :: members[j].id != id
  {
    if members == [] then None
    else if members[0].id == id then Some(members[0])
    else FindMember(members[1..], id)
  }

  function SetOf(policies: seq<Policy>): set<Policy> {
    set p | p in policies
  }

  function As(rq: Request, m: Member): Request {
    rq.(role := m.role, userType := m.userType)
  }

  /** The first loop: a deny that matches, or that cannot be evaluated, ends the matter. */
  method FindDeny(lib: Library, policies: seq<Policy>, me: Request) returns (denied: bool, reason: string)
    ensures denied <==> exists p :: p in SetOf(policies) && Blocks(lib, p, me)
  {
    for i := 0 to |policies|
      invariant forall j | 0 <= j < i :: !Blocks(lib, policies[j], me)
    {
      var policy := policies[i];
      PolicyAppliesIff(lib, policy, me);
      if policy.deny {
        var matched := PolicyApplies(lib, policy, me);
        if matched == Broken {
          assert Blocks(lib, policy, me) && policy in SetOf(policies);
          return true, "denied: policy " + policy.name + " could not be evaluated";
        }
        if matched == Match {
          assert Blocks(lib, policy, me) && policy in SetOf(policies);
          return true, "denied by policy " + policy.name;
        }
      }
    }
    return false, "";
  }

  lemma StrictestOfOneMore(period: Option<int>, demanding: set<Policy>, p: Policy)
    requires Strictest(period, demanding)
    ensures Strictest(StricterReauthPeriod(period, p.reauthPeriod), demanding + {p})
  {
    var q :| q in demanding && q.reauthPeriod == period;
    assert q in demanding + {p} && p in demanding + {p};
  }

  lemma StrictestOfOne(p: Policy)
    ensures Strictest(p.reauthPeriod, {} + {p})
  {
    assert p in {} + {p};
  }

  lemma SeenOneMore(lib: Library, policies: seq<Policy>, i: nat, rq: Request)
    requires i < |policies|
    ensures SetOf(policies[..i + 1]) == SetOf(policies[..i]) + {policies[i]}
    ensures Demanding(lib, SetOf(policies[..i + 1]), rq)
         == Demanding(lib, SetOf(policies[..i]), rq) + (if Demands(lib, policies[i], rq) then {policies[i]} else {})
    ensures Granting(lib, SetOf(policies[..i + 1]), rq)
         == Granting(lib, SetOf(policies[..i]), rq) + (if Grants(lib, policies[i], rq) then {policies[i]} else {})
  {
    assert policies[..i + 1] == policies[..i] + [policies[i]];
  }

  /** The second loop: collects the matching allows and the strictest window they ask for. */
  method CollectAllows(lib: Library, policies: seq<Policy>, me: Request)
    returns (allowed: bool, requireReauth: bool, reauthPeriod: Option<int>)
    ensures allowed <==> Granting(lib, SetOf(policies), me) != {}
    ensures requireReauth <==> Demanding(lib, SetOf(policies), me) != {}
    ensures requireReauth ==> Strictest(reauthPeriod, Demanding(lib, SetOf(policies), me))
    ensures !requireReauth ==> reauthPeriod.None?
  {
    allowed, requireReauth, reauthPeriod := false, false, None;
    for i := 0 to |policies|
      invariant allowed <==> Granting(lib, SetOf(policies[..i]), me) != {}
      invariant requireReauth <==> Demanding(lib, SetOf(policies[..i]), me) != {}
      invariant requireReauth ==> Strictest(reauthPeriod, Demanding(lib, SetOf(policies[..i]), me))
      invariant !requireReauth ==> reauthPeriod.None?
    {
      var policy := policies[i];
      SeenOneMore(lib, policies, i, me);
      PolicyAppliesIff(lib, policy, me);
      if policy.deny {
        continue;
      }
      if PolicyApplies(lib, policy, me) != Match {
        continue;
      }
      allowed := true;
      if policy.requireReauth {
        if requireReauth {
          StrictestOfOneMore(reauthPeriod, Demanding(lib, SetOf(policies[..i]), me), policy);
        } else {
          StrictestOfOne(policy);
        }
        reauthPeriod := if requireReauth then StricterReauthPeriod(reauthPeriod, policy.reauthPeriod)
                        else policy.reauthPeriod;
        requireReauth := true;
      }
    }
    assert policies[..|policies|] == policies;
  }

  method Authorize(lib: Library, members: seq<Member>, policies: seq<Policy>, rq: Request) returns (d: Decision)
    ensures match FindMember(members, rq.user)
            case None => !d.allowed && !d.requireReauth && d.reauthPeriod.None?
            case Some(m) => Decides(lib, SetOf(policies), As(rq, m), d)
  {
    var found := FindMember(members, rq.user);
    if found.None? {
      return Decision(false, false, None, "user is not a member of the namespace");
    }
    var me := As(rq, found.value);
    var denied, reason := FindDeny(lib, policies, me);
    if denied {
      return Decision(false, false, None, reason);
    }
    var allowed, requireReauth, reauthPeriod := CollectAllows(lib, policies, me);
    if !allowed {
      return Decision(false, false, None, "no policy grants " + rq.login + " on this device");
    }
    if me.userType == Service {
      requireReauth := false;
      reauthPeriod := None;
    }
    return Decision(true, requireReauth, reauthPeriod, "");
  }

  /** The specification fixes every field but the reason. */
  lemma DecisionIsDetermined(lib: Library, policies: set<Policy>, rq: Request, d: Decision, e: Decision)
    requires Decides(lib, policies, rq, d) && Decides(lib, policies, rq, e)
    ensures d.(reason := "") == e.(reason := "")
  {
    if d.requireReauth {
      var demanding := Demanding(lib, policies, rq);
      var p :| p in demanding && p.reauthPeriod == d.reauthPeriod;
      var q :| q in demanding && q.reauthPeriod == e.reauthPeriod;
      assert AtLeastAsStrict(d.reauthPeriod, q.reauthPeriod) && AtLeastAsStrict(e.reauthPeriod, p.reauthPeriod);
    }
  }

  /** Any reordering of the policy list leaves every field but the reason as it was. */
  lemma OrderIsIrrelevant(lib: Library, policies: seq<Policy>, reordered: seq<Policy>, rq: Request, d: Decision, e: Decision)
    requires multiset(policies) == multiset(reordered)
    requires Decides(lib, SetOf(policies), rq, d) && Decides(lib, SetOf(reordered), rq, e)
    ensures d.(reason := "") == e.(reason := "")
  {
    forall p
      ensures p in policies <==> p in reordered
    {
      assert p in policies <==> p in multiset(policies);
      assert p in reordered <==> p in multiset(reordered);
    }
    assert SetOf(policies) == SetOf(reordered);
    DecisionIsDetermined(lib, SetOf(policies), rq, d, e);
  }

  /** One more deny never grants: access that is still allowed was allowed before, on the same terms. */
  lemma AddingDenyNeverGrants(lib: Library, policies: set<Policy>, deny: Policy, rq: Request, d: Decision, e: Decision)
    requires deny.deny
    requires Decides(lib, policies, rq, d) && Decides(lib, policies + {deny}, rq, e)
    ensures e.allowed ==> d.allowed && e.(reason := "") == d.(reason := "")
    ensures e.allowed <==> d.allowed && !Blocks(lib, deny, rq)
  {
    assert Demanding(lib, policies + {deny}, rq) == Demanding(lib, policies, rq);
    assert Granting(lib, policies + {deny}, rq) == Granting(lib, policies, rq);
    assert (forall p | p in policies + {deny} :: !Blocks(lib, p, rq))
           <==> !Blocks(lib, deny, rq) && forall p | p in policies :: !Blocks(lib, p, rq);
    if e.allowed {
      assert Decides(lib, policies, rq, e);
      DecisionIsDetermined(lib, policies, rq, d, e);
    }
  }

  /** One more allow never revokes access and never loosens re-authentication. */
  lemma AddingAllowNeverRevokesOrLoosens(lib: Library, policies: set<Policy>, allow: Policy, rq: Request,
                                         d: Decision, e: Decision)
    requires !allow.deny
    requires Decides(lib, policies, rq, d) && Decides(lib, policies + {allow}, rq, e)
    ensures d.allowed ==> e.allowed
    ensures d.requireReauth ==> e.requireReauth && AtLeastAsStrict(e.reauthPeriod, d.reauthPeriod)
  {
    assert Demanding(lib, policies, rq) <= Demanding(lib, policies + {allow}, rq);
    assert Granting(lib, policies, rq) <= Granting(lib, policies + {allow}, rq);
    if d.requireReauth {
      var p :| p in Demanding(lib, policies, rq) && p.reauthPeriod == d.reauthPeriod;
      assert p in Demanding(lib, policies + {allow}, rq);
    }
  }

  /** A service account gets in only through a policy that names it or its role, never through "all members". */
  lemma ServiceAccountsNeedAnExplicitGrant(lib: Library, policies: set<Policy>, rq: Request, d: Decision)
    requires Decides(lib, policies, rq, d) && d.allowed && rq.userType == Service
    ensures exists p :: p in policies && Grants(lib, p, rq) && p.subject in {ByUser(rq.user), ByRole(rq.role)}
    ensures !d.requireReauth
  {
    var p :| p in Granting(lib, policies, rq);
    assert SubjectMatches(p.subject, rq);
  }

  // ---------------------------------------------------------------------------------------------
  // Seeding
  // ---------------------------------------------------------------------------------------------

  function OwnerAccessPolicy(owner: string): Policy {
    Policy("Owner access", ByUser(owner), Filter("", []), ["*"], [], false, false, None)
  }

  class PolicyStore {
    var policies: seq<Policy>

    constructor ()
      ensures policies == []
    {
      policies := [];
    }

    method SeedAccessPolicy(owner: string)
      modifies this
      ensures policies == if old(policies) == [] then [OwnerAccessPolicy(owner)] else old(policies)
    {
      if |policies| > 0 {
        return;
      }
      policies := policies + [OwnerAccessPolicy(owner)];
    }
  }

  /** A freshly seeded namespace lets in exactly the owner: any device, any login, any source, no re-authentication. */
  lemma SeedAdmitsExactlyTheOwner(lib: Library, owner: string, rq: Request, d: Decision)
    requires Decides(lib, SetOf([OwnerAccessPolicy(owner)]), rq, d)
    ensures d.allowed <==> rq.user == owner
    ensures !d.requireReauth
  {
    var p := OwnerAccessPolicy(owner);
    assert SetOf([p]) == {p} && "*" in p.logins;
    assert Granting(lib, {p}, rq) == if rq.user == owner then {p} else {};
    assert Demanding(lib, {p}, rq) == {};
  }

  // ---------------------------------------------------------------------------------------------
  // Normalising source entries
  // ---------------------------------------------------------------------------------------------

  function Digits(n: nat): (s: string)
    ensures s != [] && forall c | c in s :: '0' <= c <= '9'
  {
    if n < 10 then ['0' + n as char] else Digits(n / 10) + ['0' + (n % 10) as char]
  }

  function HostRoute(lib: Library, a: Addr): string {
    lib.formatAddr(Unmap(a)) + "/" + Digits(Unmap(a).width)
  }

  /** One entry: trimmed, and turned into a host route if it is a bare address. */
  function NormalEntry(lib: Library, entry: string): string {
    var e := TrimSpace(entry);
    if '/' !in e && lib.parseAddr(e).Some? then HostRoute(lib, lib.parseAddr(e).value) else e
  }

  function Normalized(lib: Library, entries: seq<string>): seq<string> {
    if entries == [] then []
    else
      var last := entries[|entries| - 1];
      Normalized(lib, entries[..|entries| - 1]) + (if TrimSpace(last) == "" then [] else [NormalEntry(lib, last)])
  }

  method NormalizeSourceIps(lib: Library, entries: seq<string>) returns (out: seq<string>)
    ensures out == Normalized(lib, entries)
  {
    out := [];
    for i := 0 to |entries|
      invariant out == Normalized(lib, entries[..i])
    {
      assert entries[..i + 1][..i] == entries[..i];
      var entry := TrimSpace(entries[i]);
      if entry == "" {
        continue;
      }
      if '/' !in entry {
        var addr := lib.parseAddr(entry);
        if addr.Some? {
          entry := HostRoute(lib, addr.value);
        }
      }
      out := out + [entry];
    }
    assert entries[..|entries|] == entries;
  }

  /** Printed addresses are not empty and start with no blank. */
  ghost predicate PrintsPlainly(lib: Library) {
    forall a :: lib.formatAddr(a) != "" && !IsSpace(lib.formatAddr(a)[0])
  }

  lemma NormalEntryIsFixed(lib: Library, entry: string)
    requires PrintsPlainly(lib) && TrimSpace(entry) != ""
    ensures NormalEntry(lib, NormalEntry(lib, entry)) == NormalEntry(lib, entry)
    ensures TrimSpace(NormalEntry(lib, entry)) != ""
  {
    var e := TrimSpace(entry);
    TrimSpaceTrims(entry);
    if '/' !in e && lib.parseAddr(e).Some? {
      var a := lib.parseAddr(e).value;
      var route := HostRoute(lib, a);
      var digits := Digits(Unmap(a).width);
      assert route[|lib.formatAddr(Unmap(a))|] == '/';
      assert route[|route| - 1] == digits[|digits| - 1] && digits[|digits| - 1] in digits;
      assert Trimmed(route);
    }
  }

  /** Normalising a list twice is normalising it once. */
  lemma {:induction false} NormalizingIsIdempotent(lib: Library, entries: seq<string>)
    requires PrintsPlainly(lib)
    ensures Normalized(lib, Normalized(lib, entries)) == Normalized(lib, entries)
  {
    if entries != [] {
      var n := |entries| - 1;
      NormalizingIsIdempotent(lib, entries[..n]);
      var front := Normalized(lib, entries[..n]);
      if TrimSpace(entries[n]) == "" {
        assert Normalized(lib, entries) == front;
      } else {
        NormalEntryIsFixed(lib, entries[n]);
        var e := NormalEntry(lib, entries[n]);
        assert Normalized(lib, entries) == front + [e];
        assert (front + [e])[..|front|] == front;
      }
    }
  }

  ghost predicate NormalFormOf(lib: Library, entries: seq<string>, e: string) {
    exists x :: x in entries && TrimSpace(x) != "" && NormalEntry(lib, x) == e
  }

  /** The result holds the normal forms of the entries that are not blank, and nothing else. */
  lemma {:induction false} NormalizingKeepsEntries(lib: Library, entries: seq<string>, e: string)
    ensures e in Normalized(lib, entries) <==> NormalFormOf(lib, entries, e)
  {
    if entries != [] {
      var n := |entries| - 1;
      var front, last := entries[..n], entries[n];
      NormalizingKeepsEntries(lib, front, e);
      assert entries == front + [last];
      assert forall x :: x in entries <==> x in front || x == last;
    }
  }

  /** Without blanks each entry's normal form stands where the entry stood. */
  lemma {:induction false} NormalizingKeepsOrder(lib: Library, entries: seq<string>)
    requires forall x | x in entries :: TrimSpace(x) != ""
    ensures |Normalized(lib, entries)| == |entries|
    ensures forall i | 0 <= i < |entries| :: Normalized(lib, entries)[i] == NormalEntry(lib, entries[i])
  {
    if entries != [] {
      var n := |entries| - 1;
      NormalizingKeepsOrder(lib, entries[..n]);
      assert forall i | 0 <= i < n :: entries[..n][i] == entries[i];
    }
  }

  /** Only bare addresses are rewritten: into the printed address, freed from IPv6, and its full length. */
  lemma NormalEntryIff(lib: Library, entry: string)
    ensures var e := TrimSpace(entry);
            if '/' !in e && lib.parseAddr(e).Some?
            then var a := Unmap(lib.parseAddr(e).value);
                 NormalEntry(lib, entry) == lib.formatAddr(a) + "/" + Digits(a.width)
            else NormalEntry(lib, entry) == e
    ensures Digits(32) == "32" && Digits(128) == "128"
  {}

  /** A bare address, once normalised, lets in that one host and no other. */
  lemma BareAddressBecomesHostRoute(lib: Library, entry: string, client: Addr)
    requires '/' !in TrimSpace(entry) && lib.parseAddr(TrimSpace(entry)).Some?
    requires var a := Unmap(lib.parseAddr(TrimSpace(entry)).value);
             lib.parsePrefix(NormalEntry(lib, entry)) == Some(Prefix(a.width, a.value, a.width))
    ensures AnyPrefixContains(lib, [NormalEntry(lib, entry)], Unmap(client)) == Match
            <==> var a := Unmap(lib.parseAddr(TrimSpace(entry)).value);
                 Unmap(client) == Addr(a.width, a.value, false)
  {
    var a := Unmap(lib.parseAddr(TrimSpace(entry)).value);
    PrefixCoversBlock(Prefix(a.width, a.value, a.width), Unmap(client));
  }
}
