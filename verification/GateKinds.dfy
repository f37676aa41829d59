/** Three kinds of gated request share one limiter under their own keys: logins,
    profile PINs (internal/auth/profile_service.go) and refreshes. */
module GateKinds {
  import opened Common
  import opened RateLimit
  import opened LoginGate

  function PinKey(profile: string): string { "pin:" + profile }
  function PinIpKey(ip: string): string { "pin:ip:" + ip }

  datatype Kind = OfLogin | OfRefresh | OfPin

  datatype Request =
    | LoginRequest(username: string, ip: string, at: int, verdict: Verdict)
    | RefreshRequest(tokenHash: string, ip: string, at: int, verdict: Verdict)
    | PinRequest(profile: string, ip: string, at: int, verdict: Verdict)

  function CallOf(r: Request): Call {
    match r
    case LoginRequest(username, ip, at, verdict) => Call(UserKey(username, ip), IpKey(ip), at, verdict)
    case RefreshRequest(tokenHash, ip, at, verdict) => Call(RefreshIpKey(ip), RefreshTokenKey(tokenHash), at, verdict)
    case PinRequest(profile, ip, at, verdict) => Call(PinKey(profile), PinIpKey(ip), at, verdict)
  }

  function KindOf(r: Request): Kind {
    match r
    case LoginRequest(_, _, _, _) => OfLogin
    case RefreshRequest(_, _, _, _) => OfRefresh
    case PinRequest(_, _, _, _) => OfPin
  }

  /** The kind that a key is of, read off its first character. */
  function KeyKind(key: string): Kind {
    if key != "" && key[0] == 'r' then OfRefresh else if key != "" && key[0] == 'p' then OfPin else OfLogin
  }

  lemma KeysAreOfTheirKind(r: Request)
    ensures KeyKind(CallOf(r).first) == KindOf(r) && KeyKind(CallOf(r).second) == KindOf(r)
  {
    match r {
      case LoginRequest(username, ip, _, _) => assert UserKey(username, ip)[0] == 'u' && IpKey(ip)[0] == 'i';
      case RefreshRequest(tokenHash, ip, _, _) => assert RefreshIpKey(ip)[0] == 'r' && RefreshTokenKey(tokenHash)[0] == 'r';
      case PinRequest(profile, ip, _, _) => assert PinKey(profile)[0] == 'p' && PinIpKey(ip)[0] == 'p';
    }
  }

  /** The two keys of a request differ, as the gate needs, but for a PIN whose
      profile id spells the address. */
  lemma KeysDifferIff(r: Request)
    ensures CallOf(r).first != CallOf(r).second <==> !(r.PinRequest? && r.profile == "ip:" + r.ip)
  {
    KeysAreOfTheirKind(r);
    match r {
      case LoginRequest(username, ip, _, _) => assert UserKey(username, ip)[0] == 'u' && IpKey(ip)[0] == 'i';
      case RefreshRequest(tokenHash, ip, _, _) => assert RefreshIpKey(ip)[8] == 'i' && RefreshTokenKey(tokenHash)[8] == 't';
      case PinRequest(profile, ip, _, _) =>
        assert PinKey(profile)[4..] == profile;
        assert PinIpKey(ip)[4..] == "ip:" + ip;
        assert PinIpKey(ip) == "pin:" + ("ip:" + ip);
    }
  }

  lemma Ends(head: string, a: string, b: string, tail: string)
    ensures head + a + tail == head + b + tail <==> a == b
  {
    var x, y := head + a + tail, head + b + tail;
    if x == y {
      assert |a| == |b|;
      assert x[|head|..|head| + |a|] == a && y[|head|..|head| + |b|] == b;
    }
  }

  /** Every user, address, token and profile has its own keys. */
  lemma KeysAreTheirOwn(a: string, b: string, ip: string)
    ensures UserKey(a, ip) == UserKey(b, ip) <==> a == b
    ensures IpKey(a) == IpKey(b) <==> a == b
    ensures RefreshIpKey(a) == RefreshIpKey(b) <==> a == b
    ensures RefreshTokenKey(a) == RefreshTokenKey(b) <==> a == b
    ensures PinKey(a) == PinKey(b) <==> a == b
    ensures PinIpKey(a) == PinIpKey(b) <==> a == b
  {
    assert "user:" + a + "@" + ip == "user:" + a + ("@" + ip) && "user:" + b + "@" + ip == "user:" + b + ("@" + ip);
    Ends("user:", a, b, "@" + ip);
    OwnTail("ip:", a, b);
    OwnTail("refresh:ip:", a, b);
    OwnTail("refresh:tok:", a, b);
    OwnTail("pin:", a, b);
    OwnTail("pin:ip:", a, b);
  }

  lemma OwnTail(head: string, a: string, b: string)
    ensures head + a == head + b <==> a == b
  {
    assert (head + a)[|head|..] == a && (head + b)[|head|..] == b;
  }

  function AfterRequest(p: Policy, m: Table, r: Request): Table { Run(p, m, GateOps(p, m, CallOf(r))) }

  /** Which of the requests of one sort are let through. */
  function Admissions(p: Policy, m: Table, rs: seq<Request>, sort: Request -> bool): seq<bool>
    decreases |rs|
  {
    if rs == [] then []
    else (if sort(rs[0]) then [Admitted(p, m, CallOf(rs[0]))] else [])
         + Admissions(p, AfterRequest(p, m, rs[0]), rs[1..], sort)
  }

  function OfSort(rs: seq<Request>, sort: Request -> bool): seq<Request> {
    if rs == [] then [] else (if sort(rs[0]) then [rs[0]] else []) + OfSort(rs[1..], sort)
  }

  ghost predicate AgreeOn(m: Table, m': Table, mine: string -> bool) {
    forall key :: mine(key) ==> Lookup(m, key) == Lookup(m', key)
  }

  /** Requests of the sort use keys of its own, all others do not. */
  ghost predicate Apart(rs: seq<Request>, sort: Request -> bool, mine: string -> bool) {
    forall i :: 0 <= i < |rs| ==> mine(CallOf(rs[i]).first) == mine(CallOf(rs[i]).second) == sort(rs[i])
  }

  lemma {:induction false} UntouchedKey(p: Policy, m: Table, key: string, ops: seq<Op>)
    requires forall i :: 0 <= i < |ops| ==> !ops[i].Sweep? && ops[i].key != key
    ensures Lookup(Run(p, m, ops), key) == Lookup(m, key)
    decreases |ops|
  {
    if ops != [] {
      assert forall i :: 0 <= i < |ops[1..]| ==> ops[1..][i] == ops[i + 1];
      UntouchedKey(p, Next(p, m, ops[0]), key, ops[1..]);
    }
  }

  lemma OtherSortKeeps(p: Policy, m: Table, r: Request, key: string)
    requires key != CallOf(r).first && key != CallOf(r).second
    ensures Lookup(AfterRequest(p, m, r), key) == Lookup(m, key)
  {
    UntouchedKey(p, m, key, GateOps(p, m, CallOf(r)));
  }

  lemma SameAnswer(p: Policy, m: Table, m': Table, c: Call)
    requires Lookup(m, c.first) == Lookup(m', c.first) && Lookup(m, c.second) == Lookup(m', c.second)
    ensures Admitted(p, m, c) == Admitted(p, m', c) && GateOps(p, m, c) == GateOps(p, m', c)
  {
    var n, n' := AfterCheck(p, m, c.first, c.at), AfterCheck(p, m', c.first, c.at);
    assert Lookup(n, c.second) == Lookup(n', c.second);
  }

  lemma SameSortAgrees(p: Policy, m: Table, m': Table, r: Request, mine: string -> bool)
    requires AgreeOn(m, m', mine) && mine(CallOf(r).first) && mine(CallOf(r).second)
    ensures Admitted(p, m, CallOf(r)) == Admitted(p, m', CallOf(r))
    ensures AgreeOn(AfterRequest(p, m, r), AfterRequest(p, m', r), mine)
  {
    SameAnswer(p, m, m', CallOf(r));
    var ops := GateOps(p, m, CallOf(r));
    forall key | mine(key)
      ensures Lookup(Run(p, m, ops), key) == Lookup(Run(p, m', ops), key)
    {
      KeysAreIndependent(p, m, m', key, ops);
      KeysAreIndependent(p, m', m', key, ops);
    }
  }

  lemma {:induction false} AdmissionsAgree(p: Policy, m: Table, m': Table, rs: seq<Request>, sort: Request -> bool, mine: string -> bool)
    requires AgreeOn(m, m', mine) && Apart(rs, sort, mine)
    ensures Admissions(p, m, rs, sort) == Admissions(p, m', OfSort(rs, sort), sort)
    decreases |rs|
  {
    if rs != [] {
      var r := rs[0];
      var n := AfterRequest(p, m, r);
      assert Apart(rs[1..], sort, mine) by { assert forall i :: 0 <= i < |rs[1..]| ==> rs[1..][i] == rs[i + 1]; }
      if sort(r) {
        SameSortAgrees(p, m, m', r, mine);
        AdmissionsAgree(p, n, AfterRequest(p, m', r), rs[1..], sort, mine);
        assert OfSort(rs, sort)[0] == r && OfSort(rs, sort)[1..] == OfSort(rs[1..], sort);
      } else {
        forall key | mine(key)
          ensures Lookup(n, key) == Lookup(m', key)
        {
          OtherSortKeeps(p, m, r, key);
        }
        AdmissionsAgree(p, n, m', rs[1..], sort, mine);
        assert OfSort(rs, sort) == OfSort(rs[1..], sort);
      }
    }
  }

  /** No flood of one kind blocks another: leaving out all logins, refreshes or
      PIN attempts changes no admission of the others, whoever makes them. */
  lemma FloodsStayApart(p: Policy, m: Table, rs: seq<Request>, kind: Kind)
    ensures var sort := (r: Request) => KindOf(r) == kind; Admissions(p, m, rs, sort) == Admissions(p, m, OfSort(rs, sort), sort)
  {
    var sort, mine := (r: Request) => KindOf(r) == kind, (key: string) => KeyKind(key) == kind;
    forall i | 0 <= i < |rs| ensures mine(CallOf(rs[i]).first) == mine(CallOf(rs[i]).second) == sort(rs[i]) {
      KeysAreOfTheirKind(rs[i]);
    }
    AdmissionsAgree(p, m, m, rs, sort, mine);
  }

  // ---- Nobody is locked out from another address ----

  predicate LoginFrom(r: Request, ip: string) { r.LoginRequest? && r.ip == ip }

  /** The key names this address: the whole of it, or what follows its last at sign. */
  predicate Names(key: string, ip: string) {
    key == IpKey(ip) || (key != "" && key[0] == 'u' && |key| > |ip| && key[|key| - |ip| - 1..] == "@" + ip)
  }

  lemma LoginNames(username: string, from: string, ip: string)
    requires '@' !in from && '@' !in ip
    ensures Names(UserKey(username, from), ip) <==> from == ip
    ensures Names(IpKey(from), ip) <==> from == ip
  {
    var key := UserKey(username, from);
    var head := "user:" + username;
    assert key == head + "@" + from && key[0] == 'u' && IpKey(from)[0] == 'i' && IpKey(ip)[0] == 'i';
    assert key[|head|] == '@' && key[|head| + 1..] == from;
    assert IpKey(from)[3..] == from && IpKey(ip)[3..] == ip;
    if |key| > |ip| && key[|key| - |ip| - 1..] == "@" + ip {
      LastAt(key, |head|, |key| - |ip| - 1);
    }
    if from == ip { assert key[|head|..] == "@" + ip; }
  }

  lemma LastAt(key: string, i: nat, j: nat)
    requires i < |key| && j < |key| && key[i] == '@' && key[j] == '@'
    requires '@' !in key[i + 1..] && '@' !in key[j + 1..]
    ensures i == j
  {
  }

  /** Failing logins for a user from one address never locks that user out from
      another: leaving out everything but the logins from an address changes no
      admission of these. */
  lemma AddressesStayApart(p: Policy, m: Table, rs: seq<Request>, ip: string)
    requires '@' !in ip && forall i :: 0 <= i < |rs| && rs[i].LoginRequest? ==> '@' !in rs[i].ip
    ensures var sort := (r: Request) => LoginFrom(r, ip); Admissions(p, m, rs, sort) == Admissions(p, m, OfSort(rs, sort), sort)
  {
    var sort, mine := (r: Request) => LoginFrom(r, ip), (key: string) => Names(key, ip);
    forall i | 0 <= i < |rs| ensures mine(CallOf(rs[i]).first) == mine(CallOf(rs[i]).second) == sort(rs[i]) {
      if rs[i].LoginRequest? {
        LoginNames(rs[i].username, rs[i].ip, ip);
      } else {
        KeysAreOfTheirKind(rs[i]);
      }
    }
    AdmissionsAgree(p, m, m, rs, sort, mine);
  }

  // ---- The PIN gate ----

  /** A user row as far as switching goes; the parent is "" unless it is a
      profile. */
  datatype Profile = Profile(id: string, parent: string, active: bool, hasPin: bool)

  /** The PIN on the wire: none, or one and what bcrypt says of it. */
  datatype Pin = NoPin | Given(matches: bool)

  datatype Switch = NotFound | NotFamily | Disabled | TooManyPins | WrongPin | Switched(profile: string)

  /** The same account, an account and its profile, or two profiles of one account. */
  predicate SameFamily(a: Profile, b: Profile) {
    if a.parent == "" && b.parent == "" then a.id == b.id
    else if a.parent == "" then b.parent == a.id
    else if b.parent == "" then a.parent == b.id
    else a.parent == b.parent
  }

  function PinVerdict(pin: Pin): Verdict { if pin.Given? && pin.matches then Clear else PenaliseBoth }

  /** The source has a PIN checked. */
  predicate AsksPin(current: Option<Profile>, target: Option<Profile>) {
    && current.Some? && target.Some? && SameFamily(current.value, target.value)
    && target.value.active && target.value.hasPin
  }

  lemma PinReachesKeys(p: Policy, m: Table, profile: string, ip: string, now: int, verdict: Verdict)
    ensures var c := CallOf(PinRequest(profile, ip, now, verdict)); var m' := AfterRequest(p, m, PinRequest(profile, ip, now, verdict));
      profile != "ip:" + ip ==>
        && (Admitted(p, m, c) <==> !Barred(p, m, c.first, now) && !Barred(p, m, c.second, now))
        && Reached(p, m, m', c.first, c.second, now, Admitted(p, m, c), verdict)
  {
    var r := PinRequest(profile, ip, now, verdict);
    KeysDifferIff(r);
    if profile != "ip:" + ip {
      ChecksCountNothing(p, m, CallOf(r));
      GateThenReport(p, m, CallOf(r));
      if Admitted(p, m, CallOf(r)) { OutcomeReachesKeys(p, m, CallOf(r)); }
    }
  }

  /** What the PIN gate of a profile answers and leaves, said on the records; the
      two keys are one when the profile id spells the address. */
  ghost predicate PinGated(p: Policy, m: Table, m': Table, profile: string, ip: string, pin: Pin, now: int, r: Switch) {
    && (r.TooManyPins? || r.WrongPin? || r == Switched(profile))
    && (r.WrongPin? ==> !(pin.Given? && pin.matches)) && (r.Switched? ==> pin.Given? && pin.matches)
    && (profile != "ip:" + ip ==>
          && (r.TooManyPins? <==> Barred(p, m, PinKey(profile), now) || Barred(p, m, PinIpKey(ip), now))
          && Reached(p, m, m', PinKey(profile), PinIpKey(ip), now, !r.TooManyPins?, if r.WrongPin? then PenaliseBoth else Clear))
  }

  method CheckPin(limiter: LoginRateLimiter, profile: string, pin: Pin, ip: string, now: int) returns (r: Switch)
    requires limiter.Valid()
    modifies limiter, limiter.attempts.Values
    ensures limiter.Valid() && fresh(limiter.attempts.Values - old(limiter.attempts.Values))
    ensures limiter.Contents() == AfterRequest(limiter.policy, old(limiter.Contents()), PinRequest(profile, ip, now, PinVerdict(pin)))
    ensures r.TooManyPins? <==> !Admitted(limiter.policy, old(limiter.Contents()), CallOf(PinRequest(profile, ip, now, PinVerdict(pin))))
    ensures PinGated(limiter.policy, old(limiter.Contents()), limiter.Contents(), profile, ip, pin, now, r)
  {
    ghost var m := limiter.Contents();
    var call := CallOf(PinRequest(profile, ip, now, PinVerdict(pin)));
    GateThenReport(limiter.policy, m, call);
    PinReachesKeys(limiter.policy, m, profile, ip, now, PinVerdict(pin));
    var ok := Admit(limiter, call.first, call.second, now);
    if !ok {
      return TooManyPins;
    }
    Report(limiter, call);
    if pin.NoPin? {
      return WrongPin;
    }
    if !pin.matches {
      return WrongPin;
    }
    return Switched(profile);
  }

  /** SwitchProfile up to the point where a session is issued. */
  method SwitchProfile(limiter: LoginRateLimiter, current: Option<Profile>, target: Option<Profile>, pin: Pin, ip: string, now: int)
    returns (r: Switch)
    requires limiter.Valid()
    modifies limiter, limiter.attempts.Values
    ensures limiter.Valid() && fresh(limiter.attempts.Values - old(limiter.attempts.Values))
    ensures !AsksPin(current, target) ==> limiter.Contents() == old(limiter.Contents())
    ensures AsksPin(current, target) ==>
              && limiter.Contents() == AfterRequest(limiter.policy, old(limiter.Contents()), PinRequest(target.value.id, ip, now, PinVerdict(pin)))
              && PinGated(limiter.policy, old(limiter.Contents()), limiter.Contents(), target.value.id, ip, pin, now, r)
    ensures r.NotFound? <==> current.None? || target.None?
    ensures r.NotFamily? <==> current.Some? && target.Some? && !SameFamily(current.value, target.value)
    ensures r.Disabled? <==> current.Some? && target.Some? && SameFamily(current.value, target.value) && !target.value.active
    ensures r.TooManyPins? || r.WrongPin? ==> AsksPin(current, target)
    ensures r.Switched? ==> target.Some? && r.profile == target.value.id
  {
    if current.None? || target.None? {
      return NotFound;
    }
    var currentOwner := if current.value.parent != "" then current.value.parent else current.value.id;
    var targetOwner := if target.value.parent != "" then target.value.parent else target.value.id;
    if currentOwner != targetOwner {
      return NotFamily;
    }
    if !target.value.active {
      return Disabled;
    }
    if target.value.hasPin {
      r := CheckPin(limiter, target.value.id, pin, ip, now);
      return;
    }
    return Switched(target.value.id);
  }
}
