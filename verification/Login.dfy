// The login, approval and second-factor loops of src/server.rs run_session_public. Time, the
// approval window, the configuration and the network are the Ticks a run is given.

module LoginSpec {
  import opened MachineInts

  const PRE_LOGIN_LIMIT: nat := 4 * 1024 * 1024
  const LOGGED_IN_LIMIT: nat := 16 * 1024 * 1024

  // The temporary and the permanent password as stored, and as loaded when a request is looked
  // at: loading makes up a temporary password where none is stored.
  datatype Stored = Stored(current: string, permanent: string)

  type Passwords = p: Stored | p.current != "" witness Stored("0", "")

  function Load(p: Stored, made: string): Passwords
    requires made != ""
  {
    if p.current == "" then p.(current := made) else p
  }

  // compute_password_hash and compute_prehashed_check under this session's salt and challenge.
  datatype Hashing = Hashing(full: string -> seq<byte>, prehashed: string -> seq<byte>)

  datatype Kind = Desktop | FileTransfer | PortForward | Terminal
  datatype Request = Request(password: seq<byte>, kind: Kind)

  datatype Message =
    | TestDelay
    | Misc
    | Login(r: Request)
    | SwitchSides(r: Request, known: bool)   // known: the stored request matched and was taken
    | Invite
    | Auth2fa(code: string)
    | Other

  datatype Recv = Idle | Lost | Garbled | Got(m: Message)
  datatype Keepalive = NotDue | Delivered | Failed

  // One turn of a loop: the clock in milliseconds, the keepalive, what was read, the passwords, the approval answer.
  datatype Tick = Tick(now: nat, expired: bool, alive: Keepalive, recv: Recv, pw: Passwords, cm: Answer)
  datatype Answer = NoAnswer | Accept | Reject

  datatype Reply =
    | KeepAlive | WrongPassword | Rejected | RejectedTimeout | ConnectionFailed | TwoFaRequired | Disabled | PeerInfo

  // ----- what a login attempt has to show -----

  predicate Proves(k: Hashing, password: string, shown: seq<byte>)
  {
    shown == k.full(password) || shown == k.prehashed(password)
  }

  predicate Matches(k: Hashing, p: Passwords, shown: seq<byte>)
  {
    && |shown| == 32
    && ((p.current != "" && Proves(k, p.current, shown)) || (p.permanent != "" && Proves(k, p.permanent, shown)))
  }

  // While the approval window is open the temporary password is compared without asking whether
  // there is one.
  predicate MatchesWhileOpen(k: Hashing, p: Passwords, shown: seq<byte>)
  {
    |shown| == 32 && (Proves(k, p.current, shown) || (p.permanent != "" && Proves(k, p.permanent, shown)))
  }

  predicate Asks(t: Tick) { t.recv.Got? && t.recv.m.Login? }

  predicate AsksApproval(t: Tick) { Asks(t) && t.recv.m.r.password == [] }

  // ----- a run up to now decides what the next tick means -----

  // The approval window opens at the first request without a password and is never left.
  predicate Open(h: seq<Tick>) { exists i :: 0 <= i < |h| && AsksApproval(h[i]) }

  // Login requests seen by the outer loop.
  function Attempts(h: seq<Tick>): nat
  {
    if h == [] then 0
    else
      var n := |h| - 1;
      Attempts(h[..n]) + (if Asks(h[n]) && !Open(h[..n]) then 1 else 0)
  }

  predicate Live(t: Tick) { !t.expired && t.alive != Failed }

  predicate Grants(k: Hashing, h: seq<Tick>, t: Tick)
  {
    && Live(t)
    && if Open(h) then
         t.recv != Lost && ((Asks(t) && MatchesWhileOpen(k, t.pw, t.recv.m.r.password)) || t.cm == Accept)
       else
         (Asks(t) && Matches(k, t.pw, t.recv.m.r.password)) || (t.recv.Got? && t.recv.m.SwitchSides? && t.recv.m.known)
  }

  predicate Ends(k: Hashing, h: seq<Tick>, t: Tick)
  {
    !Grants(k, h, t) &&
    (!Live(t) || t.recv == Lost || if Open(h) then t.cm == Reject else Hopeless(h, t))
  }

  // A refused switch, an invitation, or the fifth wrong password.
  predicate Hopeless(h: seq<Tick>, t: Tick)
  {
    t.recv.Got? && match t.recv.m
                   case SwitchSides(_, known) => !known
                   case Invite => true
                   case Login(r) => r.password != [] && Attempts(h) >= 4
                   case _ => false
  }

  function Replies(k: Hashing, h: seq<Tick>, t: Tick): seq<Reply>
  {
    if t.expired then if Open(h) then [RejectedTimeout] else []
    else if t.alive == Failed || t.recv == Lost then Beat(t)
    else if Open(h) then
      Beat(t)
      + (if Asks(t) && |t.recv.m.r.password| == 32 && !MatchesWhileOpen(k, t.pw, t.recv.m.r.password) then
           [WrongPassword]
         else [])
      + (if !Grants(k, h, t) && t.cm == Reject then [Rejected] else [])
    else
      Beat(t)
      + (if Asks(t) && t.recv.m.r.password != [] && !Matches(k, t.pw, t.recv.m.r.password) then [WrongPassword] else [])
      + (if t.recv.Got? && t.recv.m.SwitchSides? && !t.recv.m.known then [ConnectionFailed] else [])
  }

  function Beat(t: Tick): seq<Reply> { if t.alive == Delivered then [KeepAlive] else [] }

  // The request whose session is granted: the approved one unless this tick brought its own.
  function Granted(k: Hashing, h: seq<Tick>, t: Tick): Request
    requires Grants(k, h, t)
  {
    if Asks(t) && (!Open(h) || MatchesWhileOpen(k, t.pw, t.recv.m.r.password)) then t.recv.m.r
    else if Open(h) then FirstApproval(h)
    else t.recv.m.r
  }

  function FirstApproval(h: seq<Tick>): Request
    requires Open(h)
  {
    var n := |h| - 1;
    if Open(h[..n]) then FirstApproval(h[..n]) else h[n].recv.m.r
  }

  // Nothing so far granted or ended the run.
  ghost predicate Undecided(k: Hashing, h: seq<Tick>)
  {
    forall i :: 0 <= i < |h| ==> !Grants(k, h[..i], h[i]) && !Ends(k, h[..i], h[i])
  }

  function Outs(r: seq<Reply>): seq<Event> { seq(|r|, i requires 0 <= i < |r| => Out(r[i])) }

  type Talk = (seq<Tick>, Tick) -> seq<Reply>

  // What a stage that answers like f does to the stream.
  function Events(f: Talk, h: seq<Tick>): seq<Event>
  {
    if h == [] then []
    else
      var n := |h| - 1;
      Events(f, h[..n]) + [In(h[n])] + Outs(f(h[..n], h[n]))
  }

  function LoginTalk(k: Hashing): Talk { (h: seq<Tick>, t: Tick) => Replies(k, h, t) }

  // ----- the second factor -----

  predicate IsCode(t: Tick) { t.recv.Got? && t.recv.m.Auth2fa? }

  function Codes(h: seq<Tick>): nat
  {
    if h == [] then 0 else Codes(h[..|h| - 1]) + (if IsCode(h[|h| - 1]) then 1 else 0)
  }

  // Nothing so far but codes that were wrong when they came and other messages.
  ghost predicate Trying(right: (nat, string) -> bool, h: seq<Tick>)
  {
    forall i :: 0 <= i < |h| ==>
      (h[i].recv.Got? || h[i].recv.Garbled?) && (IsCode(h[i]) ==> !right(h[i].now, h[i].recv.m.code))
  }

  function CodeReply(right: (nat, string) -> bool, t: Tick): seq<Reply>
  {
    if IsCode(t) && !right(t.now, t.recv.m.code) then [TwoFaRequired] else []
  }

  function CodeTalk(right: (nat, string) -> bool): Talk { (h: seq<Tick>, t: Tick) => CodeReply(right, t) }

  // Ends with the right code, which is at most the fifth tried; all the others were wrong.
  ghost predicate SecondFactor(right: (nat, string) -> bool, h: seq<Tick>)
  {
    && h != [] && Trying(right, h[..|h| - 1])
    && IsCode(h[|h| - 1]) && right(h[|h| - 1].now, h[|h| - 1].recv.m.code) && Codes(h) <= 5
  }

  // ----- traces -----

  datatype Event = In(t: Tick) | Out(r: Reply) | Limit(n: nat)

  function Inputs(tr: seq<Event>): seq<Tick>
  {
    if tr == [] then []
    else
      var n := |tr| - 1;
      Inputs(tr[..n]) + (if tr[n].In? then [tr[n].t] else [])
  }

  // Somewhere in what came in there is a grant, and after it, where a secret is set, the second factor.
  ghost predicate Cleared(k: Hashing, secret: Second, h: seq<Tick>)
  {
    exists n :: 0 < n <= |h| && Grants(k, h[..n - 1], h[n - 1]) && Attempts(h[..n]) <= 5
                && (secret.Secret? ==> SecondFactor(secret.right, h[n..]))
  }

  datatype Second = NoSecret | Secret(right: (nat, string) -> bool)

  function LimitOf(tr: seq<Event>): nat
  {
    if tr == [] then 0 else if tr[|tr| - 1].Limit? then tr[|tr| - 1].n else LimitOf(tr[..|tr| - 1])
  }

  ghost predicate Privileged(e: Event) { e == Out(PeerInfo) || (e.Limit? && e.n != PRE_LOGIN_LIMIT) }

  ghost predicate Safe(k: Hashing, secret: Second, tr: seq<Event>)
  {
    && tr != [] && tr[0] == Limit(PRE_LOGIN_LIMIT)
    && forall i :: 0 <= i < |tr| && Privileged(tr[i]) ==> Cleared(k, secret, Inputs(tr[..i]))
  }
}

module LoginCode {
  import opened MachineInts
  import opened LoginSpec

  datatype Verdict = GoOn | Grant(r: Request) | Close | OpenWindow(asked: Request)

  // The turn of the outer loop; attempt counts the requests before it.
  method OuterTurn(k: Hashing, t: Tick, ghost h: seq<Tick>, attempt: nat) returns (v: Verdict, said: seq<Reply>)
    requires !Open(h) && attempt == Attempts(h) <= 4
    ensures said == Replies(k, h, t) && Agrees(k, h, t, v)
    ensures v.OpenWindow? <==> Live(t) && AsksApproval(t)
    ensures v.OpenWindow? ==> v.asked == t.recv.m.r
    ensures v.GoOn? && Asks(t) ==> attempt < 4
  {
    said := [];
    if t.expired { return Close, said; }
    if t.alive == Delivered {
      said := said + [KeepAlive];
    } else if t.alive == Failed {
      return Close, said;
    }
    match t.recv
    case Idle => v := GoOn;
    case Garbled => v := GoOn;
    case Lost => v := Close;
    case Got(SwitchSides(r, known)) =>
      if known { return Grant(r), said; }
      said := said + [ConnectionFailed];
      v := Close;
    case Got(Invite) => v := Close;
    case Got(Login(r)) =>
      var ok := CheckPassword(k, t.pw, r.password);
      if ok { return Grant(r), said; }
      if r.password == [] { return OpenWindow(r), said; }
      said := said + [WrongPassword];
      v := if attempt + 1 >= 5 then Close else GoOn;
    case Got(_) => v := GoOn;
  }

  method CheckPassword(k: Hashing, p: Passwords, shown: seq<byte>) returns (ok: bool)
    ensures ok <==> Matches(k, p, shown)
  {
    ok := false;
    if |shown| == 32 {
      if p.current != "" {
        if shown == k.full(p.current) || shown == k.prehashed(p.current) { ok := true; }
      }
      if !ok && p.permanent != "" {
        if shown == k.full(p.permanent) || shown == k.prehashed(p.permanent) { ok := true; }
      }
    }
  }

  // The turn of the approval loop: a password still counts, then the answer of the window.
  method InnerTurn(k: Hashing, t: Tick, ghost h: seq<Tick>, asked: Request) returns (v: Verdict, said: seq<Reply>)
    requires Open(h) && asked == FirstApproval(h)
    ensures said == Replies(k, h, t) && Agrees(k, h, t, v)
    ensures !v.OpenWindow?
  {
    said := [];
    if t.expired { return Close, [RejectedTimeout]; }
    if t.alive == Delivered {
      said := said + [KeepAlive];
    } else if t.alive == Failed {
      return Close, said;
    }
    if t.recv == Lost { return Close, said; }
    match t.recv {
      case Got(Login(r)) =>
        if |r.password| == 32 {
          var ok := r.password == k.full(t.pw.current) || r.password == k.prehashed(t.pw.current);
          if !ok && t.pw.permanent != "" {
            ok := r.password == k.full(t.pw.permanent) || r.password == k.prehashed(t.pw.permanent);
          }
          if ok { return Grant(r), said; }
          said := said + [WrongPassword];
        }
      case _ =>
    }
    match t.cm
    case Accept => v := Grant(asked);
    case Reject => said := said + [Rejected]; v := Close;
    case NoAnswer => v := GoOn;
  }

  datatype Outcome = Accepted(r: Request) | Closed | Waiting

  ghost predicate Decides(k: Hashing, h: seq<Tick>, o: Outcome)
  {
    match o
    case Waiting => Undecided(k, h)
    case Closed => h != [] && Undecided(k, h[..|h| - 1]) && Ends(k, h[..|h| - 1], h[|h| - 1])
    case Accepted(r) =>
      && h != [] && Undecided(k, h[..|h| - 1]) && Grants(k, h[..|h| - 1], h[|h| - 1])
      && r == Granted(k, h[..|h| - 1], h[|h| - 1])
  }

  lemma Extend(k: Hashing, h: seq<Tick>, t: Tick)
    requires Undecided(k, h) && !Grants(k, h, t) && !Ends(k, h, t)
    ensures Undecided(k, h + [t])
  {
    forall i | 0 <= i < |h + [t]|
      ensures !Grants(k, (h + [t])[..i], (h + [t])[i]) && !Ends(k, (h + [t])[..i], (h + [t])[i])
    {
      assert (h + [t])[..i] == h[..i];
    }
  }

  lemma Snoc(h: seq<Tick>, t: Tick)
    ensures (h + [t])[..|h|] == h
    ensures Open(h + [t]) <==> Open(h) || AsksApproval(t)
    ensures Attempts(h + [t]) == Attempts(h) + (if Asks(t) && !Open(h) then 1 else 0)
    ensures Open(h) ==> FirstApproval(h + [t]) == FirstApproval(h)
    ensures !Open(h) && AsksApproval(t) ==> FirstApproval(h + [t]) == t.recv.m.r
  {
    assert (h + [t])[..|h|] == h;
    if Open(h) {
      var i :| 0 <= i < |h| && AsksApproval(h[i]);
      assert AsksApproval((h + [t])[i]);
    }
    if AsksApproval(t) { assert AsksApproval((h + [t])[|h|]); }
  }

  lemma EventsSnoc(f: Talk, h: seq<Tick>, t: Tick)
    ensures Events(f, h + [t]) == Events(f, h) + [In(t)] + Outs(f(h, t))
  {
    assert (h + [t])[..|h|] == h;
  }

  lemma OneLonger(ticks: seq<Tick>, used: nat)
    requires used < |ticks|
    ensures ticks[..used + 1] == ticks[..used] + [ticks[used]]
  {
  }

  // Where a loop stands after h, having come to v.
  ghost predicate Stands(k: Hashing, h: seq<Tick>, tr: seq<Event>, v: Verdict)
  {
    && tr == Events(LoginTalk(k), h) && Attempts(h) <= 5
    && match v
       case GoOn => Undecided(k, h)
       case OpenWindow(asked) => Undecided(k, h) && Open(h) && asked == FirstApproval(h)
       case Close => Decides(k, h, Closed)
       case Grant(r) => Decides(k, h, Accepted(r))
  }

  lemma OuterTurned(k: Hashing, h: seq<Tick>, t: Tick, v: Verdict, tr: seq<Event>, attempts: nat)
    requires Before(k, h, tr, attempts) && attempts <= 4 && !Open(h) && Agrees(k, h, t, v)
    requires v.OpenWindow? <==> Live(t) && AsksApproval(t)
    requires v.OpenWindow? ==> v.asked == t.recv.m.r
    ensures Stands(k, h + [t], tr + [In(t)] + Outs(Replies(k, h, t)), v)
    ensures v.GoOn? ==> !Open(h + [t]) && Attempts(h + [t]) == attempts + (if Asks(t) then 1 else 0)
  {
    Turned(k, h, t, v, tr, attempts);
    Snoc(h, t);
  }

  // The outer loop, until it comes to a verdict or runs out of input.
  method OuterLoop(k: Hashing, ticks: seq<Tick>) returns (v: Verdict, used: nat, tr: seq<Event>)
    ensures used <= |ticks| && Stands(k, ticks[..used], tr, v) && (v.GoOn? ==> used == |ticks|)
  {
    var loginAttempt := 0;
    v, used, tr := GoOn, 0, [];
    ghost var h := [];
    while used < |ticks|
      invariant used <= |ticks| && h == ticks[..used] && v.GoOn?
      invariant Before(k, h, tr, loginAttempt) && loginAttempt <= 4 && !Open(h)
    {
      var t := ticks[used];
      var said;
      v, said := OuterTurn(k, t, h, loginAttempt);
      OuterTurned(k, h, t, v, tr, loginAttempt);
      OneLonger(ticks, used);
      used, tr, h := used + 1, tr + [In(t)] + Outs(said), h + [t];
      if !v.GoOn? { return; }
      if t.recv.Got? && t.recv.m.Login? { loginAttempt := loginAttempt + 1; }
    }
  }

  // The login stage: at most five requests up to the opening of the approval window, which takes
  // any number more.
  method LoginLoop(k: Hashing, ticks: seq<Tick>) returns (o: Outcome, used: nat, tr: seq<Event>)
    ensures used <= |ticks| && tr == Events(LoginTalk(k), ticks[..used]) && Decides(k, ticks[..used], o)
    ensures o.Waiting? ==> used == |ticks|
    ensures Attempts(ticks[..used]) <= 5
  {
    var v;
    v, used, tr := OuterLoop(k, ticks);
    match v
    case Close => o := Closed;
    case Grant(r) => o := Accepted(r);
    case GoOn => o := Waiting;
    case OpenWindow(asked) => o, used, tr := ApprovalLoop(k, ticks, used, asked, tr, Attempts(ticks[..used]));
  }

  ghost predicate Agrees(k: Hashing, h: seq<Tick>, t: Tick, v: Verdict)
  {
    && (v.Grant? <==> Grants(k, h, t)) && (v.Grant? ==> v.r == Granted(k, h, t))
    && (v.Close? <==> Ends(k, h, t))
  }

  // The state of either loop after h: asked is only looked at once the window is open.
  ghost predicate Before(k: Hashing, h: seq<Tick>, tr: seq<Event>, attempts: nat)
  {
    Undecided(k, h) && tr == Events(LoginTalk(k), h) && attempts == Attempts(h)
  }

  // One turn carries a loop from h to h + [t].
  lemma Turned(k: Hashing, h: seq<Tick>, t: Tick, v: Verdict, tr: seq<Event>, attempts: nat)
    requires Before(k, h, tr, attempts) && Agrees(k, h, t, v)
    ensures var tr' := tr + [In(t)] + Outs(Replies(k, h, t));
            var attempts' := attempts + (if Asks(t) && !Open(h) then 1 else 0);
            && attempts' == Attempts(h + [t]) && tr' == Events(LoginTalk(k), h + [t])
            && (v.GoOn? || v.OpenWindow? ==> Before(k, h + [t], tr', attempts'))
            && (v.Close? ==> Decides(k, h + [t], Closed))
            && (v.Grant? ==> Decides(k, h + [t], Accepted(v.r)))
  {
    Snoc(h, t);
    EventsSnoc(LoginTalk(k), h, t);
    if !Grants(k, h, t) && !Ends(k, h, t) { Extend(k, h, t); }
  }

  method ApprovalLoop(k: Hashing, ticks: seq<Tick>, from: nat, asked: Request, tr0: seq<Event>, ghost attempts: nat)
    returns (o: Outcome, used: nat, tr: seq<Event>)
    requires from <= |ticks| && Before(k, ticks[..from], tr0, attempts) && attempts <= 5
    requires Open(ticks[..from]) && asked == FirstApproval(ticks[..from])
    ensures from <= used <= |ticks| && tr == Events(LoginTalk(k), ticks[..used]) && Decides(k, ticks[..used], o)
    ensures o.Waiting? ==> used == |ticks|
    ensures Attempts(ticks[..used]) <= 5
  {
    used, tr := from, tr0;
    ghost var h := ticks[..used];
    while used < |ticks|
      invariant from <= used <= |ticks| && h == ticks[..used]
      invariant Before(k, h, tr, attempts) && Open(h) && asked == FirstApproval(h)
    {
      var t := ticks[used];
      var v, said := InnerTurn(k, t, h, asked);
      ghost var was := tr;
      tr := tr + [In(t)] + Outs(said);
      Turned(k, h, t, v, was, attempts);
      Snoc(h, t);
      OneLonger(ticks, used);
      used, h := used + 1, h + [t];
      match v
      case Close => return Closed, used, tr;
      case Grant(r) => return Accepted(r), used, tr;
      case GoOn =>
    }
    o := Waiting;
  }

  // ----- the second factor -----

  datatype Verdict2 = Verified | Refused | Unanswered

  ghost predicate DecidesCode(right: (nat, string) -> bool, h: seq<Tick>, v: Verdict2)
  {
    match v
    case Verified => SecondFactor(right, h)
    case Unanswered => Trying(right, h) && Codes(h) < 5
    case Refused =>
      || (Trying(right, h) && Codes(h) == 5)
      || (h != [] && Trying(right, h[..|h| - 1]) && (h[|h| - 1].recv.Idle? || h[|h| - 1].recv.Lost?))
  }

  // One turn of the loop, which has no clock and no keepalive of its own.
  method CodeTurn(right: (nat, string) -> bool, t: Tick) returns (v: Verdict2, said: seq<Reply>)
    ensures said == CodeReply(right, t)
    ensures v == CodeVerdict(right, t)
  {
    v, said := Unanswered, [];
    match t.recv
    case Got(Auth2fa(code)) =>
      if right(t.now, code) {
        v := Verified;
      } else {
        said := [TwoFaRequired];
      }
    case Got(_) =>
    case Garbled =>
    case _ => v := Refused;
  }

  function CodeVerdict(right: (nat, string) -> bool, t: Tick): Verdict2
  {
    if t.recv.Idle? || t.recv.Lost? then Refused
    else if IsCode(t) && right(t.now, t.recv.m.code) then Verified
    else Unanswered
  }

  ghost predicate Tried(right: (nat, string) -> bool, h: seq<Tick>, tr: seq<Event>, attempts: nat)
  {
    Trying(right, h) && tr == Events(CodeTalk(right), h) && attempts == Codes(h) <= 5
  }

  lemma CodeTurned(right: (nat, string) -> bool, h: seq<Tick>, t: Tick, tr: seq<Event>, attempts: nat)
    requires Tried(right, h, tr, attempts) && attempts < 5
    ensures var tr' := tr + [In(t)] + Outs(CodeReply(right, t));
            var v := CodeVerdict(right, t);
            && tr' == Events(CodeTalk(right), h + [t])
            && (v.Unanswered? ==> Tried(right, h + [t], tr', attempts + if IsCode(t) then 1 else 0))
            && (!v.Unanswered? ==> DecidesCode(right, h + [t], v))
  {
    assert (h + [t])[..|h|] == h;
    EventsSnoc(CodeTalk(right), h, t);
  }

  lemma Longer(ticks: seq<Tick>, from: nat, used: nat)
    requires from <= used < |ticks|
    ensures ticks[from..used + 1] == ticks[from..used] + [ticks[used]]
  {
  }

  // At most five codes; losing the connection or running into the read timeout also ends it.
  method CodeLoop(right: (nat, string) -> bool, ticks: seq<Tick>, from: nat)
    returns (v: Verdict2, used: nat, tr: seq<Event>)
    requires from <= |ticks|
    ensures from <= used <= |ticks| && tr == Events(CodeTalk(right), ticks[from..used])
    ensures DecidesCode(right, ticks[from..used], v)
    ensures v.Unanswered? ==> used == |ticks|
  {
    var attempts := 0;
    used, tr := from, [];
    ghost var h := [];
    while attempts < 5
      invariant from <= used <= |ticks| && h == ticks[from..used] && Tried(right, h, tr, attempts)
      decreases |ticks| - used
    {
      if used == |ticks| { return Unanswered, used, tr; }
      var t := ticks[used];
      CodeTurned(right, h, t, tr, attempts);
      Longer(ticks, from, used);
      var turn, said := CodeTurn(right, t);
      used, tr, h := used + 1, tr + [In(t)] + Outs(said), h + [t];
      if turn != Unanswered { return turn, used, tr; }
      if t.recv.Got? && t.recv.m.Auth2fa? { attempts := attempts + 1; }
    }
    v := Refused;
  }

  // ----- the whole login -----

  lemma {:induction false} InputsConcat(a: seq<Event>, b: seq<Event>)
    ensures Inputs(a + b) == Inputs(a) + Inputs(b)
    decreases |b|
  {
    if b == [] {
      assert a + b == a;
    } else {
      var n := |b| - 1;
      assert (a + b)[..|a| + n] == a + b[..n];
      InputsConcat(a, b[..n]);
    }
  }

  ghost predicate Mild(tr: seq<Event>) { forall i :: 0 <= i < |tr| ==> !Privileged(tr[i]) }

  lemma {:induction false} NoInputs(r: seq<Reply>)
    ensures Inputs(Outs(r)) == []
    decreases |r|
  {
    if r != [] {
      assert Outs(r)[..|r| - 1] == Outs(r[..|r| - 1]);
      NoInputs(r[..|r| - 1]);
    }
  }

  // One turn added to a trace.
  lemma Added(e: seq<Event>, h: seq<Tick>, t: Tick, o: seq<Event>)
    requires Inputs(e) == h && Mild(e) && Inputs(o) == [] && Mild(o)
    ensures Inputs(e + [In(t)] + o) == h + [t] && Mild(e + [In(t)] + o)
  {
    InputsConcat(e + [In(t)], o);
    InputsConcat(e, [In(t)]);
    OneInput(t);
    MildConcat(e, [In(t)]);
    MildConcat(e + [In(t)], o);
  }

  lemma OneInput(t: Tick)
    ensures Inputs([In(t)]) == [t] && Mild([In(t)])
  {
    assert [In(t)][..0] == [];
  }

  lemma MildConcat(a: seq<Event>, b: seq<Event>)
    requires Mild(a) && Mild(b)
    ensures Mild(a + b)
  {
  }

  lemma {:induction false} EventsPlain(f: Talk, h: seq<Tick>)
    requires forall g, t :: PeerInfo !in f(g, t)
    ensures Inputs(Events(f, h)) == h && Mild(Events(f, h))
  {
    if h != [] {
      var n := |h| - 1;
      EventsPlain(f, h[..n]);
      NoInputs(f(h[..n], h[n]));
      Added(Events(f, h[..n]), h[..n], h[n], Outs(f(h[..n], h[n])));
      assert h[..n] + [h[n]] == h;
    }
  }

  lemma SafeMild(k: Hashing, secret: Second, tr: seq<Event>, e: seq<Event>)
    requires Safe(k, secret, tr) && Mild(e)
    ensures Safe(k, secret, tr + e)
  {
    forall i | 0 <= i < |tr + e| && Privileged((tr + e)[i]) ensures Cleared(k, secret, Inputs((tr + e)[..i])) {
      assert (tr + e)[..i] == tr[..i];
    }
  }

  lemma SafeCleared(k: Hashing, secret: Second, tr: seq<Event>, e: Event)
    requires Safe(k, secret, tr) && Cleared(k, secret, Inputs(tr)) && !e.In?
    ensures Safe(k, secret, tr + [e]) && Inputs(tr + [e]) == Inputs(tr)
  {
    InputsConcat(tr, [e]);
    forall i | 0 <= i < |tr + [e]| && Privileged((tr + [e])[i]) ensures Cleared(k, secret, Inputs((tr + [e])[..i])) {
      assert (tr + [e])[..i] == tr[..i];
    }
  }

  // The runs that reach PeerInfo: a grant, the second factor if one is set, and a session kind
  // that is not switched off.
  ghost predicate Succeeds(k: Hashing, secret: Second, disabled: set<Kind>, ticks: seq<Tick>, n: nat, m: nat,
                           r: Request)
  {
    && n <= m <= |ticks| && Decides(k, ticks[..n], Accepted(r)) && r.kind !in disabled
    && (if secret.Secret? then SecondFactor(secret.right, ticks[n..m]) else m == n)
  }

  lemma DecidedOnce(k: Hashing, ticks: seq<Tick>, a: nat, o: Outcome, b: nat, p: Outcome)
    requires a <= |ticks| && b <= |ticks| && Decides(k, ticks[..a], o) && Decides(k, ticks[..b], p)
    requires !o.Waiting? && (p.Waiting? ==> b == |ticks|)
    ensures a == b && o == p
  {
    if a < b { DecidedEarlier(k, ticks, a, o, b, p); }
    if b < a { DecidedEarlier(k, ticks, b, p, a, o); }
  }

  lemma DecidedEarlier(k: Hashing, ticks: seq<Tick>, a: nat, o: Outcome, b: nat, p: Outcome)
    requires a < b <= |ticks| && Decides(k, ticks[..a], o) && Decides(k, ticks[..b], p)
    ensures o.Waiting?
  {
    var h := if p.Waiting? then ticks[..b] else ticks[..b - 1];
    assert ticks[..b][..b - 1] == ticks[..b - 1];
    assert h[..a] == ticks[..a];
    if a > 0 { UndecidedAt(k, h, a); }
  }

  lemma UndecidedAt(k: Hashing, h: seq<Tick>, a: nat)
    requires Undecided(k, h) && 0 < a <= |h|
    ensures !Grants(k, h[..a][..a - 1], h[..a][a - 1]) && !Ends(k, h[..a][..a - 1], h[..a][a - 1])
  {
    assert h[..a][..a - 1] == h[..a - 1];
  }

  lemma CodeDecidedOnce(right: (nat, string) -> bool, g: seq<Tick>, v: Verdict2, a: nat, b: nat)
    requires a <= b <= |g| && DecidesCode(right, g[..a], v) && (v.Unanswered? ==> a == |g|)
    requires SecondFactor(right, g[..b])
    ensures v.Verified? && a == b
  {
    assert forall i :: 0 <= i < a && a < b ==> g[..b][..b - 1][i] == g[..a][i];
    if a < b { CodesGrow(g, a, b); }
  }

  lemma {:induction false} CodesGrow(g: seq<Tick>, a: nat, b: nat)
    requires a <= b <= |g|
    ensures Codes(g[..a]) <= Codes(g[..b])
    ensures a < b && IsCode(g[b - 1]) ==> Codes(g[..a]) < Codes(g[..b])
  {
    if a < b {
      CodesGrow(g, a, b - 1);
      assert g[..b][..b - 1] == g[..b - 1];
    }
  }

  ghost predicate Reached(k: Hashing, secret: Second, disabled: set<Kind>, ticks: seq<Tick>)
  {
    exists n, m, r :: Succeeds(k, secret, disabled, ticks, n, m, r)
  }

  ghost predicate Waits(unfinished: bool, ticks: seq<Tick>, used: nat)
  {
    used <= |ticks| && (unfinished ==> used == |ticks|)
  }

  // What the first stage decided is all that success can rest on.
  lemma ReachedOnly(k: Hashing, secret: Second, disabled: set<Kind>, ticks: seq<Tick>, used: nat, o: Outcome)
    requires Waits(o.Waiting?, ticks, used) && Decides(k, ticks[..used], o)
    ensures Reached(k, secret, disabled, ticks) ==>
              o.Accepted? && exists m :: Succeeds(k, secret, disabled, ticks, used, m, o.r)
  {
    if Reached(k, secret, disabled, ticks) {
      var n, m, r :| Succeeds(k, secret, disabled, ticks, n, m, r);
      DecidedOnce(k, ticks, n, Accepted(r), used, o);
    }
  }

  lemma ReachedWithCode(k: Hashing, secret: Second, disabled: set<Kind>, ticks: seq<Tick>, n: nat, r: Request,
                        used: nat, v: Verdict2)
    requires Waits(v.Unanswered?, ticks, used) && n <= used && Decides(k, ticks[..n], Accepted(r)) && secret.Secret?
    requires DecidesCode(secret.right, ticks[n..used], v)
    ensures Reached(k, secret, disabled, ticks) <==> v.Verified? && r.kind !in disabled
  {
    ReachedOnly(k, secret, disabled, ticks, n, Accepted(r));
    if Reached(k, secret, disabled, ticks) {
      var m :| Succeeds(k, secret, disabled, ticks, n, m, r);
      CodesAgree(secret.right, ticks, n, used, v, m);
    }
    if v.Verified? && r.kind !in disabled { assert Succeeds(k, secret, disabled, ticks, n, used, r); }
  }

  // A stretch of wrong codes does not contain the right one.
  lemma TryingLong(right: (nat, string) -> bool, g: seq<Tick>, v: Verdict2, a: nat, b: nat)
    requires 0 < b < a <= |g| && DecidesCode(right, g[..a], v)
    ensures !SecondFactor(right, g[..b])
  {
    assert g[..a][b - 1] == g[..b][b - 1];
    assert g[..a][..a - 1][b - 1] == g[..b][b - 1];
  }

  lemma CodesAgree(right: (nat, string) -> bool, ticks: seq<Tick>, n: nat, used: nat, v: Verdict2, m: nat)
    requires n <= used && n <= m <= |ticks| && Waits(v.Unanswered?, ticks, used)
    requires DecidesCode(right, ticks[n..used], v) && SecondFactor(right, ticks[n..m])
    ensures v.Verified?
  {
    var g := ticks[n..];
    assert g[..used - n] == ticks[n..used] && g[..m - n] == ticks[n..m];
    if 0 < m - n < used - n { TryingLong(right, g, v, used - n, m - n); }
    CodeDecidedOnce(right, g, v, used - n, m - n);
  }

  lemma ReachedWithout(k: Hashing, secret: Second, disabled: set<Kind>, ticks: seq<Tick>, n: nat, r: Request)
    requires n <= |ticks| && Decides(k, ticks[..n], Accepted(r)) && secret.NoSecret?
    ensures Reached(k, secret, disabled, ticks) <==> r.kind !in disabled
  {
    ReachedOnly(k, secret, disabled, ticks, n, Accepted(r));
    if r.kind !in disabled { assert Succeeds(k, secret, disabled, ticks, n, n, r); }
  }

  lemma ClearedBy(k: Hashing, secret: Second, ticks: seq<Tick>, n: nat, r: Request, used: nat)
    requires n <= used <= |ticks| && Decides(k, ticks[..n], Accepted(r)) && Attempts(ticks[..n]) <= 5
    requires secret.Secret? ==> SecondFactor(secret.right, ticks[n..used])
    ensures Cleared(k, secret, ticks[..used])
  {
    var h := ticks[..used];
    assert h[..n] == ticks[..n] && h[n..] == ticks[n..used] && h[..n - 1] == ticks[..n][..n - 1];
  }

  // The trace up to the point where ticks[..used] are consumed and nothing has been granted out.
  ghost predicate Upto(k: Hashing, secret: Second, tr: seq<Event>, h: seq<Tick>)
  {
    Safe(k, secret, tr) && Inputs(tr) == h && Out(PeerInfo) !in tr
  }

  lemma UptoStage(k: Hashing, secret: Second, tr: seq<Event>, h: seq<Tick>, f: Talk, g: seq<Tick>)
    requires Upto(k, secret, tr, h) && forall g', t :: PeerInfo !in f(g', t)
    ensures Upto(k, secret, tr + Events(f, g), h + g)
  {
    EventsPlain(f, g);
    SafeMild(k, secret, tr, Events(f, g));
    InputsConcat(tr, Events(f, g));
  }

  lemma UptoSay(k: Hashing, secret: Second, tr: seq<Event>, h: seq<Tick>, r: Reply)
    requires Upto(k, secret, tr, h) && r != PeerInfo
    ensures Upto(k, secret, tr + [Out(r)], h)
  {
    SafeMild(k, secret, tr, [Out(r)]);
    InputsConcat(tr, [Out(r)]);
  }

  lemma UptoStart(k: Hashing, secret: Second)
    ensures Upto(k, secret, [Limit(PRE_LOGIN_LIMIT)], [])
  {
    assert [Limit(PRE_LOGIN_LIMIT)][..0] == [];
  }

  method LoginStage(k: Hashing, ghost secret: Second, ticks: seq<Tick>) returns (tr: seq<Event>, o: Outcome, used: nat)
    ensures Waits(o.Waiting?, ticks, used) && Upto(k, secret, tr, ticks[..used])
    ensures Decides(k, ticks[..used], o) && Attempts(ticks[..used]) <= 5
    ensures tr == [Limit(PRE_LOGIN_LIMIT)] + Events(LoginTalk(k), ticks[..used])
  {
    tr := [Limit(PRE_LOGIN_LIMIT)];
    UptoStart(k, secret);
    var e;
    o, used, e := LoginLoop(k, ticks);
    UptoStage(k, secret, tr, [], LoginTalk(k), ticks[..used]);
    assert [] + ticks[..used] == ticks[..used];
    tr := tr + e;
  }

  method CodeStage(k: Hashing, ghost secret: Second, right: (nat, string) -> bool, ticks: seq<Tick>, from: nat,
                   tr0: seq<Event>)
    returns (tr: seq<Event>, v: Verdict2, used: nat)
    requires from <= |ticks| && Upto(k, secret, tr0, ticks[..from])
    ensures from <= used && Waits(v.Unanswered?, ticks, used) && Upto(k, secret, tr, ticks[..used])
    ensures DecidesCode(right, ticks[from..used], v)
    ensures tr == tr0 + [Out(TwoFaRequired)] + Events(CodeTalk(right), ticks[from..used])
  {
    tr := tr0 + [Out(TwoFaRequired)];
    UptoSay(k, secret, tr0, ticks[..from], TwoFaRequired);
    var e;
    v, used, e := CodeLoop(right, ticks, from);
    UptoStage(k, secret, tr, ticks[..from], CodeTalk(right), ticks[from..used]);
    assert ticks[..from] + ticks[from..used] == ticks[..used];
    tr := tr + e;
  }

  lemma TwoMore(tr: seq<Event>, a: Event, b: Event)
    ensures tr + [a] + [b] == tr + [a, b]
    ensures forall e :: e in tr + [a, b] <==> e in tr || e == a || e == b
  {
  }

  // A login that went through: larger frames, and PeerInfo or word that the kind is switched off.
  function Welcoming(disabled: set<Kind>, r: Request): seq<Event>
  {
    [Limit(LOGGED_IN_LIMIT), Out(if r.kind in disabled then Disabled else PeerInfo)]
  }

  // The whole trace of a run that decides o after n ticks and, where there is a secret, v after m.
  ghost predicate Course(k: Hashing, secret: Second, disabled: set<Kind>, ticks: seq<Tick>, tr: seq<Event>, n: nat,
                         o: Outcome, m: nat, v: Verdict2)
  {
    && n <= m <= |ticks| && Decides(k, ticks[..n], o) && Waits(o.Waiting?, ticks, n)
    && var asked := [Limit(PRE_LOGIN_LIMIT)] + Events(LoginTalk(k), ticks[..n]);
       if !o.Accepted? then m == n && tr == asked
       else if secret.NoSecret? then m == n && tr == asked + Welcoming(disabled, o.r)
       else
         && DecidesCode(secret.right, ticks[n..m], v) && Waits(v.Unanswered?, ticks, m)
         && var coded := asked + [Out(TwoFaRequired)] + Events(CodeTalk(secret.right), ticks[n..m]);
            tr == if v.Verified? then coded + Welcoming(disabled, o.r) else coded
  }

  ghost predicate RunsAs(k: Hashing, secret: Second, disabled: set<Kind>, ticks: seq<Tick>, tr: seq<Event>)
  {
    exists n, o, m, v :: Course(k, secret, disabled, ticks, tr, n, o, m, v)
  }

  method Welcome(k: Hashing, ghost secret: Second, disabled: set<Kind>, r: Request, tr0: seq<Event>)
    returns (tr: seq<Event>, done: bool)
    requires Safe(k, secret, tr0) && Cleared(k, secret, Inputs(tr0)) && Out(PeerInfo) !in tr0
    ensures Safe(k, secret, tr) && (done <==> Out(PeerInfo) in tr) && (done <==> r.kind !in disabled)
    ensures Inputs(tr) == Inputs(tr0) && tr == tr0 + Welcoming(disabled, r)
  {
    tr := tr0 + [Limit(LOGGED_IN_LIMIT)];
    SafeCleared(k, secret, tr0, Limit(LOGGED_IN_LIMIT));
    var last := Out(if r.kind in disabled then Disabled else PeerInfo);
    SafeCleared(k, secret, tr, last);
    TwoMore(tr0, Limit(LOGGED_IN_LIMIT), last);
    tr := tr + [last];
    done := r.kind !in disabled;
  }

  // From the first frame limit to PeerInfo. Sending PeerInfo and lifting the frame limit only
  // ever follow a cleared login, and PeerInfo is sent exactly in the runs that succeed.
  method RunLogin(k: Hashing, secret: Second, disabled: set<Kind>, ticks: seq<Tick>)
    returns (tr: seq<Event>, done: bool)
    ensures Safe(k, secret, tr) && Inputs(tr) <= ticks
    ensures done <==> Reached(k, secret, disabled, ticks)
    ensures done <==> Out(PeerInfo) in tr
    ensures RunsAs(k, secret, disabled, ticks, tr)
  {
    var o, used;
    tr, o, used := LoginStage(k, secret, ticks);
    done := false;
    if !o.Accepted? {
      ReachedOnly(k, secret, disabled, ticks, used, o);
      assert Course(k, secret, disabled, ticks, tr, used, o, used, Unanswered);
      return;
    }
    ghost var n := used;
    var v := Verified;
    if secret.Secret? {
      tr, v, used := CodeStage(k, secret, secret.right, ticks, used, tr);
      ReachedWithCode(k, secret, disabled, ticks, n, o.r, used, v);
      if !v.Verified? {
        assert Course(k, secret, disabled, ticks, tr, n, o, used, v);
        return;
      }
    } else {
      ReachedWithout(k, secret, disabled, ticks, n, o.r);
    }
    ClearedBy(k, secret, ticks, n, o.r, used);
    tr, done := Welcome(k, secret, disabled, o.r, tr);
    assert Course(k, secret, disabled, ticks, tr, n, o, used, v);
  }

  // Until a login is cleared every frame is read under the pre-login limit.
  lemma {:induction false} LimitHolds(k: Hashing, secret: Second, tr: seq<Event>, i: nat)
    requires Safe(k, secret, tr) && 0 < i <= |tr| && forall j :: 0 <= j < i ==> !Cleared(k, secret, Inputs(tr[..j]))
    ensures LimitOf(tr[..i]) == PRE_LOGIN_LIMIT == 0x40_0000
  {
    assert tr[..i][..i - 1] == tr[..i - 1];
    if i > 1 { LimitHolds(k, secret, tr, i - 1); }
  }
}
