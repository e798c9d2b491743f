// The login seen from the viewer: which response gets in, what it gets, and what a run is told
// when it ends.

module LoginLaws {
  import opened MachineInts
  import opened Sha256Spec
  import Sha256
  import opened LoginSpec
  import opened LoginCode
  import opened LoginBounds

  // What both ends know of a session: how text becomes bytes, the salt and the challenge.
  datatype Session = Session(f: Compress, utf8: string -> seq<byte>, salt: string, challenge: string)

  // The two digests a password can be shown by: salted, and the older one without salt.
  function Salted(s: Session, password: string): seq<byte>
  {
    Digest(s.f, Digest(s.f, s.utf8(password) + s.utf8(s.salt)) + s.utf8(s.challenge))
  }

  function Unsalted(s: Session, password: string): seq<byte>
  {
    Digest(s.f, Digest(s.f, s.utf8(password)) + s.utf8(s.challenge))
  }

  function HashingOf(s: Session): Hashing { Hashing(p => Salted(s, p), p => Unsalted(s, p)) }

  // The viewer's response to the challenge.
  method Respond(s: Session, password: string) returns (shown: seq<byte>)
    requires 8 * (|s.utf8(password)| + |s.utf8(s.salt)|) < 0x1_0000_0000_0000_0000
    requires 8 * (32 + |s.utf8(s.challenge)|) < 0x1_0000_0000_0000_0000
    ensures shown == if password == "" then []
                     else Digest(s.f, Digest(s.f, s.utf8(password) + s.utf8(s.salt)) + s.utf8(s.challenge))
  {
    if password == "" { return []; }
    shown := Sha256.ComputePasswordHash(s.f, s.utf8(password), s.utf8(s.salt), s.utf8(s.challenge));
  }

  // Set by the user or made up, and not empty.
  predicate InForce(p: Passwords, password: string)
  {
    password != "" && (password == p.current || password == p.permanent)
  }

  // A live request grants by its password exactly if it shows one of the two digests of a password
  // in force; before the window opens and inside it.
  lemma GrantsByPassword(s: Session, h: seq<Tick>, t: Tick)
    requires Asks(t) && Live(t) && (Open(h) ==> t.cm != Accept)
    ensures Grants(HashingOf(s), h, t) <==>
              exists password :: InForce(t.pw, password) &&
                (|| t.recv.m.r.password
                    == Digest(s.f, Digest(s.f, s.utf8(password) + s.utf8(s.salt)) + s.utf8(s.challenge))
                 || t.recv.m.r.password == Digest(s.f, Digest(s.f, s.utf8(password)) + s.utf8(s.challenge)))
  {
    GrantsExactly(HashingOf(s), h, t);
    var shown := t.recv.m.r.password;
    forall password ensures (shown == Salted(s, password) || shown == Unsalted(s, password)) ==> |shown| == 32 { }
    if Matches(HashingOf(s), t.pw, shown) {
      assert InForce(t.pw, t.pw.current);
    }
  }

  // A stored password is in force as it is.
  lemma StoredInForce(p: Stored, made: string, password: string)
    requires made != "" && password != "" && (password == p.current || password == p.permanent)
    ensures InForce(Load(p, made), password)
  {
  }

  // Whoever shows the salted digest of a stored password is let in at once, with the session asked
  // for, whatever has been tried before and whether or not the window is open.
  lemma RightPasswordGrants(s: Session, h: seq<Tick>, t: Tick, p: Stored, made: string, password: string)
    requires made != "" && t.pw == Load(p, made) && Asks(t) && Live(t)
    requires password != "" && (password == p.current || password == p.permanent)
    requires t.recv.m.r.password
          == Digest(s.f, Digest(s.f, s.utf8(password) + s.utf8(s.salt)) + s.utf8(s.challenge))
    ensures Grants(HashingOf(s), h, t) && Granted(HashingOf(s), h, t) == t.recv.m.r
  {
    ChecksAgree(HashingOf(s), t.pw, t.recv.m.r.password);
    assert t.recv.m.r.password == HashingOf(s).full(password) && |t.recv.m.r.password| == 32;
  }

  // And then reaches PeerInfo, unless a second factor is set or the kind of session switched off.
  lemma RightPasswordArrives(s: Session, disabled: set<Kind>, ticks: seq<Tick>, n: nat, p: Stored, made: string,
                             password: string)
    requires n < |ticks| && Undecided(HashingOf(s), ticks[..n])
    requires made != "" && ticks[n].pw == Load(p, made) && Asks(ticks[n]) && Live(ticks[n])
    requires password != "" && (password == p.current || password == p.permanent)
    requires ticks[n].recv.m.r.password
          == Digest(s.f, Digest(s.f, s.utf8(password) + s.utf8(s.salt)) + s.utf8(s.challenge))
    ensures Reached(HashingOf(s), NoSecret, disabled, ticks) <==> ticks[n].recv.m.r.kind !in disabled
  {
    var k, r := HashingOf(s), ticks[n].recv.m.r;
    RightPasswordGrants(s, ticks[..n], ticks[n], p, made, password);
    assert ticks[..n + 1][..n] == ticks[..n];
    assert Decides(k, ticks[..n + 1], Accepted(r));
    ReachedWithout(k, NoSecret, disabled, ticks, n + 1, r);
  }

  // Nothing has been tried before the first request.
  lemma FirstRequestArrives(s: Session, disabled: set<Kind>, ticks: seq<Tick>, p: Stored, made: string,
                            password: string)
    requires ticks != [] && made != "" && ticks[0].pw == Load(p, made) && Asks(ticks[0]) && Live(ticks[0])
    requires password != "" && (password == p.current || password == p.permanent)
    requires ticks[0].recv.m.r.password
          == Digest(s.f, Digest(s.f, s.utf8(password) + s.utf8(s.salt)) + s.utf8(s.challenge))
    ensures Reached(HashingOf(s), NoSecret, disabled, ticks) <==> ticks[0].recv.m.r.kind !in disabled
  {
    RightPasswordArrives(s, disabled, ticks, 0, p, made, password);
  }

  // ----- the window's consent -----

  // The request that opened the window.
  ghost predicate Opens(h: seq<Tick>, i: int)
  {
    0 <= i < |h| && AsksApproval(h[i]) && forall j :: 0 <= j < i ==> !AsksApproval(h[j])
  }

  lemma OpensBefore(h: seq<Tick>, i: int)
    requires h != [] && Opens(h[..|h| - 1], i)
    ensures Opens(h, i) && h[..|h| - 1][i] == h[i]
  {
    forall j | 0 <= j < i ensures !AsksApproval(h[j]) { assert h[..|h| - 1][j] == h[j]; }
  }

  lemma OpensLast(h: seq<Tick>)
    requires Open(h) && !Open(h[..|h| - 1])
    ensures Opens(h, |h| - 1)
  {
    forall j | 0 <= j < |h| - 1 ensures !AsksApproval(h[j]) { assert h[..|h| - 1][j] == h[j]; }
  }

  lemma {:induction false} FirstOpens(h: seq<Tick>) returns (i: int)
    requires Open(h)
    ensures Opens(h, i) && FirstApproval(h) == h[i].recv.m.r
  {
    var n := |h| - 1;
    if Open(h[..n]) {
      i := FirstOpens(h[..n]);
      OpensBefore(h, i);
    } else {
      i := n;
      OpensLast(h);
    }
  }

  // The window's consent grants, and what it opens is the session of the request that opened the
  // window, whatever has been asked for since.
  lemma ConsentGrants(k: Hashing, h: seq<Tick>, t: Tick, i: int)
    requires Opens(h, i) && Live(t) && t.recv != Lost && t.cm == Accept && !Asks(t)
    ensures Grants(k, h, t) && Granted(k, h, t) == h[i].recv.m.r
  {
    var j := FirstOpens(h);
    assert i == j;
  }

  // ----- what a run is told -----

  // As long as nothing is decided, only signs of life and refused passwords are sent.
  lemma {:induction false} TalkGoingOn(k: Hashing, h: seq<Tick>)
    requires Undecided(k, h)
    ensures Mere(Events(LoginTalk(k), h))
  {
    if h != [] {
      var n := |h| - 1;
      assert h == h[..n] + [h[n]];
      UndecidedSnoc(k, h[..n], h[n]);
      TalkGoingOn(k, h[..n]);
      EventsSnoc(LoginTalk(k), h[..n], h[n]);
      RepliesGoingOn(k, h[..n], h[n]);
      MereMore(Events(LoginTalk(k), h[..n]), h[n], Replies(k, h[..n], h[n]));
    }
  }

  ghost predicate Mere(tr: seq<Event>) { forall e :: e in tr && e.Out? ==> e.r == KeepAlive || e.r == WrongPassword }

  lemma RepliesGoingOn(k: Hashing, h: seq<Tick>, t: Tick)
    requires !Grants(k, h, t) && !Ends(k, h, t)
    ensures forall r :: r in Replies(k, h, t) ==> r == KeepAlive || r == WrongPassword
  {
  }

  lemma MereMore(tr: seq<Event>, t: Tick, said: seq<Reply>)
    requires Mere(tr) && forall r :: r in said ==> r == KeepAlive || r == WrongPassword
    ensures Mere(tr + [In(t)] + Outs(said))
  {
    forall e | e in Outs(said) ensures e.Out? && e.r in said {
      var i :| 0 <= i < |said| && Outs(said)[i] == e;
    }
  }

  // The last thing a run is told says why it ends.
  lemma Farewell(k: Hashing, h: seq<Tick>, t: Tick)
    requires Ends(k, h, t)
    ensures RejectedTimeout in Replies(k, h, t) <==> Open(h) && t.expired
    ensures Rejected in Replies(k, h, t) <==> Open(h) && Live(t) && t.recv != Lost && t.cm == Reject
    ensures ConnectionFailed in Replies(k, h, t)
       <==> !Open(h) && Live(t) && t.recv.Got? && t.recv.m.SwitchSides? && !t.recv.m.known
    ensures !Open(h) && WrongPassword in Replies(k, h, t) ==> Attempts(h) >= 4
  {
  }

  // ----- what ends a run -----

  // Before the window opens: the deadline, a failed sign of life, a lost connection, a refused
  // switch of sides, an invitation, or a fifth password that is wrong.
  lemma EndsBeforeWindow(k: Hashing, h: seq<Tick>, t: Tick)
    requires !Open(h) && !Grants(k, h, t)
    ensures Ends(k, h, t) <==>
              || t.expired || t.alive == Failed || t.recv == Lost
              || t.recv == Got(Invite)
              || (t.recv.Got? && t.recv.m.SwitchSides? && !t.recv.m.known)
              || (Asks(t) && t.recv.m.r.password != [] && Attempts(h + [t]) >= 5)
  {
    Snoc(h, t);
  }

  // Inside it: the window's deadline, a failed sign of life, a lost connection, or a refusal.
  lemma EndsInWindow(k: Hashing, h: seq<Tick>, t: Tick)
    requires Open(h) && !Grants(k, h, t)
    ensures Ends(k, h, t) <==> t.expired || t.alive == Failed || t.recv == Lost || t.cm == Reject
  {
  }

  // ----- the second factor -----

  // Where a secret is set nobody gets in without a code that was right when it came.
  lemma CodeNeeded(k: Hashing, right: (nat, string) -> bool, disabled: set<Kind>, ticks: seq<Tick>)
    requires Reached(k, Secret(right), disabled, ticks)
    ensures exists i :: 0 <= i < |ticks| && ticks[i].recv.Got? && ticks[i].recv.m.Auth2fa?
                        && right(ticks[i].now, ticks[i].recv.m.code)
  {
    var n: nat, m: nat, r :| Succeeds(k, Secret(right), disabled, ticks, n, m, r);
    var g := ticks[n..m];
    assert g[|g| - 1] == ticks[m - 1];
  }

  // And whoever was granted and then sends the right code gets in, up to four wrong ones before it.
  lemma RightCodeArrives(k: Hashing, right: (nat, string) -> bool, disabled: set<Kind>, ticks: seq<Tick>, n: nat,
                         m: nat, r: Request)
    requires n < m <= |ticks| && Decides(k, ticks[..n], Accepted(r)) && r.kind !in disabled
    requires Trying(right, ticks[n..m - 1]) && Codes(ticks[n..m - 1]) <= 4
    requires ticks[m - 1].recv.Got? && ticks[m - 1].recv.m.Auth2fa? && right(ticks[m - 1].now, ticks[m - 1].recv.m.code)
    ensures Reached(k, Secret(right), disabled, ticks)
  {
    var g := ticks[n..m];
    assert g[..|g| - 1] == ticks[n..m - 1] && g[|g| - 1] == ticks[m - 1];
    assert Succeeds(k, Secret(right), disabled, ticks, n, m, r);
  }

  // Every wrong code, and nothing else, is answered with a new request for one.
  lemma CodesAnswered(right: (nat, string) -> bool, t: Tick)
    ensures CodeReply(right, t)
         == if t.recv.Got? && t.recv.m.Auth2fa? && !right(t.now, t.recv.m.code) then [TwoFaRequired] else []
  {
  }

  // ----- signs of life and refusals -----

  lemma SignsOfLife(k: Hashing, h: seq<Tick>, t: Tick)
    ensures KeepAlive in Replies(k, h, t) <==> t.alive == Delivered && !t.expired
  {
  }

  // A request is told its password is wrong exactly if it shows one that matches nothing; inside the
  // window only if it has the length of a digest.
  lemma RefusalsExactly(k: Hashing, h: seq<Tick>, t: Tick)
    ensures WrongPassword in Replies(k, h, t) <==>
              && Live(t) && t.recv != Lost && Asks(t) && !Matches(k, t.pw, t.recv.m.r.password)
              && if Open(h) then |t.recv.m.r.password| == 32 else t.recv.m.r.password != []
  {
    if Asks(t) { ChecksAgree(k, t.pw, t.recv.m.r.password); }
  }
}
