// What a login rests on, and how many passwords it looks at.

module LoginBounds {
  import opened MachineInts
  import opened LoginSpec
  import opened LoginCode

  // ----- what a grant rests on -----

  // The two password checks agree on what is loaded.
  lemma ChecksAgree(k: Hashing, p: Passwords, shown: seq<byte>)
    ensures MatchesWhileOpen(k, p, shown) <==> Matches(k, p, shown)
  {
  }

  // Before and inside the approval window: a live turn grants exactly for a request that matches
  // a loaded password, or, as the case may be, a known switch of sides or the window's consent.
  lemma GrantsExactly(k: Hashing, h: seq<Tick>, t: Tick)
    ensures Grants(k, h, t)
       <==> Live(t) && t.recv != Lost
            && ((Asks(t) && Matches(k, t.pw, t.recv.m.r.password))
                || if Open(h) then t.cm == Accept else t.recv.Got? && t.recv.m.SwitchSides? && t.recv.m.known)
  {
    if Asks(t) { ChecksAgree(k, t.pw, t.recv.m.r.password); }
  }

  // ----- looks -----

  predicate Shows(t: Tick) { Asks(t) && |t.recv.m.r.password| == 32 }

  // Passwords compared.
  function Looks(h: seq<Tick>): nat
  {
    if h == [] then 0 else Looks(h[..|h| - 1]) + (if Live(h[|h| - 1]) && Shows(h[|h| - 1]) then 1 else 0)
  }

  lemma LooksSnoc(h: seq<Tick>, t: Tick)
    ensures Looks(h + [t]) == Looks(h) + (if Live(t) && Shows(t) then 1 else 0)
  {
    assert (h + [t])[..|h|] == h;
  }

  lemma {:induction false} LooksAreAttempts(h: seq<Tick>)
    requires !Open(h)
    ensures Looks(h) <= Attempts(h)
  {
    if h != [] {
      var n := |h| - 1;
      assert forall i :: 0 <= i < n ==> h[..n][i] == h[i];
      LooksAreAttempts(h[..n]);
    }
  }

  lemma {:induction false} FewAttempts(k: Hashing, h: seq<Tick>)
    requires Undecided(k, h) && !Open(h)
    ensures Attempts(h) <= 4
  {
    if h != [] {
      var n := |h| - 1;
      assert forall i :: 0 <= i < n ==> h[..n][i] == h[i] && h[..n][..i] == h[..i];
      FewAttempts(k, h[..n]);
      assert !Grants(k, h[..n], h[n]) && !Ends(k, h[..n], h[n]);
      assert !AsksApproval(h[n]);
    }
  }

  // A run that never opens the approval window looks at no more than five passwords.
  lemma FewLooks(k: Hashing, h: seq<Tick>, o: Outcome)
    requires Decides(k, h, o) && !Open(h)
    ensures Looks(h) <= Attempts(h) <= 5
  {
    LooksAreAttempts(h);
    if o.Waiting? {
      FewAttempts(k, h);
    } else {
      var n := |h| - 1;
      assert forall i :: 0 <= i < n ==> h[..n][i] == h[i];
      FewAttempts(k, h[..n]);
    }
  }

  // What the open window takes without coming to an end.
  predicate Continues(k: Hashing, t: Tick)
  {
    Live(t) && t.recv != Lost && t.cm == NoAnswer && !(Asks(t) && MatchesWhileOpen(k, t.pw, t.recv.m.r.password))
  }

  lemma OpenStep(k: Hashing, h: seq<Tick>, t: Tick)
    requires Open(h)
    ensures !Grants(k, h, t) && !Ends(k, h, t) <==> Continues(k, t)
  {
  }

  ghost predicate AllContinue(k: Hashing, g: seq<Tick>) { forall i :: 0 <= i < |g| ==> Continues(k, g[i]) }

  lemma OneMoreContinues(k: Hashing, g: seq<Tick>)
    requires g != []
    ensures AllContinue(k, g) <==> AllContinue(k, g[..|g| - 1]) && Continues(k, g[|g| - 1])
    ensures g == g[..|g| - 1] + [g[|g| - 1]]
  {
    forall i | 0 <= i < |g| ensures i < |g| - 1 ==> g[..|g| - 1][i] == g[i] { }
  }

  // Once it is open the number of requests plays no part.
  lemma {:induction false} OpenGoesOn(k: Hashing, h: seq<Tick>, g: seq<Tick>)
    requires Undecided(k, h) && Open(h)
    ensures Open(h + g) && (Undecided(k, h + g) <==> AllContinue(k, g))
  {
    if g == [] {
      assert h + g == h;
    } else {
      var n := |g| - 1;
      OpenGoesOn(k, h, g[..n]);
      OneMoreContinues(k, g);
      assert h + g == (h + g[..n]) + [g[n]];
      OpenStep(k, h + g[..n], g[n]);
      Snoc(h + g[..n], g[n]);
      UndecidedSnoc(k, h + g[..n], g[n]);
    }
  }

  lemma UndecidedSnoc(k: Hashing, h: seq<Tick>, t: Tick)
    ensures Undecided(k, h + [t]) <==> Undecided(k, h) && !Grants(k, h, t) && !Ends(k, h, t)
  {
    assert (h + [t])[..|h|] == h && (h + [t])[|h|] == t;
    if Undecided(k, h + [t]) {
      forall i | 0 <= i < |h| ensures !Grants(k, h[..i], h[i]) && !Ends(k, h[..i], h[i]) {
        assert (h + [t])[..i] == h[..i] && (h + [t])[i] == h[i];
      }
    } else if Undecided(k, h) && !Grants(k, h, t) && !Ends(k, h, t) {
      Extend(k, h, t);
      assert false;
    }
  }

  // ----- the window's clock -----

  const CM_TIMEOUT: nat := 60000
  const CM_POLL_INTERVAL: nat := 200

  // The turn that opened the window.
  function OpenedAt(h: seq<Tick>): (i: nat)
    requires Open(h)
    ensures i < |h| && AsksApproval(h[i])
  {
    var n := |h| - 1;
    if Open(h[..n]) then OpenedAt(h[..n]) else n
  }

  // A turn in the window looks at the clock no earlier than the window opened and, but for the
  // first, one pause after the turn before; the window has run out exactly from its deadline on.
  predicate OnTime(h: seq<Tick>, t: Tick)
  {
    Open(h) ==>
      var o := OpenedAt(h);
      && t.now >= (if o == |h| - 1 then h[o].now else h[|h| - 1].now + CM_POLL_INTERVAL)
      && (t.expired <==> t.now >= h[o].now + CM_TIMEOUT)
  }

  predicate Timed(h: seq<Tick>) { h == [] || (Timed(h[..|h| - 1]) && OnTime(h[..|h| - 1], h[|h| - 1])) }

  function InWindow(h: seq<Tick>): nat
    requires Open(h)
  {
    |h| - 1 - OpenedAt(h)
  }

  // So many turns take so long.
  ghost predicate Filled(h: seq<Tick>)
    requires Open(h)
  {
    && Looks(h) <= 4 + InWindow(h)
    && (InWindow(h) > 0 ==> h[|h| - 1].now >= h[OpenedAt(h)].now + CM_POLL_INTERVAL * (InWindow(h) - 1))
  }

  lemma OpenedSnoc(h: seq<Tick>, t: Tick)
    ensures Open(h) ==> Open(h + [t]) && OpenedAt(h + [t]) == OpenedAt(h) && InWindow(h + [t]) == InWindow(h) + 1
    ensures !Open(h) && AsksApproval(t) ==> Open(h + [t]) && OpenedAt(h + [t]) == |h| && InWindow(h + [t]) == 0
    ensures Open(h + [t]) ==> Open(h) || AsksApproval(t)
  {
    Snoc(h, t);
  }

  lemma FillStep(h: seq<Tick>, t: Tick)
    requires Open(h) && Filled(h) && OnTime(h, t)
    ensures Open(h + [t]) && Filled(h + [t])
  {
    OpenedSnoc(h, t);
    LooksSnoc(h, t);
    assert (h + [t])[OpenedAt(h)] == h[OpenedAt(h)] && (h + [t])[|h|] == t;
  }

  lemma FillStart(k: Hashing, h: seq<Tick>, t: Tick)
    requires Undecided(k, h) && !Open(h) && AsksApproval(t)
    ensures Open(h + [t]) && Filled(h + [t])
  {
    OpenedSnoc(h, t);
    LooksSnoc(h, t);
    LooksAreAttempts(h);
    FewAttempts(k, h);
  }

  lemma {:induction false} WindowFills(k: Hashing, h: seq<Tick>)
    requires Undecided(k, h) && Open(h) && Timed(h)
    ensures Filled(h) && InWindow(h) <= 300
  {
    var n := |h| - 1;
    var g, t := h[..n], h[n];
    assert h == g + [t];
    UndecidedSnoc(k, g, t);
    OpenedSnoc(g, t);
    if Open(g) {
      WindowFills(k, g);
      FillStep(g, t);
      OpenStep(k, g, t);
      NotYetOver(g, t);
    } else {
      FillStart(k, g, t);
    }
  }

  // A turn that is not too late is at most the three hundredth.
  lemma NotYetOver(g: seq<Tick>, t: Tick)
    requires Open(g) && Filled(g) && OnTime(g, t) && !t.expired
    ensures Open(g + [t]) && InWindow(g + [t]) <= 300
  {
    FillStep(g, t);
    OpenedSnoc(g, t);
    assert (g + [t])[OpenedAt(g)] == g[OpenedAt(g)] && (g + [t])[|g|] == t;
  }

  // However a run goes and ends, it looks at no more than 304 passwords: four before the request
  // that opens the window, and one in each of the window's three hundred turns.
  lemma BoundedLooks(k: Hashing, h: seq<Tick>, o: Outcome)
    requires Decides(k, h, o) && Timed(h)
    ensures Looks(h) <= 304
  {
    if !Open(h) {
      FewLooks(k, h, o);
    } else if o.Waiting? {
      WindowFills(k, h);
    } else {
      assert h == h[..|h| - 1] + [h[|h| - 1]];
      LastLook(k, h[..|h| - 1], h[|h| - 1]);
    }
  }

  lemma LastLook(k: Hashing, g: seq<Tick>, t: Tick)
    requires Undecided(k, g) && Timed(g) && OnTime(g, t) && Open(g + [t])
    ensures Looks(g + [t]) <= 304
  {
    OpenedSnoc(g, t);
    LooksSnoc(g, t);
    if Open(g) {
      WindowFills(k, g);
      FillStep(g, t);
      if !t.expired { NotYetOver(g, t); }
    } else {
      LooksAreAttempts(g);
      FewAttempts(k, g);
    }
  }

  // ----- the bound is reached -----

  function Refusals(tr: seq<Event>): nat
  {
    if tr == [] then 0 else Refusals(tr[..|tr| - 1]) + (if tr[|tr| - 1] == Out(WrongPassword) then 1 else 0)
  }

  lemma OpeningTurn(k: Hashing, h: seq<Tick>, opening: Tick)
    requires !Open(h) && Live(opening) && AsksApproval(opening)
    ensures !Grants(k, h, opening) && !Ends(k, h, opening) && Replies(k, h, opening) == Beat(opening)
  {
  }

  lemma RefusalsMore(tr: seq<Event>, e: Event, said: seq<Reply>)
    requires e.In?
    requires (said == [] || said == [KeepAlive] || said == [WrongPassword] || said == [KeepAlive, WrongPassword])
    ensures Refusals(tr + [e] + Outs(said)) == Refusals(tr) + (if WrongPassword in said then 1 else 0)
  {
    var a := tr + [e];
    RefusalsSnoc(tr, e);
    if said == [] {
      assert a + Outs(said) == a;
    } else if |said| == 1 {
      assert a + Outs(said) == a + [Out(said[0])];
      RefusalsSnoc(a, Out(said[0]));
    } else {
      assert a + Outs(said) == a + [Out(KeepAlive)] + [Out(WrongPassword)];
      RefusalsSnoc(a, Out(KeepAlive));
      RefusalsSnoc(a + [Out(KeepAlive)], Out(WrongPassword));
    }
  }

  lemma RefusalsSnoc(tr: seq<Event>, e: Event)
    ensures Refusals(tr + [e]) == Refusals(tr) + (if e == Out(WrongPassword) then 1 else 0)
  {
    assert (tr + [e])[..|tr|] == tr;
  }

  // Wrong passwords before the window opens, and one in each of its turns.
  function Before(guess: Tick, n: nat): (h: seq<Tick>)
    ensures |h| == n
  {
    if n == 0 then [] else Before(guess, n - 1) + [guess]
  }

  function Within(h: seq<Tick>, began: nat, guess: Tick, n: nat): seq<Tick>
  {
    if n == 0 then h
    else Within(h, began, guess, n - 1) + [InTurn(guess, began, n - 1)]
  }

  function InTurn(guess: Tick, began: nat, i: nat): Tick { guess.(now := began + CM_POLL_INTERVAL * i) }

  ghost predicate Looked(k: Hashing, h: seq<Tick>, looks: nat)
  {
    Undecided(k, h) && Timed(h) && Looks(h) == looks && Refusals(Events(LoginTalk(k), h)) == looks
  }

  lemma TimedSnoc(h: seq<Tick>, t: Tick)
    ensures Timed(h + [t]) <==> Timed(h) && OnTime(h, t)
  {
    assert (h + [t])[..|h|] == h;
  }

  // A wrong password is refused.
  predicate Wrong(k: Hashing, t: Tick)
  {
    Live(t) && Shows(t) && t.cm == NoAnswer && !Matches(k, t.pw, t.recv.m.r.password)
  }

  lemma WrongTurn(k: Hashing, h: seq<Tick>, t: Tick)
    requires Wrong(k, t) && (!Open(h) ==> Attempts(h) < 4)
    ensures !Grants(k, h, t) && !Ends(k, h, t) && Replies(k, h, t) == Beat(t) + [WrongPassword]
  {
    GrantsExactly(k, h, t);
    ChecksAgree(k, t.pw, t.recv.m.r.password);
  }

  lemma WrongLooked(k: Hashing, h: seq<Tick>, t: Tick, looks: nat)
    requires Looked(k, h, looks) && Wrong(k, t) && OnTime(h, t) && (!Open(h) ==> Attempts(h) < 4)
    ensures Looked(k, h + [t], looks + 1)
  {
    WrongTurn(k, h, t);
    LookedMore(k, h, t, looks, Beat(t) + [WrongPassword]);
  }

  // A turn that decides nothing.
  lemma LookedMore(k: Hashing, h: seq<Tick>, t: Tick, looks: nat, said: seq<Reply>)
    requires Looked(k, h, looks) && !Grants(k, h, t) && !Ends(k, h, t) && OnTime(h, t) && said == LoginTalk(k)(h, t)
    requires said == [] || said == [KeepAlive] || said == [WrongPassword] || said == [KeepAlive, WrongPassword]
    requires WrongPassword in said <==> Live(t) && Shows(t)
    ensures Looked(k, h + [t], looks + (if WrongPassword in said then 1 else 0))
  {
    UndecidedSnoc(k, h, t);
    TimedSnoc(h, t);
    LooksSnoc(h, t);
    RefusalAdded(k, h, t, looks, said);
  }

  lemma RefusalAdded(k: Hashing, h: seq<Tick>, t: Tick, looks: nat, said: seq<Reply>)
    requires Refusals(Events(LoginTalk(k), h)) == looks && said == LoginTalk(k)(h, t)
    requires said == [] || said == [KeepAlive] || said == [WrongPassword] || said == [KeepAlive, WrongPassword]
    ensures Refusals(Events(LoginTalk(k), h + [t])) == looks + (if WrongPassword in said then 1 else 0)
  {
    EventsSnoc(LoginTalk(k), h, t);
    RefusalsMore(Events(LoginTalk(k), h), In(t), said);
  }

  lemma OpeningLooked(k: Hashing, h: seq<Tick>, opening: Tick, looks: nat)
    requires Looked(k, h, looks) && !Open(h) && Live(opening) && AsksApproval(opening)
    ensures Looked(k, h + [opening], looks)
  {
    OpeningTurn(k, h, opening);
    LookedMore(k, h, opening, looks, Beat(opening));
  }

  ghost predicate LookedBefore(k: Hashing, h: seq<Tick>, n: nat) { Looked(k, h, n) && !Open(h) && Attempts(h) == n }

  lemma {:induction false} BeforeWindow(k: Hashing, guess: Tick, n: nat)
    requires Wrong(k, guess) && n <= 4
    ensures LookedBefore(k, Before(guess, n), n)
  {
    if n > 0 {
      BeforeWindow(k, guess, n - 1);
      OneMoreBefore(k, Before(guess, n - 1), guess, n - 1);
    }
  }

  lemma OneMoreBefore(k: Hashing, h: seq<Tick>, guess: Tick, n: nat)
    requires Wrong(k, guess) && n < 4 && LookedBefore(k, h, n)
    ensures LookedBefore(k, h + [guess], n + 1)
  {
    WrongLooked(k, h, guess, n);
    Snoc(h, guess);
  }

  // Where the run stands after its n-th turn in the window.
  ghost predicate LookedWithin(k: Hashing, h: seq<Tick>, began: nat, looks: nat, n: nat)
  {
    && Looked(k, h, looks) && Open(h) && InWindow(h) == n && h[OpenedAt(h)].now == began
    && (n > 0 ==> h[|h| - 1].now == began + CM_POLL_INTERVAL * (n - 1))
  }

  // What holds at the opening and is kept by every turn holds after any number of turns.
  lemma {:induction false} WithinKeeps(holds: (seq<Tick>, nat) -> bool, h: seq<Tick>, began: nat, guess: Tick, n: nat)
    requires holds(h, 0)
    requires forall g, i: nat :: i < n && holds(g, i) ==> holds(g + [InTurn(guess, began, i)], i + 1)
    ensures holds(Within(h, began, guess, n), n)
  {
    if n > 0 {
      WithinKeeps(holds, h, began, guess, n - 1);
    }
  }

  ghost function Looking(k: Hashing, began: nat, looks: nat): (seq<Tick>, nat) -> bool
  {
    (g: seq<Tick>, i: nat) => LookedWithin(k, g, began, looks + i, i)
  }

  lemma LookingAt(k: Hashing, began: nat, looks: nat, g: seq<Tick>, i: nat)
    ensures Looking(k, began, looks)(g, i) <==> LookedWithin(k, g, began, looks + i, i)
  {
  }

  lemma LookingNext(k: Hashing, began: nat, guess: Tick, looks: nat, g: seq<Tick>, i: nat)
    requires Wrong(k, guess) && i < 300 && Looking(k, began, looks)(g, i)
    ensures Looking(k, began, looks)(g + [InTurn(guess, began, i)], i + 1)
  {
    LookingAt(k, began, looks, g, i);
    WithinNext(k, g, began, guess, looks + i, i);
    LookingAt(k, began, looks, g + [InTurn(guess, began, i)], i + 1);
  }

  lemma InTheWindow(k: Hashing, h: seq<Tick>, began: nat, guess: Tick, looks: nat, n: nat)
    requires Wrong(k, guess) && n <= 300 && Looking(k, began, looks)(h, 0)
    ensures Looking(k, began, looks)(Within(h, began, guess, n), n)
  {
    var holds := Looking(k, began, looks);
    forall g, i: nat | i < n && holds(g, i) ensures holds(g + [InTurn(guess, began, i)], i + 1) {
      LookingNext(k, began, guess, looks, g, i);
    }
    WithinKeeps(holds, h, began, guess, n);
  }

  lemma WithinNext(k: Hashing, h: seq<Tick>, began: nat, guess: Tick, looks: nat, n: nat)
    requires n < 300 && LookedWithin(k, h, began, looks, n) && Wrong(k, guess)
    ensures LookedWithin(k, h + [InTurn(guess, began, n)], began, looks + 1, n + 1)
  {
    StillWrong(k, guess, began + CM_POLL_INTERVAL * n);
    OneMoreWithin(k, h, began, InTurn(guess, began, n), looks, n);
  }

  lemma StillWrong(k: Hashing, guess: Tick, now: nat)
    requires Wrong(k, guess)
    ensures Wrong(k, guess.(now := now))
  {
  }

  lemma OneMoreWithin(k: Hashing, h: seq<Tick>, began: nat, t: Tick, looks: nat, n: nat)
    requires n < 300 && LookedWithin(k, h, began, looks, n) && Wrong(k, t) && t.now == began + CM_POLL_INTERVAL * n
    ensures LookedWithin(k, h + [t], began, looks + 1, n + 1)
  {
    WrongLooked(k, h, t, looks);
    OpenedSnoc(h, t);
    assert (h + [t])[OpenedAt(h)] == h[OpenedAt(h)] && (h + [t])[|h|] == t;
  }

  // 304 wrong passwords can be looked at and refused, and the run is still undecided.
  lemma LooksReached(k: Hashing, opening: Tick, guess: Tick) returns (h: seq<Tick>)
    requires Wrong(k, guess) && Live(opening) && AsksApproval(opening)
    ensures Undecided(k, h) && Timed(h) && Looks(h) == 304 && Refusals(Events(LoginTalk(k), h)) == 304
  {
    var n, m := 4, 300;
    var g := Before(guess, n);
    BeforeWindow(k, guess, n);
    OpeningLooked(k, g, opening, n);
    OpenedSnoc(g, opening);
    assert (g + [opening])[|g|] == opening;
    h := Within(g + [opening], opening.now, guess, m);
    LookingAt(k, opening.now, n, g + [opening], 0);
    InTheWindow(k, g + [opening], opening.now, guess, n, m);
    LookingAt(k, opening.now, n, h, m);
  }
}
