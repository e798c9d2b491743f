// What the handshake's checks amount to, against any peer: whose key is used, whose is pinned, and
// when a server is keyed.

module HandshakeLaws {
  import opened Wrappers
  import opened MachineInts
  import opened Frames
  import opened Secretbox
  import opened Channel
  import opened HandshakeSpec
  import opened HandshakeAgreement

  predicate Names(w: World, id: string, target: string) { id == target || w.sameHost(id, target) }

  predicate SignedBy(w: World, k: Key, signed: seq<byte>) { |signed| >= 64 && w.sigOk(signed, k) }

  // Under key k, signed announces the target and a session key of its own.
  predicate Proves(w: World, signed: seq<byte>, k: Key, target: string)
  {
    && SignedBy(w, k, signed)
    && var i := w.decodeId(signed[64..]); i.Some? && Names(w, i.value.id, target) && |i.value.pk| == 32
  }

  lemma ProvesExactly(w: World, signed: seq<byte>, k: Key, target: string)
    ensures VerifiedSessionPk(w, signed, k, target).SessionKey? <==> Proves(w, signed, k, target)
  {
  }

  // The first message, if it is an announcement, and what comes behind it.
  ghost predicate Announces(w: World, input: seq<byte>, signed: seq<byte>, rest: seq<byte>)
  {
    Next(w, None, input, CLIENT_MAX) == Some((SignedId(signed), rest, None))
  }

  // The next message is a Hash that can be read under the given keys.
  predicate HashNext(w: World, keys: Option<Keyed>, input: seq<byte>)
  {
    var n := Next(w, keys, input, CLIENT_MAX); n.Some? && n.value.0.HashMsg?
  }

  lemma NextKeys(w: World, e: Option<Keyed>, input: seq<byte>, maxLen: nat)
    ensures var n := Next(w, e, input, maxLen); n.Some? ==> (n.value.2.Some? <==> e.Some?)
  {
  }

  lemma FinishEnds(w: World, c: Client, out: seq<byte>, pin: Option<Key>, spk: Option<Key>, input: seq<byte>)
    ensures var e := FinishClient(w, c, out, pin, spk, input, CLIENT_MAX);
            && (e.Secured? <==> spk.Some? && HashNext(w, Some(Keyed(c.sym, 0, 0)), input))
            && (e.Plain? <==> spk.None? && HashNext(w, None, input))
            && out + Send(w, None, KeyMessage(w, c, spk)) == e.out && e.pin == pin
  {
    NextKeys(w, if spk.Some? then Some(Keyed(c.sym, 0, 0)) else None, input, CLIENT_MAX);
  }

  lemma OnAnnounced(w: World, c: Client, input: seq<byte>)
    ensures forall signed, rest :: Announces(w, input, signed, rest) ==>
              RunClient(w, c, input, CLIENT_MAX) == OnSignedId(w, c, signed, rest, CLIENT_MAX)
    ensures var e := RunClient(w, c, input, CLIENT_MAX);
            e.Secured? ==> exists signed, rest :: Announces(w, input, signed, rest)
  {
    NextKeys(w, None, input, CLIENT_MAX);
    var n := Next(w, None, input, CLIENT_MAX);
    if n.Some? && n.value.0.SignedId? { assert Announces(w, input, n.value.0.id, n.value.1); }
  }

  // With a trusted key a session is secured exactly if the first message is an announcement that
  // this key proves to be the target's, and the second a Hash under the client's key.
  lemma SecuredExactly(w: World, c: Client, input: seq<byte>)
    requires Trusted(c).Some?
    ensures RunClient(w, c, input, CLIENT_MAX).Secured? <==>
              exists signed, rest :: Announces(w, input, signed, rest)
                && Proves(w, signed, Trusted(c).value, c.target) && HashNext(w, Some(Keyed(c.sym, 0, 0)), rest)
  {
    OnAnnounced(w, c, input);
    forall signed, rest | Announces(w, input, signed, rest)
      ensures RunClient(w, c, input, CLIENT_MAX).Secured?
         <==> Proves(w, signed, Trusted(c).value, c.target) && HashNext(w, Some(Keyed(c.sym, 0, 0)), rest)
    {
      TrustedEnds(w, c, signed, rest);
    }
  }

  lemma TrustedEnds(w: World, c: Client, signed: seq<byte>, rest: seq<byte>)
    requires Trusted(c).Some?
    ensures var e := OnSignedId(w, c, signed, rest, CLIENT_MAX);
            && (e.Secured? <==> Proves(w, signed, Trusted(c).value, c.target)
                                && HashNext(w, Some(Keyed(c.sym, 0, 0)), rest))
            && (!Proves(w, signed, Trusted(c).value, c.target) ==> e == Failed([], c.pinned))
  {
    ProvesExactly(w, signed, Trusted(c).value, c.target);
    var v := VerifiedSessionPk(w, signed, Trusted(c).value, c.target);
    if v.SessionKey? { FinishEnds(w, c, [], Trusted(c), Some(v.pk), rest); }
  }

  // An announcement the trusted key does not prove to be the target's, such as one of another id,
  // ends the run: nothing is sent and nothing is pinned.
  lemma StrangerFails(w: World, c: Client, input: seq<byte>, signed: seq<byte>, rest: seq<byte>)
    requires Trusted(c).Some? && Announces(w, input, signed, rest) && !Proves(w, signed, Trusted(c).value, c.target)
    ensures RunClient(w, c, input, CLIENT_MAX) == Failed([], c.pinned)
  {
    OnAnnounced(w, c, input);
    TrustedEnds(w, c, signed, rest);
  }

  // The key a peer supplies when it is asked for one.
  ghost predicate Supplies(w: World, input: seq<byte>, k: Key, rest: seq<byte>)
  {
    Next(w, None, input, CLIENT_MAX) == Some((MiscMsg(InitialKeyResponse(k)), rest, None))
  }

  // Without one, a key the peer supplies secures the session exactly if it proves the target;
  // signing another id with it leaves the session plain, and not signing at all ends it.
  lemma SuppliedExactly(w: World, c: Client, input: seq<byte>, signed: seq<byte>, mid: seq<byte>, k: Key,
                        rest: seq<byte>)
    requires Trusted(c).None? && Announces(w, input, signed, mid) && Supplies(w, mid, k, rest)
    ensures var e := RunClient(w, c, input, CLIENT_MAX);
            && (e.Secured? <==> Proves(w, signed, k, c.target) && HashNext(w, Some(Keyed(c.sym, 0, 0)), rest))
            && (e.Plain? <==> Foreign(w, signed, k, c.target) && HashNext(w, None, rest))
            && e.pin == None
  {
    OnAnnounced(w, c, input);
    ProvesExactly(w, signed, k, c.target);
    var v := VerifiedSessionPk(w, signed, k, c.target);
    FinishEnds(w, c, Ask(w), None, if v.SessionKey? then Some(v.pk) else None, rest);
  }

  // A peer that answers with anything else leaves the session plain, whatever it has announced; one
  // that does not answer ends it.
  lemma NothingSupplied(w: World, c: Client, input: seq<byte>, signed: seq<byte>, mid: seq<byte>)
    requires Trusted(c).None? && Announces(w, input, signed, mid)
    requires forall k, rest :: !Supplies(w, mid, k, rest)
    ensures var e, n := RunClient(w, c, input, CLIENT_MAX), Next(w, None, mid, CLIENT_MAX);
            && !e.Secured? && e.pin == None && (e.Plain? <==> n.Some? && HashNext(w, None, n.value.1))
            && e.out == Ask(w) + if n.Some? then Send(w, None, PublicKey([], [])) else []
  {
    OnAnnounced(w, c, input);
    NextKeys(w, None, mid, CLIENT_MAX);
    var n := Next(w, None, mid, CLIENT_MAX);
    if n.Some? {
      var s := SuppliedKey(n.value.0);
      if s.Some? { assert Supplies(w, mid, s.value, n.value.1); }
      FinishEnds(w, c, Ask(w), None, None, n.value.1);
    } else {
      assert Ask(w) + [] == Ask(w);
    }
  }

  // Without an announcement a run succeeds exactly if the first message is a Hash, and is plain.
  lemma NothingAnnounced(w: World, c: Client, input: seq<byte>)
    requires forall signed, rest :: !Announces(w, input, signed, rest)
    ensures var e := RunClient(w, c, input, CLIENT_MAX);
            !e.Secured? && e.out == [] && e.pin == c.pinned && (e.Plain? <==> HashNext(w, None, input))
  {
    NextKeys(w, None, input, CLIENT_MAX);
    var n := Next(w, None, input, CLIENT_MAX);
    if n.Some? && n.value.0.SignedId? { assert Announces(w, input, n.value.0.id, n.value.1); }
  }

  // Signed with the key, but for somebody else.
  predicate Foreign(w: World, signed: seq<byte>, k: Key, target: string)
  {
    && SignedBy(w, k, signed)
    && var i := w.decodeId(signed[64..]); i.Some? && !Names(w, i.value.id, target)
  }

  // A key is newly pinned exactly if it was relayed, nothing was pinned, and the first message is
  // an announcement that this key proves to be the target's.
  lemma PinnedExactly(w: World, c: Client, input: seq<byte>, k: Key)
    requires c.pinned.None?
    ensures RunClient(w, c, input, CLIENT_MAX).pin == Some(k) <==>
              c.relayed == Some(k) && exists signed, rest :: Announces(w, input, signed, rest)
                                                           && Proves(w, signed, k, c.target)
  {
    PinRule(w, c, input);
    NextKeys(w, None, input, CLIENT_MAX);
    forall signed, rest | Announces(w, input, signed, rest)
      ensures FirstId(w, input) == Some(signed)
           && (VerifiedSessionPk(w, signed, k, c.target).SessionKey? <==> Proves(w, signed, k, c.target))
    {
      ProvesExactly(w, signed, k, c.target);
    }
    var n := Next(w, None, input, CLIENT_MAX);
    if n.Some? && n.value.0.SignedId? { assert Announces(w, input, n.value.0.id, n.value.1); }
  }

  // A client that ends up secured with a server has reached the one it was after: the server bears
  // the target's name, signs, and the key the check was made with accepts its announcement.
  lemma RightServer(w: World, c: Client, s: Server, cin: seq<byte>, sin: seq<byte>)
    requires Lawful(w) && UnsignedRejected(w, s) && ShortMessages(w, c, s) && Joined(w, c, s, cin, sin)
    requires RunClient(w, c, cin, CLIENT_MAX).Secured?
    ensures Names(w, s.id, c.target) && |s.signSk| == 64
    ensures exists k: Key :: w.sigOk(w.signature(IdBytes(w, s), s.signSk) + IdBytes(w, s), k)
                          && (if Trusted(c).Some? then k == Trusted(c).value else k == s.signPk)
  {
    StartsWithHello(w, s, sin);
    PrefixTrans(Hello(w, s), RunServer(w, s, sin, SERVER_MAX).out, cin);
    var r := Split(Hello(w, s), cin);
    NextPlain(w, SignedId(Announcement(w, s)), r, CLIENT_MAX);
    assert Announces(w, cin, Announcement(w, s), r);
    OnAnnounced(w, c, cin);
    if Trusted(c).Some? {
      TrustedEnds(w, c, Announcement(w, s), r);
      OwnAnnouncement(w, s, Trusted(c).value, c.target);
    } else {
      var rest := AnswerArrives(w, c, s, cin, sin);
      AnsweredKey(w, c, s, cin, r, rest);
      OwnAnnouncement(w, s, s.signPk, c.target);
    }
  }

  lemma OwnAnnouncement(w: World, s: Server, k: Key, target: string)
    requires Lawful(w) && UnsignedRejected(w, s) && Proves(w, Announcement(w, s), k, target)
    ensures Names(w, s.id, target) && |s.signSk| == 64
    ensures w.sigOk(w.signature(IdBytes(w, s), s.signSk) + IdBytes(w, s), k)
  {
    if |s.signSk| == 64 { assert Announcement(w, s)[64..] == IdBytes(w, s); }
  }

  lemma AnsweredKey(w: World, c: Client, s: Server, cin: seq<byte>, r: seq<byte>, rest: seq<byte>)
    requires Lawful(w) && ShortMessages(w, c, s) && Trusted(c).None?
    requires cin == Hello(w, s) + r && cin == Hello(w, s) + (Answer(w, s) + rest)
    requires Announces(w, cin, Announcement(w, s), r) && RunClient(w, c, cin, CLIENT_MAX).Secured?
    ensures |s.signPk| == 32 && Proves(w, Announcement(w, s), s.signPk, c.target)
  {
    assert r == cin[|Hello(w, s)|..] == Answer(w, s) + rest;
    NextPlain(w, MiscMsg(InitialKeyResponse(s.signPk)), rest, CLIENT_MAX);
    OnAnnounced(w, c, cin);
    if |s.signPk| == 32 {
      assert Supplies(w, r, s.signPk, rest);
      SuppliedExactly(w, c, cin, Announcement(w, s), r, s.signPk, rest);
    } else {
      FinishEnds(w, c, Ask(w), None, None, rest);
    }
  }

  // And a server of that name whose announcement the trusted key accepts is reached.
  lemma RightServerCompletes(w: World, c: Client, s: Server)
    requires Lawful(w) && UnsignedRejected(w, s) && ShortMessages(w, c, s) && Trusted(c).Some?
    requires Names(w, s.id, c.target) && |s.signSk| == 64
    requires w.sigOk(w.signature(IdBytes(w, s), s.signSk) + IdBytes(w, s), Trusted(c).value)
    ensures exists cin, sin :: Joined(w, c, s, cin, sin) && RunClient(w, c, cin, CLIENT_MAX).Secured?
  {
    assert Announcement(w, s)[64..] == IdBytes(w, s);
    ProvesExactly(w, Announcement(w, s), Trusted(c).value, c.target);
    HonestRunCompletes(w, c, s);
    var k := Some(w.public(s.eph));
    var sin := Send(w, None, KeyMessage(w, c, k));
    var cin := Hello(w, s) + Send(w, HashKeys(c, k), HashMsg(s.hash));
    Agreement(w, c, s, cin, sin);
  }

  // ----- the server -----

  // A key message: sealed for the server's session key, and nothing else, is a key.
  lemma KeyedExactly(w: World, s: Server, a: seq<byte>, sealed: seq<byte>, k: Key)
    ensures TrySetup(w, s, PublicKey(a, sealed)) == Some(Keyed(k, 0, 0)) <==>
              |a| == 32 && sealed == Seal(w.cipher, w.shared(s.eph, a), NoNonce(), k)
  {
    if |a| == 32 { OpenIffSealed(w.cipher, w.shared(s.eph, a), NoNonce(), sealed, k); }
  }

  // The message a server's key can come from: the first one, or the second if that is a Misc.
  function Decisive(w: World, input: seq<byte>): Option<Msg>
  {
    match Next(w, None, input, SERVER_MAX)
    case None => None
    case Some((m, rest, _)) =>
      if !m.MiscMsg? then Some(m)
      else
        var n := Next(w, None, rest, SERVER_MAX);
        if n.None? then None else Some(n.value.0)
  }

  // Whatever is sent to a server: it gets ready exactly if it can read that message, and is keyed
  // with k exactly if that is a key message with k sealed for its session key.
  lemma ServerKeyedExactly(w: World, s: Server, input: seq<byte>, k: Key)
    ensures var f := RunServer(w, s, input, SERVER_MAX);
            && (f.Ready? <==> Decisive(w, input).Some?)
            && (f.Ready? && f.keys == Some(Keyed(k, 1, 0)) <==>
                  exists a: Key :: Decisive(w, input)
                                == Some(PublicKey(a, Seal(w.cipher, w.shared(s.eph, a), NoNonce(), k))))
  {
    var d := Decisive(w, input);
    if d.Some? && d.value.PublicKey? {
      KeyedExactly(w, s, d.value.asymmetric, d.value.symmetric, k);
    }
  }

  // ----- the client's key message -----

  // Without a session key it is empty; otherwise it carries the client's public key, and its own
  // symmetric key sealed for the session key.
  lemma SentKey(w: World, c: Client, pk: Key)
    ensures KeyMessage(w, c, None) == PublicKey([], [])
    ensures var m := KeyMessage(w, c, Some(pk));
            && m.PublicKey? && m.asymmetric == w.public(c.sk)
            && Open(w.cipher, w.shared(c.sk, pk), seq(24, _ => 0), m.symmetric) == Some(c.sym)
  {
    assert NoNonce() == seq(24, _ => 0);
    OpenIffSealed(w.cipher, w.shared(c.sk, pk), NoNonce(), Seal(w.cipher, w.shared(c.sk, pk), NoNonce(), c.sym), c.sym);
  }
}
