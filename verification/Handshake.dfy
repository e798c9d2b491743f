// The two halves of the session handshake (src/client.rs client_handshake, src/server.rs
// run_session_public) over FramedStream, and key pinning.

module HandshakeSpec {
  import opened Wrappers
  import opened MachineInts
  import opened Frames
  import opened Secretbox
  import opened Channel

  datatype Misc = ChatMessage(text: string) | InitialKeyResponse(key: seq<byte>) | OtherMisc
  datatype Hash = Hash(salt: string, challenge: string)
  datatype Msg =
    | SignedId(id: seq<byte>)
    | PublicKey(asymmetric: seq<byte>, symmetric: seq<byte>)
    | MiscMsg(misc: Misc)
    | HashMsg(hash: Hash)
    | OtherMsg

  datatype IdPk = IdPk(id: string, pk: seq<byte>)

  type Prefix64 = s: seq<byte> | |s| == 64 witness seq(64, _ => 0)

  // What lies outside the model: protobuf encoding, the signature's 64 bytes and their check,
  // scalar multiplication followed by HSalsa20, and host-name comparison.
  datatype World = World(
    cipher: Cipher,
    encode: Msg -> seq<byte>, decode: seq<byte> -> Option<Msg>,
    encodeId: IdPk -> seq<byte>, decodeId: seq<byte> -> Option<IdPk>,
    signature: (seq<byte>, seq<byte>) -> Prefix64, sigOk: (seq<byte>, Key) -> bool,
    public: Key -> Key, shared: (Key, Key) -> Key,
    sameHost: (string, string) -> bool)

  // Parsing undoes printing, and the key exchange commutes.
  ghost predicate Lawful(w: World)
  {
    && (forall m :: w.decode(w.encode(m)) == Some(m))
    && (forall i :: w.decodeId(w.encodeId(i)) == Some(i))
    && (forall a, b :: w.shared(a, w.public(b)) == w.shared(b, w.public(a)))
  }

  function NoNonce(): Nonce { seq(24, _ => 0) }

  function Sign(w: World, m: seq<byte>, sk: seq<byte>): seq<byte> { w.signature(m, sk) + m }

  function Verify(w: World, signed: seq<byte>, pk: Key): Option<seq<byte>>
  {
    if |signed| < 64 || !w.sigOk(signed, pk) then None else Some(signed[64..])
  }

  // ----- the client -----

  datatype Checked = SessionKey(pk: Key) | BadSignature | BadIdentity

  function VerifiedSessionPk(w: World, signed: seq<byte>, signPk: Key, target: string): Checked
  {
    match Verify(w, signed, signPk)
    case None => BadSignature
    case Some(payload) =>
      match w.decodeId(payload)
      case None => BadSignature
      case Some(i) =>
        if i.id != target && !w.sameHost(i.id, target) then BadIdentity
        else if |i.pk| != 32 then BadSignature
        else SessionKey(i.pk)
  }

  datatype Client = Client(target: string, pinned: Option<Key>, relayed: Option<Key>, sk: Key, sym: Key)

  datatype ClientEnd =
    | Failed(out: seq<byte>, pin: Option<Key>)
    | Secured(out: seq<byte>, pin: Option<Key>, hash: Hash, keys: Keyed)
    | Plain(out: seq<byte>, pin: Option<Key>, hash: Hash)

  function Next(w: World, e: Option<Keyed>, input: seq<byte>, maxLen: nat): Option<(Msg, seq<byte>, Option<Keyed>)>
  {
    var r := Receive(w.cipher, e, input, maxLen);
    match r.result
    case Err(_) => None
    case Ok(bytes) =>
      match w.decode(bytes)
      case None => None
      case Some(m) => Some((m, r.rest, r.keys))
  }

  function Send(w: World, e: Option<Keyed>, m: Msg): seq<byte> { Frame(Payload(w.cipher, e, w.encode(m))) }

  function KeyMessage(w: World, c: Client, serverPk: Option<Key>): Msg
  {
    match serverPk
    case None => PublicKey([], [])
    case Some(pk) => PublicKey(w.public(c.sk), Seal(w.cipher, w.shared(c.sk, pk), NoNonce(), c.sym))
  }

  // The last exchange: our key message, then the server's Hash under the new key if any.
  function FinishClient(w: World, c: Client, out: seq<byte>, pin: Option<Key>, serverPk: Option<Key>, input: seq<byte>,
                        maxLen: nat): ClientEnd
  {
    var out' := out + Send(w, None, KeyMessage(w, c, serverPk));
    var keys := if serverPk.Some? then Some(Keyed(c.sym, 0, 0)) else None;
    match Next(w, keys, input, maxLen)
    case None => Failed(out', pin)
    case Some((m, _, keys')) =>
      if !m.HashMsg? then Failed(out', pin)
      else if keys'.Some? then Secured(out', pin, m.hash, keys'.value)
      else Plain(out', pin, m.hash)
  }

  function SuppliedKey(m: Msg): Option<Key>
  {
    if m.MiscMsg? && m.misc.InitialKeyResponse? && |m.misc.key| == 32 then Some(m.misc.key) else None
  }

  function RunClient(w: World, c: Client, input: seq<byte>, maxLen: nat): ClientEnd
  {
    match Next(w, None, input, maxLen)
    case None => Failed([], c.pinned)
    case Some((HashMsg(h), _, _)) => Plain([], c.pinned, h)
    case Some((SignedId(id), rest, _)) => OnSignedId(w, c, id, rest, maxLen)
    case Some(_) => Failed([], c.pinned)
  }

  // A pinned key wins over a relayed one; a relayed key that checks out gets pinned.
  function OnSignedId(w: World, c: Client, id: seq<byte>, input: seq<byte>, maxLen: nat): ClientEnd
  {
    if c.pinned.Some? then
      match VerifiedSessionPk(w, id, c.pinned.value, c.target) {
        case SessionKey(pk) => FinishClient(w, c, [], c.pinned, Some(pk), input, maxLen)
        case _ => Failed([], c.pinned)
      }
    else if c.relayed.Some? then
      match VerifiedSessionPk(w, id, c.relayed.value, c.target) {
        case SessionKey(pk) => FinishClient(w, c, [], c.relayed, Some(pk), input, maxLen)
        case _ => Failed([], None)
      }
    else
      AskPeer(w, c, id, input, maxLen)
  }

  // No trusted key: ask the peer for one, which encrypts but is never pinned.
  function AskPeer(w: World, c: Client, id: seq<byte>, input: seq<byte>, maxLen: nat): ClientEnd
  {
    match Next(w, None, input, maxLen)
    case None => Failed(Ask(w), None)
    case Some((m, rest, _)) => OnSuppliedKey(w, c, id, SuppliedKey(m), rest, maxLen)
  }

  function Ask(w: World): seq<byte> { Send(w, None, MiscMsg(ChatMessage("E"))) }

  function OnSuppliedKey(w: World, c: Client, id: seq<byte>, supplied: Option<Key>, input: seq<byte>,
                         maxLen: nat): ClientEnd
  {
    match supplied
    case None => FinishClient(w, c, Ask(w), None, None, input, maxLen)
    case Some(k) =>
      match VerifiedSessionPk(w, id, k, c.target)
      case SessionKey(pk) => FinishClient(w, c, Ask(w), None, Some(pk), input, maxLen)
      case BadIdentity => FinishClient(w, c, Ask(w), None, None, input, maxLen)
      case BadSignature => Failed(Ask(w), None)
  }

  // ----- the server -----

  datatype Server = Server(id: string, signSk: seq<byte>, signPk: seq<byte>, eph: Key, hash: Hash)

  datatype ServerEnd = Aborted(out: seq<byte>) | Ready(out: seq<byte>, keys: Option<Keyed>)

  function IdBytes(w: World, s: Server): seq<byte> { w.encodeId(IdPk(s.id, w.public(s.eph))) }

  function Announcement(w: World, s: Server): seq<byte>
  {
    if |s.signSk| == 64 then Sign(w, IdBytes(w, s), s.signSk) else IdBytes(w, s)
  }

  function TrySetup(w: World, s: Server, m: Msg): Option<Keyed>
    requires m.PublicKey?
  {
    if |m.asymmetric| == 32 && m.symmetric != [] then
      match Open(w.cipher, w.shared(s.eph, m.asymmetric), NoNonce(), m.symmetric)
      case None => None
      case Some(key) => if |key| == 32 then Some(Keyed(key, 0, 0)) else None
    else None
  }

  function FinishServer(w: World, s: Server, out: seq<byte>, keys: Option<Keyed>): ServerEnd
  {
    Ready(out + Send(w, keys, HashMsg(s.hash)), AfterSend(keys))
  }

  function RunServer(w: World, s: Server, input: seq<byte>, maxLen: nat): ServerEnd
  {
    var hello := Send(w, None, SignedId(Announcement(w, s)));
    match Next(w, None, input, maxLen)
    case None => Aborted(hello)
    case Some((m, rest, _)) =>
      if m.PublicKey? then FinishServer(w, s, hello, TrySetup(w, s, m))
      else if m.MiscMsg? then
        var answered := hello + Send(w, None, MiscMsg(InitialKeyResponse(s.signPk)));
        match Next(w, None, rest, maxLen) {
          case None => Aborted(answered)
          case Some((m2, _, _)) => FinishServer(w, s, answered, if m2.PublicKey? then TrySetup(w, s, m2) else None)
        }
      else FinishServer(w, s, hello, None)
  }
}

module HandshakeAgreement {
  import opened Wrappers
  import opened MachineInts
  import opened Frames
  import opened Secretbox
  import opened Channel
  import opened HandshakeSpec

  const SERVER_MAX: nat := 4 * 1024 * 1024
  const CLIENT_MAX: nat := 16 * 1024 * 1024

  // The few messages of a handshake are far below either frame limit.
  ghost predicate Short(w: World, m: Msg) { |w.encode(m)| + 16 <= SERVER_MAX }

  ghost predicate ShortMessages(w: World, c: Client, s: Server)
  {
    && Short(w, SignedId(Announcement(w, s))) && Short(w, MiscMsg(InitialKeyResponse(s.signPk)))
    && Short(w, HashMsg(s.hash))
    && Short(w, MiscMsg(ChatMessage("E"))) && Short(w, KeyMessage(w, c, None))
    && Short(w, KeyMessage(w, c, Some(w.public(s.eph))))
  }

  // A server without a signing key sends bytes that no signature check accepts.
  ghost predicate UnsignedRejected(w: World, s: Server)
  {
    |s.signSk| != 64 ==> forall pk: Key :: !w.sigOk(IdBytes(w, s), pk)
  }

  lemma NextPlain(w: World, m: Msg, rest: seq<byte>, maxLen: nat)
    requires Lawful(w) && |w.encode(m)| <= maxLen <= LONGEST
    ensures Next(w, None, Send(w, None, m) + rest, maxLen) == Some((m, rest, None))
  {
    FrameRoundTrip(w.encode(m), rest, maxLen);
  }

  lemma NextKeyed(w: World, key: Key, m: Msg, rest: seq<byte>, maxLen: nat)
    requires Lawful(w) && |w.encode(m)| + 16 <= maxLen <= LONGEST
    ensures Next(w, Some(Keyed(key, 0, 0)), Send(w, Some(Keyed(key, 0, 0)), m) + rest, maxLen)
         == Some((m, rest, Some(Keyed(key, 0, 1))))
  {
    var sealed := Seal(w.cipher, key, NonceAt(1), w.encode(m));
    FrameRoundTrip(sealed, rest, maxLen);
    OpenIffSealed(w.cipher, key, NonceAt(1), sealed, w.encode(m));
  }

  // Whatever key it is checked under, a genuine announcement only ever yields the server's own session key.
  lemma OnlySessionKey(w: World, s: Server, pk: Key, target: string)
    requires Lawful(w) && UnsignedRejected(w, s)
    ensures var v := VerifiedSessionPk(w, Announcement(w, s), pk, target);
            v.SessionKey? ==> v.pk == w.public(s.eph)
  {
    if |s.signSk| == 64 {
      assert Announcement(w, s)[64..] == IdBytes(w, s);
    }
  }

  // The server opens what the client sealed for its session key.
  lemma SetupAccepts(w: World, c: Client, s: Server)
    requires Lawful(w)
    ensures TrySetup(w, s, KeyMessage(w, c, Some(w.public(s.eph)))) == Some(Keyed(c.sym, 0, 0))
    ensures TrySetup(w, s, KeyMessage(w, c, None)) == None
  {
    var k := w.shared(c.sk, w.public(s.eph));
    OpenIffSealed(w.cipher, k, NoNonce(), Seal(w.cipher, k, NoNonce(), c.sym), c.sym);
  }

  function HashKeys(c: Client, spk: Option<Key>): Option<Keyed>
  {
    if spk.Some? then Some(Keyed(c.sym, 0, 0)) else None
  }

  // What a finished client is told, once the server's Hash is the next thing it reads.
  lemma ClientReadsHash(w: World, c: Client, s: Server, out: seq<byte>, pin: Option<Key>, spk: Option<Key>,
                        rest: seq<byte>)
    requires Lawful(w) && Short(w, HashMsg(s.hash))
    ensures FinishClient(w, c, out, pin, spk, Send(w, HashKeys(c, spk), HashMsg(s.hash)) + rest, CLIENT_MAX)
         == var o := out + Send(w, None, KeyMessage(w, c, spk));
            if spk.Some? then Secured(o, pin, s.hash, Keyed(c.sym, 0, 1)) else Plain(o, pin, s.hash)
  {
    if spk.Some? {
      NextKeyed(w, c.sym, HashMsg(s.hash), rest, CLIENT_MAX);
    } else {
      NextPlain(w, HashMsg(s.hash), rest, CLIENT_MAX);
    }
  }

  function Hello(w: World, s: Server): seq<byte> { Send(w, None, SignedId(Announcement(w, s))) }

  function Answer(w: World, s: Server): seq<byte> { Send(w, None, MiscMsg(InitialKeyResponse(s.signPk))) }

  // The only session key a client can hold for this server, or none.
  ghost predicate OwnKey(w: World, s: Server, spk: Option<Key>)
  {
    spk.Some? ==> spk.value == w.public(s.eph)
  }

  lemma ServerDirect(w: World, c: Client, s: Server, spk: Option<Key>, rest: seq<byte>)
    requires Lawful(w) && ShortMessages(w, c, s) && OwnKey(w, s, spk)
    ensures RunServer(w, s, Send(w, None, KeyMessage(w, c, spk)) + rest, SERVER_MAX)
         == Ready(Hello(w, s) + Send(w, HashKeys(c, spk), HashMsg(s.hash)), AfterSend(HashKeys(c, spk)))
  {
    NextPlain(w, KeyMessage(w, c, spk), rest, SERVER_MAX);
    SetupAccepts(w, c, s);
  }

  lemma ServerAsked(w: World, c: Client, s: Server, spk: Option<Key>, rest: seq<byte>)
    requires Lawful(w) && ShortMessages(w, c, s) && OwnKey(w, s, spk)
    ensures RunServer(w, s, Ask(w) + (Send(w, None, KeyMessage(w, c, spk)) + rest), SERVER_MAX)
         == Ready(Hello(w, s) + Answer(w, s) + Send(w, HashKeys(c, spk), HashMsg(s.hash)), AfterSend(HashKeys(c, spk)))
  {
    NextPlain(w, MiscMsg(ChatMessage("E")), Send(w, None, KeyMessage(w, c, spk)) + rest, SERVER_MAX);
    NextPlain(w, KeyMessage(w, c, spk), rest, SERVER_MAX);
    SetupAccepts(w, c, s);
  }

  // Which key a client with a trusted key ends up using, if the check passes.
  lemma ClientTrusted(w: World, c: Client, s: Server, rest: seq<byte>)
    requires Lawful(w) && ShortMessages(w, c, s) && UnsignedRejected(w, s)
    requires c.pinned.Some? || c.relayed.Some?
    ensures var e := RunClient(w, c, Hello(w, s) + rest, CLIENT_MAX);
            var trusted := if c.pinned.Some? then c.pinned else c.relayed;
            e.Failed? || e == FinishClient(w, c, [], trusted, Some(w.public(s.eph)), rest, CLIENT_MAX)
  {
    NextPlain(w, SignedId(Announcement(w, s)), rest, CLIENT_MAX);
    OnlySessionKey(w, s, if c.pinned.Some? then c.pinned.value else c.relayed.value, c.target);
  }

  lemma ClientAsking(w: World, c: Client, s: Server, rest: seq<byte>) returns (spk: Option<Key>)
    requires Lawful(w) && ShortMessages(w, c, s) && UnsignedRejected(w, s)
    requires c.pinned.None? && c.relayed.None?
    ensures OwnKey(w, s, spk)
    ensures var e := RunClient(w, c, Hello(w, s) + (Answer(w, s) + rest), CLIENT_MAX);
            e.Failed? || e == FinishClient(w, c, Ask(w), None, spk, rest, CLIENT_MAX)
  {
    NextPlain(w, SignedId(Announcement(w, s)), Answer(w, s) + rest, CLIENT_MAX);
    NextPlain(w, MiscMsg(InitialKeyResponse(s.signPk)), rest, CLIENT_MAX);
    spk := None;
    if |s.signPk| == 32 {
      OnlySessionKey(w, s, s.signPk, c.target);
      var v := VerifiedSessionPk(w, Announcement(w, s), s.signPk, c.target);
      if v.SessionKey? { spk := Some(v.pk); }
    }
  }

  // However it goes on, a client without a trusted key first asks for one.
  lemma AskPeerOut(w: World, c: Client, id: seq<byte>, input: seq<byte>)
    ensures Ask(w) <= AskPeer(w, c, id, input, CLIENT_MAX).out
    ensures !AskPeer(w, c, id, input, CLIENT_MAX).Failed? ==> Next(w, None, input, CLIENT_MAX).Some?
  {
  }

  lemma FinishOut(w: World, c: Client, out: seq<byte>, pin: Option<Key>, spk: Option<Key>, input: seq<byte>)
    ensures FinishClient(w, c, out, pin, spk, input, CLIENT_MAX).out == out + Send(w, None, KeyMessage(w, c, spk))
  {
  }

  lemma Split(p: seq<byte>, s: seq<byte>) returns (rest: seq<byte>)
    requires p <= s
    ensures s == p + rest
  {
    rest := s[|p|..];
  }

  // Two ends whose byte streams are each other's output.
  ghost predicate Joined(w: World, c: Client, s: Server, cin: seq<byte>, sin: seq<byte>)
  {
    && RunServer(w, s, sin, SERVER_MAX).out <= cin
    && RunClient(w, c, cin, CLIENT_MAX).out <= sin
  }

  lemma StartsWithHello(w: World, s: Server, sin: seq<byte>)
    ensures Hello(w, s) <= RunServer(w, s, sin, SERVER_MAX).out
  {
  }

  lemma PrefixTrans(a: seq<byte>, b: seq<byte>, c: seq<byte>)
    requires a <= b && b <= c
    ensures a <= c
  {
  }

  // From the key message on, both ends follow from what the client holds.
  lemma AfterKeyMessage(w: World, c: Client, s: Server, cin: seq<byte>, hello: seq<byte>, r: seq<byte>,
                        out: seq<byte>, pin: Option<Key>, spk: Option<Key>)
    requires Lawful(w) && ShortMessages(w, c, s)
    requires cin == hello + r && hello + Send(w, HashKeys(c, spk), HashMsg(s.hash)) <= cin
    ensures FinishClient(w, c, out, pin, spk, r, CLIENT_MAX)
         == var o := out + Send(w, None, KeyMessage(w, c, spk));
            if spk.Some? then Secured(o, pin, s.hash, Keyed(c.sym, 0, 1)) else Plain(o, pin, s.hash)
  {
    var hash := Send(w, HashKeys(c, spk), HashMsg(s.hash));
    var r3 := Tail(hello, hash, r);
    ClientReadsHash(w, c, s, out, pin, spk, r3);
  }

  lemma Tail(a: seq<byte>, b: seq<byte>, r: seq<byte>) returns (t: seq<byte>)
    requires a + b <= a + r
    ensures r == b + t
  {
    t := r[|b|..];
    assert (a + r)[|a|..|a| + |b|] == b;
  }

  function Trusted(c: Client): Option<Key> { if c.pinned.Some? then c.pinned else c.relayed }

  lemma AgreementTrusted(w: World, c: Client, s: Server, cin: seq<byte>, sin: seq<byte>)
    requires Lawful(w) && UnsignedRejected(w, s) && ShortMessages(w, c, s) && Joined(w, c, s, cin, sin)
    requires c.pinned.Some? || c.relayed.Some?
    requires !RunClient(w, c, cin, CLIENT_MAX).Failed?
    ensures var e, f := RunClient(w, c, cin, CLIENT_MAX), RunServer(w, s, sin, SERVER_MAX);
            && f.Ready? && f.keys == Some(Keyed(c.sym, 1, 0))
            && e.Secured? && e.keys == Keyed(c.sym, 0, 1) && e.hash == s.hash
  {
    var spk := Some(w.public(s.eph));
    StartsWithHello(w, s, sin);
    PrefixTrans(Hello(w, s), RunServer(w, s, sin, SERVER_MAX).out, cin);
    var r := Split(Hello(w, s), cin);
    ClientTrusted(w, c, s, r);
    FinishOut(w, c, [], Trusted(c), spk, r);
    ServerTrusted(w, c, s, sin);
    AfterKeyMessage(w, c, s, cin, Hello(w, s), r, [], Trusted(c), spk);
  }

  lemma ServerTrusted(w: World, c: Client, s: Server, sin: seq<byte>)
    requires Lawful(w) && ShortMessages(w, c, s)
    requires [] + Send(w, None, KeyMessage(w, c, Some(w.public(s.eph)))) <= sin
    ensures RunServer(w, s, sin, SERVER_MAX)
         == Ready(Hello(w, s) + Send(w, HashKeys(c, Some(w.public(s.eph))), HashMsg(s.hash)), Some(Keyed(c.sym, 1, 0)))
  {
    var r := Split([] + Send(w, None, KeyMessage(w, c, Some(w.public(s.eph)))), sin);
    assert sin == Send(w, None, KeyMessage(w, c, Some(w.public(s.eph)))) + r;
    ServerDirect(w, c, s, Some(w.public(s.eph)), r);
  }

  lemma ServerAfterAsk(w: World, c: Client, s: Server, spk: Option<Key>, sin: seq<byte>)
    requires Lawful(w) && ShortMessages(w, c, s) && OwnKey(w, s, spk)
    requires Ask(w) + Send(w, None, KeyMessage(w, c, spk)) <= sin
    ensures RunServer(w, s, sin, SERVER_MAX)
         == Ready(Hello(w, s) + Answer(w, s) + Send(w, HashKeys(c, spk), HashMsg(s.hash)), AfterSend(HashKeys(c, spk)))
  {
    var m := Send(w, None, KeyMessage(w, c, spk));
    var r := Split(Ask(w) + m, sin);
    assert sin == Ask(w) + (m + r);
    ServerAsked(w, c, s, spk, r);
  }

  // A client that asks gets as far as the answer.
  lemma AnswerArrives(w: World, c: Client, s: Server, cin: seq<byte>, sin: seq<byte>) returns (r: seq<byte>)
    requires Lawful(w) && ShortMessages(w, c, s) && Joined(w, c, s, cin, sin)
    requires c.pinned.None? && c.relayed.None?
    ensures cin == Hello(w, s) + (Answer(w, s) + r)
  {
    AskArrives(w, c, s, cin, sin);
    var q2 := Split(Ask(w), sin);
    ServerAnswers(w, c, s, q2);
    PrefixTrans(Hello(w, s) + Answer(w, s), RunServer(w, s, sin, SERVER_MAX).out, cin);
    r := Split(Hello(w, s) + Answer(w, s), cin);
    Assoc(Hello(w, s), Answer(w, s), r);
  }

  lemma AskArrives(w: World, c: Client, s: Server, cin: seq<byte>, sin: seq<byte>)
    requires Lawful(w) && ShortMessages(w, c, s) && Joined(w, c, s, cin, sin)
    requires c.pinned.None? && c.relayed.None?
    ensures Ask(w) <= sin
  {
    StartsWithHello(w, s, sin);
    PrefixTrans(Hello(w, s), RunServer(w, s, sin, SERVER_MAX).out, cin);
    var q := Split(Hello(w, s), cin);
    NextPlain(w, SignedId(Announcement(w, s)), q, CLIENT_MAX);
    AskPeerOut(w, c, Announcement(w, s), q);
    PrefixTrans(Ask(w), RunClient(w, c, cin, CLIENT_MAX).out, sin);
  }

  lemma ServerAnswers(w: World, c: Client, s: Server, rest: seq<byte>)
    requires Lawful(w) && ShortMessages(w, c, s)
    ensures Hello(w, s) + Answer(w, s) <= RunServer(w, s, Ask(w) + rest, SERVER_MAX).out
  {
    NextPlain(w, MiscMsg(ChatMessage("E")), rest, SERVER_MAX);
  }

  lemma AgreementAsking(w: World, c: Client, s: Server, cin: seq<byte>, sin: seq<byte>)
    requires Lawful(w) && UnsignedRejected(w, s) && ShortMessages(w, c, s) && Joined(w, c, s, cin, sin)
    requires c.pinned.None? && c.relayed.None?
    requires !RunClient(w, c, cin, CLIENT_MAX).Failed?
    ensures var e, f := RunClient(w, c, cin, CLIENT_MAX), RunServer(w, s, sin, SERVER_MAX);
            && f.Ready? && (e.Secured? <==> f.keys.Some?) && e.hash == s.hash
            && (e.Secured? ==> e.keys == Keyed(c.sym, 0, 1) && f.keys == Some(Keyed(c.sym, 1, 0)))
  {
    var r := AnswerArrives(w, c, s, cin, sin);
    var spk := ClientAsking(w, c, s, r);
    FinishOut(w, c, Ask(w), None, spk, r);
    ServerAfterAsk(w, c, s, spk, sin);
    AskingEnds(w, c, s, cin, r, spk);
  }

  lemma AskingEnds(w: World, c: Client, s: Server, cin: seq<byte>, r: seq<byte>, spk: Option<Key>)
    requires Lawful(w) && ShortMessages(w, c, s) && cin == Hello(w, s) + (Answer(w, s) + r)
    requires Hello(w, s) + Answer(w, s) + Send(w, HashKeys(c, spk), HashMsg(s.hash)) <= cin
    ensures var e := FinishClient(w, c, Ask(w), None, spk, r, CLIENT_MAX);
            && (e.Secured? <==> spk.Some?) && !e.Failed? && e.hash == s.hash
            && (e.Secured? ==> e.keys == Keyed(c.sym, 0, 1))
  {
    Assoc(Hello(w, s), Answer(w, s), r);
    AfterKeyMessage(w, c, s, cin, Hello(w, s) + Answer(w, s), r, Ask(w), None, spk);
  }

  // Whenever the client completes against the server, the server has completed too, and the
  // client reports a secured session exactly when the server set a key; the keys are then equal,
  // the Hash is the server's, and it was the first message under the key: the only counters that
  // moved are its own.
  lemma Agreement(w: World, c: Client, s: Server, cin: seq<byte>, sin: seq<byte>)
    requires Lawful(w) && UnsignedRejected(w, s) && ShortMessages(w, c, s) && Joined(w, c, s, cin, sin)
    requires !RunClient(w, c, cin, CLIENT_MAX).Failed?
    ensures var e, f := RunClient(w, c, cin, CLIENT_MAX), RunServer(w, s, sin, SERVER_MAX);
            && f.Ready? && (e.Secured? <==> f.keys.Some?) && e.hash == s.hash
            && (e.Secured? ==> e.keys == Keyed(c.sym, 0, 1) && f.keys == Some(Keyed(c.sym, 1, 0)))
            && (c.pinned.Some? || c.relayed.Some? ==> e.Secured?)
  {
    if c.pinned.Some? || c.relayed.Some? {
      AgreementTrusted(w, c, s, cin, sin);
    } else {
      AgreementAsking(w, c, s, cin, sin);
    }
  }

  // And such runs exist: a signed announcement that passes the trusted key's check completes.
  lemma HonestRunCompletes(w: World, c: Client, s: Server)
    requires Lawful(w) && UnsignedRejected(w, s) && ShortMessages(w, c, s) && Trusted(c).Some?
    requires VerifiedSessionPk(w, Announcement(w, s), Trusted(c).value, c.target).SessionKey?
    ensures var k := Some(w.public(s.eph));
            var sin := Send(w, None, KeyMessage(w, c, k));
            var cin := Hello(w, s) + Send(w, HashKeys(c, k), HashMsg(s.hash));
            Joined(w, c, s, cin, sin) && !RunClient(w, c, cin, CLIENT_MAX).Failed?
  {
    var k := Some(w.public(s.eph));
    var sin := Send(w, None, KeyMessage(w, c, k));
    assert sin + [] == sin;
    ServerDirect(w, c, s, k, []);
    HonestClient(w, c, s, k);
  }

  // The announcement read, the trusted key's check passed: what is left is the last exchange.
  lemma TrustedFinish(w: World, c: Client, id: seq<byte>, pk: Key, rest: seq<byte>, input: seq<byte>)
    requires Next(w, None, input, CLIENT_MAX) == Some((SignedId(id), rest, None)) && Trusted(c).Some?
    requires VerifiedSessionPk(w, id, Trusted(c).value, c.target) == SessionKey(pk)
    ensures RunClient(w, c, input, CLIENT_MAX) == FinishClient(w, c, [], Trusted(c), Some(pk), rest, CLIENT_MAX)
  {
  }

  lemma HonestClient(w: World, c: Client, s: Server, k: Option<Key>)
    requires Lawful(w) && UnsignedRejected(w, s) && ShortMessages(w, c, s) && Trusted(c).Some?
    requires k == Some(w.public(s.eph))
    requires VerifiedSessionPk(w, Announcement(w, s), Trusted(c).value, c.target).SessionKey?
    ensures RunClient(w, c, Hello(w, s) + Send(w, HashKeys(c, k), HashMsg(s.hash)), CLIENT_MAX)
         == Secured([] + Send(w, None, KeyMessage(w, c, k)), Trusted(c), s.hash, Keyed(c.sym, 0, 1))
  {
    var hash := Send(w, HashKeys(c, k), HashMsg(s.hash));
    HonestReads(w, c, s, k, hash);
    assert hash + [] == hash;
    ClientReadsHash(w, c, s, [], Trusted(c), k, []);
  }

  lemma HonestReads(w: World, c: Client, s: Server, k: Option<Key>, rest: seq<byte>)
    requires Lawful(w) && UnsignedRejected(w, s) && ShortMessages(w, c, s) && Trusted(c).Some?
    requires k == Some(w.public(s.eph))
    requires VerifiedSessionPk(w, Announcement(w, s), Trusted(c).value, c.target).SessionKey?
    ensures RunClient(w, c, Hello(w, s) + rest, CLIENT_MAX) == FinishClient(w, c, [], Trusted(c), k, rest, CLIENT_MAX)
  {
    OnlySessionKey(w, s, Trusted(c).value, c.target);
    NextPlain(w, SignedId(Announcement(w, s)), rest, CLIENT_MAX);
    TrustedFinish(w, c, Announcement(w, s), k.value, rest, Hello(w, s) + rest);
  }

  // ----- pinning, against any peer at all -----

  // The announcement a client first reads, if that is what comes first.
  function FirstId(w: World, input: seq<byte>): Option<seq<byte>>
  {
    var n := Next(w, None, input, CLIENT_MAX);
    if n.Some? && n.value.0.SignedId? then Some(n.value.0.id) else None
  }

  // The peer announced itself under the relayed key.
  predicate RelayedChecksOut(w: World, c: Client, input: seq<byte>)
  {
    var id := FirstId(w, input);
    c.relayed.Some? && id.Some? && VerifiedSessionPk(w, id.value, c.relayed.value, c.target).SessionKey?
  }

  // A pinned key survives every handshake. Otherwise the relayed key is pinned exactly if the
  // first message is an announcement it verifies; nothing a peer supplies ever is.
  lemma PinRule(w: World, c: Client, input: seq<byte>)
    ensures RunClient(w, c, input, CLIENT_MAX).pin
         == if c.pinned.Some? then c.pinned else if RelayedChecksOut(w, c, input) then c.relayed else None
  {
    forall id, rest ensures OnSignedId(w, c, id, rest, CLIENT_MAX).pin == PinFor(w, c, id) {
      SignedPin(w, c, id, rest);
    }
  }

  function PinFor(w: World, c: Client, id: seq<byte>): Option<Key>
  {
    if c.pinned.Some? then c.pinned
    else if c.relayed.Some? && VerifiedSessionPk(w, id, c.relayed.value, c.target).SessionKey? then c.relayed else None
  }

  lemma SignedPin(w: World, c: Client, id: seq<byte>, input: seq<byte>)
    ensures OnSignedId(w, c, id, input, CLIENT_MAX).pin == PinFor(w, c, id)
  {
    forall out, pin, spk, rest ensures FinishClient(w, c, out, pin, spk, rest, CLIENT_MAX).pin == pin { }
    forall supplied, rest ensures OnSuppliedKey(w, c, id, supplied, rest, CLIENT_MAX).pin == None { }
  }

  // With a trusted key the only way to an open session is a Hash as the very first message.
  lemma OpenSession(w: World, c: Client, input: seq<byte>)
    requires Trusted(c).Some?
    ensures RunClient(w, c, input, CLIENT_MAX).Plain?
       <==> (var first := Next(w, None, input, CLIENT_MAX); first.Some? && first.value.0.HashMsg?)
  {
    forall out, pin, spk: Option<Key>, rest | spk.Some?
      ensures !FinishClient(w, c, out, pin, spk, rest, CLIENT_MAX).Plain?
    {
    }
  }

  // One attempt per element: what the signal server relayed, the randomness, and what came in.
  datatype Attempt = Attempt(relayed: Option<Key>, sk: Key, sym: Key, input: seq<byte>)

  function PinAfter(w: World, target: string, pin: Option<Key>, tries: seq<Attempt>): Option<Key>
  {
    if tries == [] then pin
    else
      var t := tries[|tries| - 1];
      var c := Client(target, PinAfter(w, target, pin, tries[..|tries| - 1]), t.relayed, t.sk, t.sym);
      RunClient(w, c, t.input, CLIENT_MAX).pin
  }

  lemma {:induction false} PinnedForever(w: World, target: string, pin: Key, tries: seq<Attempt>)
    ensures PinAfter(w, target, Some(pin), tries) == Some(pin)
  {
    if tries != [] {
      var t := tries[|tries| - 1];
      PinnedForever(w, target, pin, tries[..|tries| - 1]);
      PinRule(w, Client(target, Some(pin), t.relayed, t.sk, t.sym), t.input);
    }
  }

  type Check = Attempt -> bool

  // Whether an attempt's announcement was verified by its relayed key.
  function Checks(w: World, target: string): Check
  {
    (t: Attempt) => RelayedChecksOut(w, Client(target, None, t.relayed, t.sk, t.sym), t.input)
  }

  ghost predicate FirstToPass(ok: Check, tries: seq<Attempt>, i: int)
  {
    0 <= i < |tries| && ok(tries[i]) && forall j :: 0 <= j < i ==> !ok(tries[j])
  }

  // From nothing, the key pinned is the relayed one of the first attempt whose announcement it
  // verifies.
  lemma FirstPinned(w: World, target: string, tries: seq<Attempt>, pin: Key)
    ensures PinAfter(w, target, None, tries) == Some(pin)
       <==> exists i :: FirstToPass(Checks(w, target), tries, i) && tries[i].relayed == Some(pin)
  {
    PinIsFirst(w, target, tries);
    FirstIs(Checks(w, target), tries);
  }

  function FirstRelayed(ok: Check, tries: seq<Attempt>): Option<Key>
  {
    if tries == [] then None
    else
      var before := FirstRelayed(ok, tries[..|tries| - 1]);
      if before.Some? then before else if ok(tries[|tries| - 1]) then tries[|tries| - 1].relayed else None
  }

  lemma {:induction false} PinIsFirst(w: World, target: string, tries: seq<Attempt>)
    ensures PinAfter(w, target, None, tries) == FirstRelayed(Checks(w, target), tries)
  {
    if tries != [] {
      var n := |tries| - 1;
      PinIsFirst(w, target, tries[..n]);
      PinStep(w, target, PinAfter(w, target, None, tries[..n]), tries[n]);
    }
  }

  lemma PinStep(w: World, target: string, before: Option<Key>, t: Attempt)
    ensures RunClient(w, Client(target, before, t.relayed, t.sk, t.sym), t.input, CLIENT_MAX).pin
         == if before.Some? then before else if Checks(w, target)(t) then t.relayed else None
  {
    PinRule(w, Client(target, before, t.relayed, t.sk, t.sym), t.input);
  }

  lemma {:induction false} FirstIs(ok: Check, tries: seq<Attempt>)
    requires forall t :: ok(t) ==> t.relayed.Some?
    ensures FirstRelayed(ok, tries).None? <==> forall j :: 0 <= j < |tries| ==> !ok(tries[j])
    ensures forall i :: FirstToPass(ok, tries, i) ==> FirstRelayed(ok, tries) == tries[i].relayed
    ensures FirstRelayed(ok, tries).Some? ==> exists i :: FirstToPass(ok, tries, i)
  {
    if tries != [] {
      var n := |tries| - 1;
      FirstIs(ok, tries[..n]);
      assert forall j :: 0 <= j < n ==> tries[..n][j] == tries[j];
      forall i | 0 <= i < n ensures FirstToPass(ok, tries[..n], i) <==> FirstToPass(ok, tries, i) { }
      if FirstRelayed(ok, tries[..n]).Some? {
        var i :| FirstToPass(ok, tries[..n], i);
        assert FirstToPass(ok, tries, i);
      } else if ok(tries[n]) {
        assert FirstToPass(ok, tries, n);
      }
    }
  }

  // Without a relayed key nothing is ever pinned, whatever peers supply.
  lemma {:induction false} NeverPinsSupplied(w: World, target: string, tries: seq<Attempt>)
    requires forall i :: 0 <= i < |tries| ==> tries[i].relayed.None?
    ensures PinAfter(w, target, None, tries) == None
  {
    if tries != [] {
      var t := tries[|tries| - 1];
      NeverPinsSupplied(w, target, tries[..|tries| - 1]);
      PinRule(w, Client(target, None, None, t.sk, t.sym), t.input);
    }
  }
}
