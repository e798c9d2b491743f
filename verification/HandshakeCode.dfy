// The handshake halves as they run on a stream, step by step, against their specifications.

module HandshakeCode {
  import opened Wrappers
  import opened MachineInts
  import opened Frames
  import opened Secretbox
  import opened Channel
  import opened HandshakeSpec
  import opened HandshakeAgreement

  // The peer configuration files, as far as pinned keys go; saving may silently fail.
  class PinStore {
    var pins: map<string, Key>
    const writable: bool

    constructor (pins: map<string, Key>, writable: bool)
      ensures this.pins == pins && this.writable == writable
    {
      this.pins, this.writable := pins, writable;
    }

    function Load(target: string): Option<Key>
      reads this
    {
      if target in pins then Some(pins[target]) else None
    }

    method Pin(target: string, key: Key)
      modifies this
      ensures pins == if writable then old(pins)[target := key] else old(pins)
    {
      if writable {
        pins := pins[target := key];
      }
    }
  }

  ghost predicate Fits(w: World, m: Msg) { |w.encode(m)| < 0x1000_0000_0000_0000 }

  // Key messages and the request for a key encode to a length that can be counted.
  ghost predicate Sized(w: World)
  {
    && Fits(w, MiscMsg(ChatMessage("E")))
    && forall a: seq<byte>, s: seq<byte> :: |a| <= 32 && |s| <= 48 ==> Fits(w, PublicKey(a, s))
  }

  ghost predicate SizedServer(w: World, v: Server)
  {
    Fits(w, SignedId(Announcement(w, v))) && Fits(w, MiscMsg(InitialKeyResponse(v.signPk))) && Fits(w, HashMsg(v.hash))
  }

  ghost predicate Usable(s: FramedStream)
    reads s, s.encrypt
  {
    && s.maxFrameLen < 0x1000_0000_0000_0000
    && (s.encrypt != null ==> s.encrypt.sendSeq < TWO64 - 1 && s.encrypt.recvSeq < TWO64 - 1)
  }

  method SendM(w: World, s: FramedStream, m: Msg)
    requires Fits(w, m) && Usable(s)
    modifies s`output, s.encrypt
    ensures s.output == old(s.output) + Send(w, old(s.Keys()), m) && s.Keys() == AfterSend(old(s.Keys()))
  {
    s.SendMsg(w.cipher, w.encode(m));
  }

  method RecvM(w: World, s: FramedStream) returns (r: Option<Msg>)
    requires Usable(s)
    modifies s`input, s.encrypt
    ensures s.encrypt == old(s.encrypt)
    ensures Next(w, old(s.Keys()), old(s.input), s.maxFrameLen)
         == if r.None? then None else Some((r.value, s.input, s.Keys()))
  {
    var data := s.RecvMsg(w.cipher);
    match data
    case Err(_) => r := None;
    case Ok(bytes) => r := w.decode(bytes);
  }

  datatype Outcome = Refused | Accepted(hash: Hash, secured: bool)

  // The method's result, output, keys and pins are those of the specified run.
  ghost predicate Ends(e: ClientEnd, r: Outcome, out: seq<byte>, keys: Option<Keyed>)
  {
    && out == e.out && r == Result(e)
    && (e.Secured? ==> keys == Some(e.keys)) && (e.Plain? ==> keys == None)
  }

  function Result(e: ClientEnd): Outcome { if e.Failed? then Refused else Accepted(e.hash, e.Secured?) }

  method SendKeyAndReadHash(w: World, s: FramedStream, ghost c: Client, ghost pin: Option<Key>, serverPk: Option<Key>,
                            sk: Key, sym: Key)
    returns (r: Outcome)
    requires Sized(w) && Usable(s) && s.encrypt == null && c.sk == sk && c.sym == sym
    modifies s`input, s`output, s`encrypt
    ensures Ends(FinishClient(w, c, old(s.output), pin, serverPk, old(s.input), s.maxFrameLen), r, s.output, s.Keys())
  {
    if serverPk.Some? {
      var sealed := SecretboxSeal(w.cipher, w.shared(sk, serverPk.value), NoNonce(), sym);
      SendM(w, s, PublicKey(w.public(sk), sealed));
      s.SetKey(sym);
    } else {
      SendM(w, s, PublicKey([], []));
    }
    var m := RecvM(w, s);
    match m
    case Some(HashMsg(h)) => r := Accepted(h, serverPk.Some?);
    case _ => r := Refused;
  }

  // Some(None) is an answer without a usable key, None a stream that ended.
  method RequestPeerSuppliedSignPk(w: World, s: FramedStream) returns (answer: Option<Option<Key>>)
    requires Sized(w) && Usable(s) && s.encrypt == null
    modifies s`input, s`output
    ensures s.output == old(s.output) + Ask(w)
    ensures Answered(Next(w, None, old(s.input), s.maxFrameLen), answer, s.input)
  {
    SendM(w, s, MiscMsg(ChatMessage("E")));
    var m := RecvM(w, s);
    if m.None? { return None; }
    answer := Some(None);
    match m.value
    case MiscMsg(InitialKeyResponse(k)) => if |k| == 32 { answer := Some(Some(k)); }
    case _ =>
  }

  // The peer's answer decides whether there is a session key; a key that does not belong to the
  // signed identity is fatal, an identity that is not the target's only costs the encryption.
  method UseSupplied(w: World, s: FramedStream, ghost c: Client, id: seq<byte>, supplied: Option<Key>, target: string,
                     sk: Key, sym: Key)
    returns (r: Outcome)
    requires Sized(w) && Usable(s) && s.encrypt == null && s.output == Ask(w) && c.target == target && c.sk == sk
    requires c.sym == sym
    modifies s`input, s`output, s`encrypt
    ensures Ends(OnSuppliedKey(w, c, id, supplied, old(s.input), s.maxFrameLen), r, s.output, s.Keys())
  {
    var serverPk: Option<Key> := None;
    if supplied.Some? {
      var v := VerifiedSessionPk(w, id, supplied.value, target);
      if v.BadSignature? { return Refused; }
      if v.SessionKey? { serverPk := Some(v.pk); }
    }
    assert OnSuppliedKey(w, c, id, supplied, s.input, s.maxFrameLen)
        == FinishClient(w, c, s.output, None, serverPk, s.input, s.maxFrameLen);
    r := SendKeyAndReadHash(w, s, c, None, serverPk, sk, sym);
  }

  ghost predicate Answered(next: Option<(Msg, seq<byte>, Option<Keyed>)>, answer: Option<Option<Key>>, rest: seq<byte>)
  {
    if next.None? then answer == None else answer == Some(SuppliedKey(next.value.0)) && rest == next.value.1
  }

  lemma AskPeerAnswered(w: World, c: Client, id: seq<byte>, input: seq<byte>, max: nat, answer: Option<Option<Key>>,
                        rest: seq<byte>)
    requires Answered(Next(w, None, input, max), answer, rest)
    ensures AskPeer(w, c, id, input, max)
         == if answer.None? then Failed(Ask(w), None) else OnSuppliedKey(w, c, id, answer.value, rest, max)
  {
  }

  method AskThePeer(w: World, s: FramedStream, ghost c: Client, id: seq<byte>, target: string, sk: Key, sym: Key)
    returns (r: Outcome)
    requires Sized(w) && Usable(s) && s.encrypt == null && s.output == [] && c.target == target && c.sk == sk
    requires c.sym == sym
    modifies s`input, s`output, s`encrypt
    ensures Ends(AskPeer(w, c, id, old(s.input), s.maxFrameLen), r, s.output, s.Keys())
  {
    ghost var input := s.input;
    assert [] + Ask(w) == Ask(w);
    var answer := RequestPeerSuppliedSignPk(w, s);
    AskPeerAnswered(w, c, id, input, s.maxFrameLen, answer, s.input);
    if answer.None? { return Refused; }
    r := UseSupplied(w, s, c, id, answer.value, target, sk, sym);
  }

  // A stored key decides alone; a relayed key is pinned once it checks out.
  method CheckSignedId(w: World, s: FramedStream, store: PinStore, ghost c: Client, id: seq<byte>, target: string,
                       relayed: Option<Key>, sk: Key, sym: Key)
    returns (r: Outcome)
    requires Sized(w) && Usable(s) && s.encrypt == null && s.output == []
    requires c == Client(target, store.Load(target), relayed, sk, sym)
    modifies s`input, s`output, s`encrypt, store
    ensures Ends(OnSignedId(w, c, id, old(s.input), s.maxFrameLen), r, s.output, s.Keys())
    ensures store.pins
         == AfterPin(store, old(store.pins), target, OnSignedId(w, c, id, old(s.input), s.maxFrameLen).pin)
  {
    var pinned := store.Load(target);
    ghost var max := s.maxFrameLen;
    if pinned.Some? {
      var v := VerifiedSessionPk(w, id, pinned.value, target);
      if !v.SessionKey? { return Refused; }
      FinishPin(w, c, [], pinned, Some(v.pk), s.input, max);
      r := SendKeyAndReadHash(w, s, c, pinned, Some(v.pk), sk, sym);
    } else if relayed.Some? {
      var v := VerifiedSessionPk(w, id, relayed.value, target);
      if !v.SessionKey? { return Refused; }
      store.Pin(target, relayed.value);
      FinishPin(w, c, [], relayed, Some(v.pk), s.input, max);
      r := SendKeyAndReadHash(w, s, c, relayed, Some(v.pk), sk, sym);
    } else {
      AskPeerPin(w, c, id, s.input, max);
      r := AskThePeer(w, s, c, id, target, sk, sym);
    }
  }

  // The stored keys once a run has settled on this pin for the target.
  ghost function AfterPin(store: PinStore, pins: map<string, Key>, target: string, pin: Option<Key>): map<string, Key>
  {
    if store.writable && pin.Some? then pins[target := pin.value] else pins
  }

  lemma FinishPin(w: World, c: Client, out: seq<byte>, pin: Option<Key>, spk: Option<Key>, input: seq<byte>, max: nat)
    ensures FinishClient(w, c, out, pin, spk, input, max).pin == pin
  {
  }

  lemma AskPeerPin(w: World, c: Client, id: seq<byte>, input: seq<byte>, max: nat)
    ensures AskPeer(w, c, id, input, max).pin == None
  {
  }

  method ClientHandshake(w: World, s: FramedStream, store: PinStore, target: string, relayed: Option<Key>, sk: Key,
                         sym: Key)
    returns (r: Outcome)
    requires Sized(w) && Usable(s) && s.encrypt == null && s.output == []
    modifies s`input, s`output, s`encrypt, store
    ensures var c := Client(target, old(store.Load(target)), relayed, sk, sym);
            var e := RunClient(w, c, old(s.input), s.maxFrameLen);
            Ends(e, r, s.output, s.Keys()) && store.pins == AfterPin(store, old(store.pins), target, e.pin)
  {
    ghost var c := Client(target, store.Load(target), relayed, sk, sym);
    assert store.pins == AfterPin(store, store.pins, target, c.pinned);
    var m := RecvM(w, s);
    match m
    case Some(HashMsg(h)) => r := Accepted(h, false);
    case Some(SignedId(id)) => r := CheckSignedId(w, s, store, c, id, target, relayed, sk, sym);
    case _ => r := Refused;
  }

  // ----- the server half, up to and including the Hash -----

  method TrySetupEncryption(w: World, s: FramedStream, v: Server, m: Msg)
    requires m.PublicKey? && s.encrypt == null && |m.symmetric| < 0x1000_0000_0000_0000
    modifies s`encrypt
    ensures s.Keys() == TrySetup(w, v, m) && (s.encrypt != null ==> fresh(s.encrypt))
  {
    if |m.asymmetric| == 32 && m.symmetric != [] {
      var key := SecretboxOpen(w.cipher, w.shared(v.eph, m.asymmetric), NoNonce(), m.symmetric);
      if key.Some? && |key.value| == 32 {
        s.SetKey(key.value);
      }
    }
  }

  // Key messages that arrive are no longer than the frame that carried them.
  ghost predicate Compact(w: World)
  {
    forall b :: w.decode(b).Some? && w.decode(b).value.PublicKey? ==> |w.decode(b).value.symmetric| <= |b|
  }

  lemma ReceivedLength(w: World, e: Option<Keyed>, input: seq<byte>, maxLen: nat)
    requires Compact(w)
    ensures var n := Next(w, e, input, maxLen);
            n.Some? && n.value.0.PublicKey? ==> |n.value.0.symmetric| <= maxLen
  {
    var (r, rest) := ReadFrame(input, maxLen);
    if r.Ok? && e.Some? {
      var o := Open(w.cipher, e.value.key, NonceAt(e.value.recvSeq + 1), r.value);
      if o.Some? { OpenIffSealed(w.cipher, e.value.key, NonceAt(e.value.recvSeq + 1), r.value, o.value); }
    }
  }

  method ServerHandshake(w: World, s: FramedStream, v: Server) returns (ok: bool)
    requires SizedServer(w, v) && Compact(w) && Usable(s) && s.encrypt == null && s.output == []
    modifies s
    ensures s.maxFrameLen == SERVER_MAX
    ensures match RunServer(w, v, old(s.input), SERVER_MAX) {
              case Aborted(out) => !ok && s.output == out
              case Ready(out, keys) => ok && s.output == out && s.Keys() == keys
            }
  {
    s.maxFrameLen := SERVER_MAX;
    ghost var input := s.input;
    assert [] + Hello(w, v) == Hello(w, v);
    SendM(w, s, SignedId(Announcement(w, v)));
    ReceivedLength(w, None, s.input, SERVER_MAX);
    var m := RecvM(w, s);
    if m.None? { return false; }
    match m.value {
      case PublicKey(_, _) => TrySetupEncryption(w, s, v, m.value);
      case MiscMsg(_) =>
        SendM(w, s, MiscMsg(InitialKeyResponse(v.signPk)));
        ReceivedLength(w, None, s.input, SERVER_MAX);
        var m2 := RecvM(w, s);
        if m2.None? { return false; }
        if m2.value.PublicKey? {
          TrySetupEncryption(w, s, v, m2.value);
        }
      case _ =>
    }
    SendM(w, s, HashMsg(v.hash));
    ok := true;
  }
}
