// src/network.rs: Encrypt, FramedStream, and whole runs of the keyed two-way channel.

module Channel {
  import opened Wrappers
  import opened MachineInts
  import opened Radix
  import opened Frames
  import opened Secretbox

  // The 64-bit counter in little-endian, then sixteen zero bytes.
  function NonceAt(n: nat): Nonce { Spell(0x100, 8, n) + seq(16, _ => 0) }

  lemma NoncesDistinct(m: nat, n: nat)
    requires m < TWO64 && n < TWO64 && NonceAt(m) == NonceAt(n)
    ensures m == n
  {
    assert NonceAt(m)[..8] == Spell(0x100, 8, m) && NonceAt(n)[..8] == Spell(0x100, 8, n);
    assert Pow(0x100, 8) == TWO64 by {
      assert Pow(0x100, 2) == 0x1_0000;
      PowAdd(0x100, 2, 2);
      PowAdd(0x100, 4, 4);
    }
    SpellValue(0x100, 8, m);
    SpellValue(0x100, 8, n);
  }

  datatype Keyed = Keyed(key: Key, sendSeq: nat, recvSeq: nat)

  // ----- what sending and receiving do to the byte streams -----

  function Payload(c: Cipher, e: Option<Keyed>, data: seq<byte>): seq<byte>
  {
    match e
    case None => data
    case Some(k) => Seal(c, k.key, NonceAt(k.sendSeq + 1), data)
  }

  function AfterSend(e: Option<Keyed>): Option<Keyed>
  {
    match e
    case None => None
    case Some(k) => Some(k.(sendSeq := k.sendSeq + 1))
  }

  datatype Received = Received(result: Result<seq<byte>>, rest: seq<byte>, keys: Option<Keyed>)

  function Unwrap(c: Cipher, e: Option<Keyed>, raw: seq<byte>): (Result<seq<byte>>, Option<Keyed>)
  {
    match e
    case None => (Ok(raw), None)
    case Some(k) =>
      var k' := Some(k.(recvSeq := k.recvSeq + 1));
      match Open(c, k.key, NonceAt(k.recvSeq + 1), raw)
      case None => (Err(DecryptionError), k')
      case Some(p) => (Ok(p), k')
  }

  function Receive(c: Cipher, e: Option<Keyed>, input: seq<byte>, maxLen: nat): Received
  {
    var (r, rest) := ReadFrame(input, maxLen);
    match r
    case Err(_) => Received(r, rest, e)
    case Ok(raw) => var (m, e') := Unwrap(c, e, raw); Received(m, rest, e')
  }

  // ----- the classes -----

  class Encrypt {
    const key: Key
    var sendSeq: u64
    var recvSeq: u64

    constructor (key: Key)
      ensures this.key == key && sendSeq == 0 && recvSeq == 0
    {
      this.key, sendSeq, recvSeq := key, 0, 0;
    }

    function Keys(): Keyed
      reads this
    {
      Keyed(key, sendSeq, recvSeq)
    }

    method Enc(c: Cipher, data: seq<byte>) returns (out: seq<byte>)
      requires sendSeq < TWO64 - 1 && 32 + |data| < TWO64
      modifies this`sendSeq
      ensures out == Payload(c, Some(old(Keys())), data) && Some(Keys()) == AfterSend(Some(old(Keys())))
    {
      sendSeq := sendSeq + 1;
      out := SecretboxSeal(c, key, NonceAt(sendSeq), data);
    }

    method Dec(c: Cipher, data: seq<byte>) returns (r: Result<seq<byte>>)
      requires recvSeq < TWO64 - 1 && 32 + |data| < TWO64
      modifies this`recvSeq
      ensures (r, Some(Keys())) == Unwrap(c, Some(old(Keys())), data)
    {
      recvSeq := recvSeq + 1;
      var p := SecretboxOpen(c, key, NonceAt(recvSeq), data);
      r := match p case None => Err(DecryptionError) case Some(v) => Ok(v);
    }
  }

  class FramedStream {
    var input: seq<byte>    // received from the socket, not yet read
    var output: seq<byte>   // written to the socket
    var encrypt: Encrypt?
    var maxFrameLen: nat

    constructor (received: seq<byte>, maxLen: nat)
      ensures input == received && output == [] && encrypt == null && maxFrameLen == maxLen
    {
      input, output, encrypt, maxFrameLen := received, [], null, maxLen;
    }

    function Keys(): Option<Keyed>
      reads this, encrypt
    {
      if encrypt == null then None else Some(encrypt.Keys())
    }

    method SetKey(key: Key)
      modifies this`encrypt
      ensures Keys() == Some(Keyed(key, 0, 0)) && fresh(encrypt)
    {
      encrypt := new Encrypt(key);
    }

    method SendMsg(c: Cipher, data: seq<byte>)
      requires 32 + |data| < TWO64 && (encrypt != null ==> encrypt.sendSeq < TWO64 - 1)
      modifies this`output, encrypt
      ensures output == old(output) + Frame(Payload(c, old(Keys()), data)) && Keys() == AfterSend(old(Keys()))
    {
      var payload;
      if encrypt != null {
        payload := encrypt.Enc(c, data);
      } else {
        payload := data;
      }
      output := EncodeFrame(payload, output);
    }

    method ReadExact(n: nat) returns (r: Result<seq<byte>>)
      modifies this`input
      ensures |old(input)| >= n ==> r == Ok(old(input)[..n]) && input == old(input)[n..]
      ensures |old(input)| < n ==> r == Err(UnexpectedEof) && input == []
    {
      if |input| < n {
        input := [];
        return Err(UnexpectedEof);
      }
      r := Ok(input[..n]);
      input := input[n..];
    }

    // One byte, which says how many more.
    method ReadHeader() returns (r: Result<seq<byte>>)
      modifies this`input
      ensures old(input) == [] || |old(input)| < HeadLen(old(input)[0]) ==> r == Err(UnexpectedEof) && input == []
      ensures old(input) != [] && |old(input)| >= HeadLen(old(input)[0]) ==>
                r == Ok(old(input)[..HeadLen(old(input)[0])]) && input == old(input)[HeadLen(old(input)[0])..]
    {
      ghost var all := input;
      r := ReadExact(1);
      if r.Err? { return; }
      var header := r.value;
      var headLen := HeadLen(header[0]);
      if headLen > 1 {
        r := ReadExact(headLen - 1);
        if r.Err? { return; }
        header := header + r.value;
      }
      assert header == all[..headLen] && input == all[headLen..];
      r := Ok(header);
    }

    method NextFrame() returns (r: Result<seq<byte>>)
      modifies this`input
      ensures (r, input) == ReadFrame(old(input), maxFrameLen)
    {
      ghost var all := input;
      r := ReadHeader();
      if r.Err? { return; }
      ghost var headLen := HeadLen(all[0]);
      var n := HeadNumber(r.value);
      n := n / 4;
      if n > maxFrameLen {
        return Err(FrameTooLarge);
      }
      r := ReadExact(n);
      assert r.Ok? ==> r.value == all[headLen..headLen + n] && input == all[headLen + n..];
    }

    method RecvMsg(c: Cipher) returns (r: Result<seq<byte>>)
      requires maxFrameLen + 32 < TWO64 && (encrypt != null ==> encrypt.recvSeq < TWO64 - 1)
      modifies this`input, encrypt
      ensures Received(r, input, Keys()) == Receive(c, old(Keys()), old(input), maxFrameLen)
      ensures encrypt == old(encrypt)
    {
      r := NextFrame();
      if r.Err? { return; }
      if encrypt != null {
        r := encrypt.Dec(c, r.value);
      }
    }
  }

  // ----- whole runs of two keyed ends -----

  datatype Side = Side(keys: Keyed, sent: seq<seq<byte>>, got: seq<seq<byte>>)
  datatype Duplex = Duplex(a: Side, b: Side, toB: seq<byte>, toA: seq<byte>) | Broken

  datatype Action = SendA(m: seq<byte>) | SendB(m: seq<byte>) | RecvA | RecvB

  function Start(key: Key): Duplex
  {
    var side := Side(Keyed(key, 0, 0), [], []);
    Duplex(side, side, [], [])
  }

  function SendSide(c: Cipher, s: Side, wire: seq<byte>, m: seq<byte>): (Side, seq<byte>)
  {
    (s.(keys := s.keys.(sendSeq := s.keys.sendSeq + 1), sent := s.sent + [m]), wire
      + Packet(c, s.keys.key)(s.keys.sendSeq + 1, m))
  }

  // A receiver with nothing buffered waits; otherwise it takes one frame, or its read fails.
  function RecvSide(c: Cipher, s: Side, wire: seq<byte>, maxLen: nat): Option<(Side, seq<byte>)>
  {
    if wire == [] then Some((s, wire))
    else
      var r := Receive(c, Some(s.keys), wire, maxLen);
      if r.result.Err? || r.keys.None? then None
      else Some((s.(keys := r.keys.value, got := s.got + [r.result.value]), r.rest))
  }

  function Step(c: Cipher, maxLen: nat, d: Duplex, act: Action): Duplex
  {
    if d.Broken? then Broken
    else
      match act
      case SendA(m) => var (s, w) := SendSide(c, d.a, d.toB, m); d.(a := s, toB := w)
      case SendB(m) => var (s, w) := SendSide(c, d.b, d.toA, m); d.(b := s, toA := w)
      case RecvB => (match RecvSide(c, d.b, d.toB, maxLen) case None => Broken case Some(p) => d.(b := p.0, toB := p.1))
      case RecvA => (match RecvSide(c, d.a, d.toA, maxLen) case None => Broken case Some(p) => d.(a := p.0, toA := p.1))
  }

  function Run(c: Cipher, maxLen: nat, key: Key, acts: seq<Action>): Duplex
  {
    if acts == [] then Start(key) else Step(c, maxLen, Run(c, maxLen, key, acts[..|acts| - 1]), acts[|acts| - 1])
  }

  type Packer = (nat, seq<byte>) -> seq<byte>

  // The frame that carries message m under counter n.
  function Packet(c: Cipher, key: Key): Packer
  {
    (n: nat, m: seq<byte>) => Frame(Seal(c, key, NonceAt(n), m))
  }

  // The bytes of messages sent under consecutive counters from first + 1.
  function Wire(p: Packer, first: nat, msgs: seq<seq<byte>>): seq<byte>
    decreases |msgs|
  {
    if msgs == [] then [] else p(first + 1, msgs[0]) + Wire(p, first + 1, msgs[1..])
  }

  lemma {:induction false} WireSnoc(p: Packer, first: nat, msgs: seq<seq<byte>>, m: seq<byte>)
    ensures Wire(p, first, msgs + [m]) == Wire(p, first, msgs) + p(first + |msgs| + 1, m)
    decreases |msgs|
  {
    if msgs == [] {
      assert [m][1..] == [] && [] + [m] == [m];
    } else {
      WireSnoc(p, first + 1, msgs[1..], m);
      assert (msgs + [m])[1..] == msgs[1..] + [m];
    }
  }

  lemma WireHead(p: Packer, msgs: seq<seq<byte>>, n: nat)
    requires n < |msgs|
    ensures Wire(p, n, msgs[n..]) == p(n + 1, msgs[n]) + Wire(p, n + 1, msgs[n + 1..])
  {
    assert msgs[n..][1..] == msgs[n + 1..];
  }

  // One direction: what is on the wire is what was sent and not yet received.
  ghost predicate InFlight(p: Packer, sent: seq<seq<byte>>, got: seq<seq<byte>>, wire: seq<byte>)
  {
    && |got| <= |sent| && got == sent[..|got|]
    && wire == Wire(p, |got|, sent[|got|..])
  }

  lemma InFlightSend(p: Packer, sent: seq<seq<byte>>, got: seq<seq<byte>>, wire: seq<byte>, m: seq<byte>)
    requires InFlight(p, sent, got, wire)
    ensures InFlight(p, sent + [m], got, wire + p(|sent| + 1, m))
  {
    var n := |got|;
    assert (sent + [m])[n..] == sent[n..] + [m];
    assert (sent + [m])[..n] == sent[..n];
    WireSnoc(p, n, sent[n..], m);
  }

  lemma InFlightRecv(p: Packer, sent: seq<seq<byte>>, got: seq<seq<byte>>, wire: seq<byte>)
    requires InFlight(p, sent, got, wire) && |got| < |sent|
    ensures var n := |got|; var rest := Wire(p, n + 1, sent[n + 1..]);
            wire == p(n + 1, sent[n]) + rest && InFlight(p, sent, got + [sent[n]], rest)
  {
    WireHead(p, sent, |got|);
    assert sent[..|got| + 1] == sent[..|got|] + [sent[|got|]];
  }

  // And the counters say how many were sent and received.
  ghost predicate Linked(c: Cipher, key: Key, sender: Side, receiver: Side, wire: seq<byte>)
  {
    && sender.keys.key == key && receiver.keys.key == key
    && sender.keys.sendSeq == |sender.sent| && receiver.keys.recvSeq == |receiver.got|
    && InFlight(Packet(c, key), sender.sent, receiver.got, wire)
  }

  // A packet is what SendMsg writes for a keyed end.
  lemma PacketIsSent(c: Cipher, k: Keyed, m: seq<byte>)
    ensures Packet(c, k.key)(k.sendSeq + 1, m) == Frame(Payload(c, Some(k), m))
    ensures AfterSend(Some(k)) == Some(k.(sendSeq := k.sendSeq + 1))
  {
  }

  lemma SendKeepsLink(c: Cipher, key: Key, s: Side, r: Side, wire: seq<byte>, m: seq<byte>)
    requires Linked(c, key, s, r, wire)
    ensures var (s', w') := SendSide(c, s, wire, m); Linked(c, key, s', r, w')
  {
    InFlightSend(Packet(c, key), s.sent, r.got, wire, m);
    assert SendSide(c, s, wire, m).1 == wire + Packet(c, key)(|s.sent| + 1, m);
  }

  // The next frame on the wire opens to the next message.
  lemma NextFrame(c: Cipher, k: Keyed, m: seq<byte>, rest: seq<byte>, maxLen: nat)
    requires 16 + |m| <= maxLen <= LONGEST
    ensures Packet(c, k.key)(k.recvSeq + 1, m) + rest != []
    ensures Receive(c, Some(k), Packet(c, k.key)(k.recvSeq + 1, m) + rest, maxLen)
         == Received(Ok(m), rest, Some(k.(recvSeq := k.recvSeq + 1)))
  {
    var nonce := NonceAt(k.recvSeq + 1);
    var sealed := Seal(c, k.key, nonce, m);
    FrameComes(sealed, rest);
    FrameRoundTrip(sealed, rest, maxLen);
    OpenIffSealed(c, k.key, nonce, sealed, m);
    FrameOpens(c, k, Frame(sealed) + rest, maxLen, sealed, rest, m);
  }

  lemma FrameComes(data: seq<byte>, rest: seq<byte>)
    requires |data| <= LONGEST
    ensures Frame(data) + rest != []
  {
    HeaderDecodes(|data|);
  }

  lemma FrameOpens(c: Cipher, k: Keyed, input: seq<byte>, maxLen: nat, raw: seq<byte>, rest: seq<byte>, m: seq<byte>)
    requires ReadFrame(input, maxLen) == (Ok(raw), rest) && Open(c, k.key, NonceAt(k.recvSeq + 1), raw) == Some(m)
    ensures Receive(c, Some(k), input, maxLen) == Received(Ok(m), rest, Some(k.(recvSeq := k.recvSeq + 1)))
  {
  }

  lemma RecvKeepsLink(c: Cipher, key: Key, s: Side, r: Side, wire: seq<byte>, maxLen: nat)
    requires Linked(c, key, s, r, wire) && maxLen <= LONGEST
    requires Fits(s, maxLen)
    ensures var o := RecvSide(c, r, wire, maxLen);
            && o.Some? && Linked(c, key, s, o.value.0, o.value.1)
            && o.value.0.sent == r.sent && o.value.0.keys.sendSeq == r.keys.sendSeq
            && (|r.got| < |s.sent| ==> o.value.0.got == r.got + [s.sent[|r.got|]])
            && (|r.got| == |s.sent| ==> o.value.0 == r)
  {
    var n := |r.got|;
    if n < |s.sent| {
      InFlightRecv(Packet(c, key), s.sent, r.got, wire);
      NextFrame(c, r.keys, s.sent[n], Wire(Packet(c, key), n + 1, s.sent[n + 1..]), maxLen);
    }
  }

  ghost predicate Fits(s: Side, maxLen: nat) { forall i :: 0 <= i < |s.sent| ==> 16 + |s.sent[i]| <= maxLen }

  ghost predicate Paired(c: Cipher, key: Key, maxLen: nat, s: Side, r: Side, there: seq<byte>, back: seq<byte>)
  {
    Linked(c, key, s, r, there) && Linked(c, key, r, s, back) && Fits(s, maxLen) && Fits(r, maxLen)
  }

  ghost predicate Good(c: Cipher, key: Key, maxLen: nat, d: Duplex)
  {
    d.Duplex? && Paired(c, key, maxLen, d.a, d.b, d.toB, d.toA)
  }

  lemma SendPaired(c: Cipher, key: Key, maxLen: nat, s: Side, r: Side, there: seq<byte>, back: seq<byte>, m: seq<byte>)
    requires Paired(c, key, maxLen, s, r, there, back) && 16 + |m| <= maxLen
    ensures var (s', w) := SendSide(c, s, there, m); Paired(c, key, maxLen, s', r, w, back)
  {
    SendKeepsLink(c, key, s, r, there, m);
  }

  lemma RecvPaired(c: Cipher, key: Key, maxLen: nat, s: Side, r: Side, there: seq<byte>, back: seq<byte>)
    requires Paired(c, key, maxLen, s, r, there, back) && maxLen <= LONGEST
    ensures var o := RecvSide(c, r, there, maxLen); o.Some? && Paired(c, key, maxLen, s, o.value.0, o.value.1, back)
  {
    RecvKeepsLink(c, key, s, r, there, maxLen);
  }

  lemma StepGood(c: Cipher, key: Key, maxLen: nat, d: Duplex, act: Action)
    requires Good(c, key, maxLen, d) && maxLen <= LONGEST
    requires (act.SendA? || act.SendB?) ==> 16 + |act.m| <= maxLen
    ensures Good(c, key, maxLen, Step(c, maxLen, d, act))
  {
    match act
    case SendA(m) => SendPaired(c, key, maxLen, d.a, d.b, d.toB, d.toA, m);
    case SendB(m) => SendPaired(c, key, maxLen, d.b, d.a, d.toA, d.toB, m);
    case RecvB => RecvPaired(c, key, maxLen, d.a, d.b, d.toB, d.toA);
    case RecvA => RecvPaired(c, key, maxLen, d.b, d.a, d.toA, d.toB);
  }

  // Over every interleaving of sends and receives at both ends: nothing breaks, each end has
  // received a prefix of what the other sent, and the counters match what is still in flight.
  lemma {:induction false} ChannelSafe(c: Cipher, key: Key, maxLen: nat, acts: seq<Action>)
    requires maxLen <= LONGEST
    requires forall i :: 0 <= i < |acts| && (acts[i].SendA? || acts[i].SendB?) ==> 16 + |acts[i].m| <= maxLen
    ensures Good(c, key, maxLen, Run(c, maxLen, key, acts))
  {
    if acts != [] {
      ChannelSafe(c, key, maxLen, acts[..|acts| - 1]);
      StepGood(c, key, maxLen, Run(c, maxLen, key, acts[..|acts| - 1]), acts[|acts| - 1]);
    }
  }

  // In particular, once the wire is drained everything sent has arrived, in order.
  lemma DrainedDelivers(c: Cipher, key: Key, maxLen: nat, acts: seq<Action>)
    requires maxLen <= LONGEST
    requires forall i :: 0 <= i < |acts| && (acts[i].SendA? || acts[i].SendB?) ==> 16 + |acts[i].m| <= maxLen
    ensures var d := Run(c, maxLen, key, acts);
            d.Duplex? && (d.toB == [] ==> d.b.got == d.a.sent && d.a.keys.sendSeq == d.b.keys.recvSeq)
            && (d.toA == [] ==> d.a.got == d.b.sent && d.b.keys.sendSeq == d.a.keys.recvSeq)
  {
    ChannelSafe(c, key, maxLen, acts);
    var d := Run(c, maxLen, key, acts);
    if d.toB == [] { EmptyWire(c, key, maxLen, d.a, d.b); }
    if d.toA == [] { EmptyWire(c, key, maxLen, d.b, d.a); }
  }

  lemma EmptyWire(c: Cipher, key: Key, maxLen: nat, s: Side, r: Side)
    requires maxLen <= LONGEST && Linked(c, key, s, r, [])
    requires Fits(s, maxLen)
    ensures r.got == s.sent
  {
    var n := |r.got|;
    if n < |s.sent| {
      NextFrame(c, r.keys, s.sent[n], Wire(Packet(c, key), n + 1, s.sent[n + 1..]), maxLen);
      InFlightRecv(Packet(c, key), s.sent, r.got, []);
    }
    assert s.sent[..|s.sent|] == s.sent;
  }

  // ----- the nonces of a run -----

  predicate Sending(act: Action, byA: bool) { if byA then act.SendA? else act.SendB? }

  // Packets one end has sent.
  function Sends(acts: seq<Action>, byA: bool): nat
  {
    if acts == [] then 0 else Sends(acts[..|acts| - 1], byA) + (if Sending(acts[|acts| - 1], byA) then 1 else 0)
  }

  // Both ends use key, and have sent so many packets.
  ghost predicate Counts(key: Key, d: Duplex, fromA: nat, fromB: nat)
  {
    d.Duplex? && d.a.keys.sendSeq == fromA && d.b.keys.sendSeq == fromB && d.a.keys.key == key && d.b.keys.key == key
  }

  lemma RecvCounts(c: Cipher, s: Side, wire: seq<byte>, maxLen: nat)
    ensures var o := RecvSide(c, s, wire, maxLen);
            o.Some? ==> o.value.0.keys.sendSeq == s.keys.sendSeq && o.value.0.keys.key == s.keys.key
  {
  }

  lemma StepCounts(c: Cipher, key: Key, maxLen: nat, d: Duplex, act: Action, fromA: nat, fromB: nat)
    requires Counts(key, d, fromA, fromB)
    ensures var d' := Step(c, maxLen, d, act);
            d'.Duplex? ==> Counts(key, d', fromA + (if act.SendA? then 1 else 0), fromB + (if act.SendB? then 1 else 0))
  {
    match act
    case SendA(m) =>
    case SendB(m) =>
    case RecvB => RecvCounts(c, d.b, d.toB, maxLen);
    case RecvA => RecvCounts(c, d.a, d.toA, maxLen);
  }

  lemma {:induction false} CountersAreSends(c: Cipher, key: Key, maxLen: nat, acts: seq<Action>)
    ensures var d := Run(c, maxLen, key, acts); d.Duplex? ==> Counts(key, d, Sends(acts, true), Sends(acts, false))
  {
    if acts != [] {
      var n := |acts| - 1;
      CountersAreSends(c, key, maxLen, acts[..n]);
      var d := Run(c, maxLen, key, acts[..n]);
      if d.Duplex? { StepCounts(c, key, maxLen, d, acts[n], Sends(acts[..n], true), Sends(acts[..n], false)); }
    }
  }

  // The counter of the packet that step i sends, and with it the nonce.
  function NumberOf(acts: seq<Action>, i: nat): nat
    requires i < |acts|
  {
    Sends(acts[..i], acts[i].SendA?) + 1
  }

  function NonceOf(acts: seq<Action>, i: nat): Nonce
    requires i < |acts|
  {
    NonceAt(NumberOf(acts, i))
  }

  // The send a run makes next appends the packet of that number.
  lemma NumberAppended(c: Cipher, key: Key, maxLen: nat, acts: seq<Action>, i: nat, d: Duplex)
    requires i < |acts| && d.Duplex? && d == Run(c, maxLen, key, acts[..i])
    ensures acts[i].SendA? ==>
              SendSide(c, d.a, d.toB, acts[i].m).1 == d.toB + Packet(c, key)(NumberOf(acts, i), acts[i].m)
    ensures acts[i].SendB? ==>
              SendSide(c, d.b, d.toA, acts[i].m).1 == d.toA + Packet(c, key)(NumberOf(acts, i), acts[i].m)
  {
    CountersAreSends(c, key, maxLen, acts[..i]);
    NextAppends(c, key, acts[i], d, Sends(acts[..i], true), Sends(acts[..i], false), NumberOf(acts, i));
  }

  lemma NextAppends(c: Cipher, key: Key, act: Action, d: Duplex, fromA: nat, fromB: nat, n: nat)
    requires Counts(key, d, fromA, fromB) && n == (if act.SendA? then fromA else fromB) + 1
    ensures act.SendA? ==> SendSide(c, d.a, d.toB, act.m).1 == d.toB + Packet(c, key)(n, act.m)
    ensures act.SendB? ==> SendSide(c, d.b, d.toA, act.m).1 == d.toA + Packet(c, key)(n, act.m)
  {
    if act.SendA? { SendAppends(c, key, d.a, d.toB, act.m, n); }
    if act.SendB? { SendAppends(c, key, d.b, d.toA, act.m, n); }
  }

  lemma SendAppends(c: Cipher, key: Key, s: Side, wire: seq<byte>, m: seq<byte>, n: nat)
    requires s.keys.key == key && s.keys.sendSeq + 1 == n
    ensures SendSide(c, s, wire, m).1 == wire + Packet(c, key)(n, m)
  {
  }

  lemma {:induction false} SendsGrow(acts: seq<Action>, byA: bool, i: nat, j: nat)
    requires i <= j <= |acts|
    ensures Sends(acts[..i], byA) <= Sends(acts[..j], byA) <= j
    ensures i < j && Sending(acts[i], byA) ==> Sends(acts[..i], byA) < Sends(acts[..j], byA)
    decreases j
  {
    if i < j {
      SendsGrow(acts, byA, i, j - 1);
      assert acts[..j][..j - 1] == acts[..j - 1];
    } else if j > 0 {
      SendsGrow(acts, byA, j - 1, j - 1);
      assert acts[..j][..j - 1] == acts[..j - 1];
    }
  }

  // Both ends count from the same start under the same key: two packets of a run share their
  // nonce exactly if they come from different ends and are equally far on in their streams.
  lemma NoncesShared(acts: seq<Action>, i: nat, j: nat)
    requires i < j < |acts| < TWO64 && !acts[i].RecvA? && !acts[i].RecvB? && !acts[j].RecvA? && !acts[j].RecvB?
    ensures NonceOf(acts, i) == NonceOf(acts, j)
       <==> acts[i].SendA? != acts[j].SendA? && Sends(acts[..i], acts[i].SendA?) == Sends(acts[..j], acts[j].SendA?)
  {
    SendsGrow(acts, acts[i].SendA?, i, j);
    SendsGrow(acts, acts[j].SendA?, j, j);
    if NonceOf(acts, i) == NonceOf(acts, j) {
      NoncesDistinct(Sends(acts[..i], acts[i].SendA?) + 1, Sends(acts[..j], acts[j].SendA?) + 1);
    }
  }
}
