// StunBuilder and parse_stun of src/turn.rs.

module StunMessage {
  import opened Wrappers
  import opened MachineInts
  import opened Radix
  import opened StunWords
  import opened Stun
  import Bits

  const ATTR_MSG_INTEGRITY: u16 := 0x0008

  datatype Attr = Attr(kind: u16, value: seq<byte>)
  datatype Parsed = Parsed(msgType: u16, tid: seq<byte>, attrs: seq<Attr>)

  type Digest = s: seq<byte> | |s| == 20 witness seq(20, _ => 0)

  // HMAC-SHA1 of a key and a message.
  type Hmac = (seq<byte>, seq<byte>) -> Digest

  function Padding(n: nat): (p: nat)
    ensures p < 4 && (n + p) % 4 == 0
  {
    (4 - n % 4) % 4
  }

  function AttrBytes(a: Attr): (s: seq<byte>)
    ensures |s| == 4 + |a.value| + Padding(|a.value|)
  {
    Be2(a.kind) + Be2(|a.value| % 0x1_0000) + a.value + Zeros(Padding(|a.value|))
  }

  type Printer = Attr -> seq<byte>

  function AttrPrinter(): Printer { (a: Attr) => AttrBytes(a) }

  function Body(p: Printer, attrs: seq<Attr>): seq<byte>
  {
    if attrs == [] then [] else p(attrs[0]) + Body(p, attrs[1..])
  }

  function HeaderBytes(msgType: u16, len: nat, tid: seq<byte>): seq<byte>
  {
    Be2(msgType) + Be2(len % 0x1_0000) + Be4(MAGIC) + tid
  }

  // The message; with a key, the integrity attribute covers everything before it and the header
  // already counts it.
  function Built(h: Hmac, msgType: u16, tid: seq<byte>, body: seq<byte>, key: Option<seq<byte>>): seq<byte>
  {
    var msg := HeaderBytes(msgType, |body| + (if key.Some? then 24 else 0), tid) + body;
    if key.Some? then msg + Be2(ATTR_MSG_INTEGRITY) + Be2(20) + h(key.value, msg) else msg
  }

  // The attributes a keyed message ends up with.
  function WithIntegrity(h: Hmac, msgType: u16, tid: seq<byte>, attrs: seq<Attr>, key: Option<seq<byte>>): seq<Attr>
  {
    match key
    case None => attrs
    case Some(k) =>
      var body := Body(AttrPrinter(), attrs);
      attrs + [Attr(ATTR_MSG_INTEGRITY, h(k, HeaderBytes(msgType, |body| + 24, tid) + body))]
  }

  // ----- parsing -----

  function Align(pos: nat): (p: nat)
    ensures pos <= p <= pos + 3 && p % 4 == 0
  {
    (pos + 3) / 4 * 4
  }

  function ParseAttrs(d: seq<byte>, pos: nat, end: nat): seq<Attr>
    requires end <= |d|
    decreases end - pos
  {
    if pos + 4 > end then []
    else
      var kind, len := From2(d[pos..pos + 2]), From2(d[pos + 2..pos + 4]);
      if pos + 4 + len > |d| then []
      else [Attr(kind, d[pos + 4..pos + 4 + len])] + ParseAttrs(d, Align(pos + 4 + len), end)
  }

  function Parse(d: seq<byte>): Option<Parsed>
  {
    if |d| < 20 then None
    else
      var len := From2(d[2..4]);
      if From4(d[4..8]) != MAGIC || |d| < 20 + len then None
      else Some(Parsed(From2(d[0..2]), d[8..20], ParseAttrs(d, 20, 20 + len)))
  }

  // ----- the round trip -----

  // A printer whose output is a header, the value, and padding to a multiple of four.
  ghost predicate Faithful(p: Printer)
  {
    forall a: Attr :: |p(a)| == Align(4 + |a.value|) && |p(a)| >= 4 + |a.value|
      && From2(p(a)[0..2]) == a.kind && From2(p(a)[2..4]) == |a.value| % 0x1_0000 && p(a)[4..4 + |a.value|] == a.value
  }

  lemma PaddedLength(n: nat)
    ensures 4 + n + Padding(n) == Align(4 + n)
  {
  }

  lemma AttrParts(k: seq<byte>, l: seq<byte>, v: seq<byte>, z: seq<byte>)
    requires |k| == 2 && |l| == 2
    ensures var s := k + l + v + z; s[0..2] == k && s[2..4] == l && s[4..4 + |v|] == v
  {
  }

  lemma PrinterFaithful()
    ensures Faithful(AttrPrinter())
  {
    forall a: Attr
      ensures var s := AttrPrinter()(a);
              && |s| == Align(4 + |a.value|) && |s| >= 4 + |a.value|
              && From2(s[0..2]) == a.kind && From2(s[2..4]) == |a.value| % 0x1_0000 && s[4..4 + |a.value|] == a.value
    {
      PaddedLength(|a.value|);
      AttrParts(Be2(a.kind), Be2(|a.value| % 0x1_0000), a.value, Zeros(Padding(|a.value|)));
      Be2Back(a.kind);
      Be2Back(|a.value| % 0x1_0000);
    }
  }

  lemma SliceAt(d: seq<byte>, pre: seq<byte>, s: seq<byte>, post: seq<byte>, i: nat, j: nat)
    requires i <= j <= |s| && d == pre + s + post
    ensures d[|pre| + i..|pre| + j] == s[i..j]
  {
    assert d[|pre|..|pre| + |s|] == s;
  }

  // What lies at n in d is a printed attribute.
  ghost predicate Lies(p: Printer, d: seq<byte>, n: nat, a: Attr)
  {
    && n + |p(a)| <= |d| && |p(a)| >= 4 + |a.value|
    && From2(d[n..n + 2]) == a.kind && From2(d[n + 2..n + 4]) == |a.value| && d[n + 4..n + 4 + |a.value|] == a.value
  }

  lemma PrintedLies(p: Printer, d: seq<byte>, pre: seq<byte>, a: Attr, post: seq<byte>)
    requires Faithful(p) && |a.value| < 0x1_0000 && d == pre + p(a) + post
    ensures Lies(p, d, |pre|, a)
  {
    SliceAt(d, pre, p(a), post, 0, 2);
    SliceAt(d, pre, p(a), post, 2, 4);
    SliceAt(d, pre, p(a), post, 4, 4 + |a.value|);
    Small(|a.value|);
  }

  // One printed attribute, read where it lies.
  lemma OneParsed(p: Printer, d: seq<byte>, n: nat, a: Attr, end: nat)
    requires Lies(p, d, n, a) && n + |p(a)| <= end <= |d| && Align(n + 4 + |a.value|) == n + |p(a)|
    ensures ParseAttrs(d, n, end) == [a] + ParseAttrs(d, n + |p(a)|, end)
  {
    ReadAttr(d, n, end, a);
  }

  lemma ReadAttr(d: seq<byte>, n: nat, end: nat, a: Attr)
    requires n + 4 <= end <= |d| && n + 4 + |a.value| <= |d|
    requires From2(d[n..n + 2]) == a.kind && From2(d[n + 2..n + 4]) == |a.value|
    requires d[n + 4..n + 4 + |a.value|] == a.value
    ensures ParseAttrs(d, n, end) == [a] + ParseAttrs(d, Align(n + 4 + |a.value|), end)
  {
  }

  lemma Small(n: nat)
    requires n < 0x1_0000
    ensures n % 0x1_0000 == n
  {
  }

  lemma AlignMoves(n: nat, k: nat, len: nat)
    requires n % 4 == 0 && len == Align(k)
    ensures Align(n + k) == n + len && (n + len) % 4 == 0
  {
  }

  ghost predicate Fit(attrs: seq<Attr>) { forall i :: 0 <= i < |attrs| ==> |attrs[i].value| < 0x1_0000 }

  // The first attribute of a body, and where the rest lies.
  lemma HeadParsed(p: Printer, d: seq<byte>, pre: seq<byte>, a: Attr, rest: seq<byte>, post: seq<byte>, end: nat)
    requires Faithful(p) && |pre| % 4 == 0 && |a.value| < 0x1_0000 && d == pre + (p(a) + rest) + post
    requires end == |pre| + |p(a)| + |rest|
    ensures d == (pre + p(a)) + rest + post && |pre + p(a)| % 4 == 0
    ensures end <= |d| && ParseAttrs(d, |pre|, end) == [a] + ParseAttrs(d, |pre + p(a)|, end)
  {
    Regroup(pre, p(a), rest, post);
    HeadRead(p, d, pre, a, rest + post, end);
  }

  lemma HeadRead(p: Printer, d: seq<byte>, pre: seq<byte>, a: Attr, post: seq<byte>, end: nat)
    requires Faithful(p) && |pre| % 4 == 0 && |a.value| < 0x1_0000 && d == pre + p(a) + post
    requires |pre| + |p(a)| <= end <= |d|
    ensures |pre + p(a)| % 4 == 0 && ParseAttrs(d, |pre|, end) == [a] + ParseAttrs(d, |pre + p(a)|, end)
  {
    AlignMoves(|pre|, 4 + |a.value|, |p(a)|);
    PrintedLies(p, d, pre, a, post);
    OneParsed(p, d, |pre|, a, end);
  }

  lemma {:induction false} BodyParses(p: Printer, d: seq<byte>, pre: seq<byte>, attrs: seq<Attr>, post: seq<byte>,
                                      end: nat)
    requires Faithful(p) && |pre| % 4 == 0 && Fit(attrs) && d == pre + Body(p, attrs) + post
    requires end == |pre| + |Body(p, attrs)|
    ensures ParseAttrs(d, |pre|, end) == attrs
    decreases |attrs|
  {
    if attrs != [] {
      var a := attrs[0];
      var rest := Body(p, attrs[1..]);
      assert Body(p, attrs) == p(a) + rest;
      HeadParsed(p, d, pre, a, rest, post, end);
      FitTail(attrs);
      BodyParses(p, d, pre + p(a), attrs[1..], post, end);
      assert attrs == [a] + attrs[1..];
    }
  }

  lemma FitTail(attrs: seq<Attr>)
    requires Fit(attrs) && attrs != []
    ensures Fit(attrs[1..]) && |attrs[0].value| < 0x1_0000
  {
  }

  lemma Regroup(a: seq<byte>, b: seq<byte>, c: seq<byte>, d: seq<byte>)
    ensures a + (b + c) + d == (a + b) + c + d == a + b + (c + d)
  {
  }

  lemma {:induction false} BodyConcat(p: Printer, a: seq<Attr>, b: seq<Attr>)
    ensures Body(p, a + b) == Body(p, a) + Body(p, b)
    decreases |a|
  {
    if a == [] {
      assert [] + b == b;
    } else {
      assert (a + b)[1..] == a[1..] + b;
      BodyConcat(p, a[1..], b);
      Regroup(p(a[0]), Body(p, a[1..]), Body(p, b), []);
    }
  }

  lemma HeaderParts(t: seq<byte>, l: seq<byte>, g: seq<byte>, tid: seq<byte>, rest: seq<byte>)
    requires |t| == 2 && |l| == 2 && |g| == 4 && |tid| == 12
    ensures var d := t + l + g + tid + rest; d[0..2] == t && d[2..4] == l && d[4..8] == g && d[8..20] == tid
  {
  }

  lemma ParseFrom(d: seq<byte>, msgType: u16, tid: seq<byte>, len: u16, attrs: seq<Attr>)
    requires |d| == 20 + len && From2(d[0..2]) == msgType && From2(d[2..4]) == len && From4(d[4..8]) == MAGIC
    requires d[8..20] == tid
    requires ParseAttrs(d, 20, 20 + len) == attrs
    ensures Parse(d) == Some(Parsed(msgType, tid, attrs))
  {
  }

  lemma HeaderReads(msgType: u16, len: nat, tid: seq<byte>, rest: seq<byte>)
    requires |tid| == 12 && len < 0x1_0000
    ensures var d := HeaderBytes(msgType, len, tid) + rest;
            From2(d[0..2]) == msgType && From2(d[2..4]) == len && From4(d[4..8]) == MAGIC && d[8..20] == tid
  {
    HeaderParts(Be2(msgType), Be2(len % 0x1_0000), Be4(MAGIC), tid, rest);
    Small(len);
    Be2Back(msgType);
    Be2Back(len);
    Be4Back(MAGIC);
  }

  // A header and a printed body parse back.
  lemma MessageParses(p: Printer, msgType: u16, tid: seq<byte>, attrs: seq<Attr>)
    requires Faithful(p) && |tid| == 12 && Fit(attrs) && |Body(p, attrs)| < 0x1_0000
    ensures Parse(HeaderBytes(msgType, |Body(p, attrs)|, tid) + Body(p, attrs)) == Some(Parsed(msgType, tid, attrs))
  {
    var body := Body(p, attrs);
    var head := HeaderBytes(msgType, |body|, tid);
    HeaderReads(msgType, |body|, tid, body);
    assert head + body + [] == head + body;
    BodyParses(p, head + body, head, attrs, [], 20 + |body|);
    ParseFrom(head + body, msgType, tid, |body|, attrs);
  }

  lemma {:induction false} ValuesFit(p: Printer, attrs: seq<Attr>)
    requires Faithful(p) && |Body(p, attrs)| < 0x1_0000
    ensures Fit(attrs)
  {
    if attrs != [] {
      ValuesFit(p, attrs[1..]);
      forall i | 0 <= i < |attrs| ensures |attrs[i].value| < 0x1_0000 {
        if i > 0 { assert attrs[i] == attrs[1..][i - 1]; }
      }
    }
  }

  // Parsing what was built gives back type, transaction and attributes, in order, and for a
  // keyed message the integrity attribute, whenever the body fits its 16-bit length.
  lemma BuildParses(h: Hmac, msgType: u16, tid: seq<byte>, attrs: seq<Attr>, key: Option<seq<byte>>)
    requires |tid| == 12 && |Body(AttrPrinter(), attrs)| + (if key.Some? then 24 else 0) < 0x1_0000
    ensures Parse(Built(h, msgType, tid, Body(AttrPrinter(), attrs), key))
         == Some(Parsed(msgType, tid, WithIntegrity(h, msgType, tid, attrs, key)))
  {
    var p, body := AttrPrinter(), Body(AttrPrinter(), attrs);
    PrinterFaithful();
    if key.None? {
      ValuesFit(p, attrs);
      MessageParses(p, msgType, tid, attrs);
    } else {
      var mi := Attr(ATTR_MSG_INTEGRITY, h(key.value, HeaderBytes(msgType, |body| + 24, tid) + body));
      KeyedBody(p, attrs, mi);
      ValuesFit(p, attrs + [mi]);
      MessageParses(p, msgType, tid, attrs + [mi]);
      IntegrityLast(HeaderBytes(msgType, |body| + 24, tid), body, mi);
    }
  }

  lemma KeyedBody(p: Printer, attrs: seq<Attr>, mi: Attr)
    requires Faithful(p) && |mi.value| == 20
    ensures Body(p, attrs + [mi]) == Body(p, attrs) + p(mi) && |p(mi)| == 24
  {
    BodyConcat(p, attrs, [mi]);
    assert [mi][1..] == [] && Body(p, [mi]) == p(mi) + [];
  }

  lemma IntegrityLast(head: seq<byte>, body: seq<byte>, mi: Attr)
    requires mi.kind == ATTR_MSG_INTEGRITY && |mi.value| == 20
    ensures head + (body + AttrPrinter()(mi)) == head + body + Be2(ATTR_MSG_INTEGRITY) + Be2(20) + mi.value
  {
    assert Padding(20) == 0;
    assert AttrBytes(mi) == Be2(ATTR_MSG_INTEGRITY) + Be2(20) + mi.value;
  }

  // ----- as it runs -----

  class StunBuilder {
    const msgType: u16
    const tid: seq<byte>
    var attrs: seq<byte>
    ghost var added: seq<Attr>

    ghost predicate Valid()
      reads this
    {
      attrs == Body(AttrPrinter(), added)
    }

    constructor (msgType: u16, tid: seq<byte>)
      ensures Valid() && added == [] && this.msgType == msgType && this.tid == tid
    {
      this.msgType, this.tid, attrs, added := msgType, tid, [], [];
    }

    method AddAttr(kind: u16, value: seq<byte>)
      requires Valid()
      modifies this
      ensures Valid() && added == old(added) + [Attr(kind, value)]
    {
      ghost var a := Attr(kind, value);
      var bytes := attrs + Be2(kind);
      bytes := bytes + Be2(|value| % 0x1_0000);
      bytes := bytes + value;
      var pad := (4 - |value| % 4) % 4;
      for i := 0 to pad
        invariant bytes == attrs + Be2(kind) + Be2(|value| % 0x1_0000) + value + Zeros(i)
      {
        bytes := bytes + [0];
      }
      PrinterFaithful();
      OneMore(attrs, Be2(kind), Be2(|value| % 0x1_0000), value, Zeros(pad));
      AppendBody(AttrPrinter(), added, a);
      attrs := bytes;
      added := added + [a];
    }

    method Build(h: Hmac, key: Option<seq<byte>>) returns (msg: seq<byte>)
      requires Valid()
      ensures msg == Built(h, msgType, tid, Body(AttrPrinter(), added), key)
    {
      var bodyLen := |attrs| + (if key.Some? then 24 else 0);
      msg := Be2(msgType);
      msg := msg + Be2(bodyLen % 0x1_0000);
      msg := msg + Be4(MAGIC);
      msg := msg + tid;
      msg := msg + attrs;
      if key.Some? {
        var hmac := h(key.value, msg);
        msg := msg + Be2(ATTR_MSG_INTEGRITY);
        msg := msg + Be2(20);
        msg := msg + hmac;
      }
    }
  }

  lemma OneMore(s: seq<byte>, k: seq<byte>, l: seq<byte>, v: seq<byte>, z: seq<byte>)
    ensures s + k + l + v + z == s + (k + l + v + z)
  {
  }

  lemma AppendBody(p: Printer, attrs: seq<Attr>, a: Attr)
    ensures Body(p, attrs + [a]) == Body(p, attrs) + p(a)
  {
    BodyConcat(p, attrs, [a]);
    assert [a][1..] == [] && Body(p, [a]) == p(a) + [];
  }

  // The attribute at pos, and where the next one starts.
  method ParseOne(d: seq<byte>, start: nat, end: nat) returns (a: Option<Attr>, next: nat)
    requires start + 4 <= end <= |d|
    ensures a.None? ==> ParseAttrs(d, start, end) == []
    ensures a.Some? ==> start < next && ParseAttrs(d, start, end) == [a.value] + ParseAttrs(d, next, end)
  {
    var at, al := From2(d[start..start + 2]), From2(d[start + 2..start + 4]);
    var pos := start + 4;
    if pos + al > |d| {
      NoRoom(d, start, end);
      return None, pos;
    }
    ReadHere(d, start, end, at, al);
    a := Some(Attr(at, d[pos..pos + al]));
    next := AlignUp(pos + al);
  }

  lemma ReadHere(d: seq<byte>, n: nat, end: nat, kind: u16, len: u16)
    requires n + 4 <= end <= |d| && n + 4 + len <= |d| && kind == From2(d[n..n + 2]) && len == From2(d[n + 2..n + 4])
    ensures ParseAttrs(d, n, end) == [Attr(kind, d[n + 4..n + 4 + len])] + ParseAttrs(d, Align(n + 4 + len), end)
  {
  }

  lemma NoRoom(d: seq<byte>, n: nat, end: nat)
    requires n + 4 <= end <= |d| && n + 4 + From2(d[n + 2..n + 4]) > |d|
    ensures ParseAttrs(d, n, end) == []
  {
  }

  // (pos + 3) & !3
  method AlignUp(pos: nat) returns (next: nat)
    ensures next == Align(pos)
  {
    Aligned(pos);
    next := Bits.And(pos + 3, Bits.Not(3));
  }

  lemma Consed(s: seq<Attr>, a: Attr, rest: seq<Attr>)
    ensures s + ([a] + rest) == (s + [a]) + rest
  {
  }

  method ParseStun(d: seq<byte>) returns (r: Option<Parsed>)
    ensures r == Parse(d)
  {
    if |d| < 20 { return None; }
    var msgType: u16 := From2(d[0..2]);
    var msgLen: nat := From2(d[2..4]);
    if From4(d[4..8]) != MAGIC { return None; }
    if |d| < 20 + msgLen { return None; }
    var attrs := ParseBody(d, 20, 20 + msgLen);
    r := Some(Parsed(msgType, d[8..20], attrs));
  }

  // The attributes, one behind the other, until there is no room for one more.
  method ParseBody(d: seq<byte>, from: nat, end: nat) returns (attrs: seq<Attr>)
    requires from <= end <= |d|
    ensures attrs == ParseAttrs(d, from, end)
  {
    attrs := [];
    var pos := from;
    while pos + 4 <= end
      invariant attrs + ParseAttrs(d, pos, end) == ParseAttrs(d, from, end)
      decreases end - pos
    {
      var a, next := ParseOne(d, pos, end);
      if a.None? { break; }
      Consed(attrs, a.value, ParseAttrs(d, next, end));
      attrs, pos := attrs + [a.value], next;
    }
    assert attrs + [] == attrs;
  }
}
