/** The wire format of include/rpc_common.hpp and the two reading loops: the session's
    (client to server, no tag bytes, magic checked) and the client's (server to client). */
module Frames {
  import opened Bytes

  const HEADER_SIZE: nat := 18
  const MAGIC_FIRST: Byte := 57
  const MAGIC_SECOND: Byte := 191
  const MAX_BODY_LENGTH: nat := 8 * 1024 * 1024
  const COMPRESS_THRESHOLD: nat := 1024
  const TWO_8: nat := 0x100
  const TWO_16: nat := 0x1_0000

  datatype Direction = ToServer | ToClient

  /** The packed header, in field order. */
  datatype Header = Header(msgId: nat, bodyLength: nat, first: Byte, nameLength: Byte, kind: Byte,
                           second: Byte, tagLength: nat)

  predicate InWidth(h: Header) {
    h.msgId < TWO_64 && h.bodyLength < TWO_32 && h.tagLength < TWO_16
  }

  function EncodeHeader(h: Header): (r: seq<Byte>)
    ensures |r| == HEADER_SIZE
  {
    LittleEndian(h.msgId, 8) + LittleEndian(h.bodyLength, 4)
    + [h.first, h.nameLength, h.kind, h.second] + LittleEndian(h.tagLength, 2)
  }

  function DecodeHeader(s: seq<Byte>): Header
    requires |s| >= HEADER_SIZE
  {
    Header(Number(s[..8]), Number(s[8..12]), s[12], s[13], s[14], s[15], Number(s[16..18]))
  }

  lemma HeaderRoundTrip(h: Header, tail: seq<Byte>)
    requires InWidth(h)
    ensures DecodeHeader(EncodeHeader(h) + tail) == h
  {
    assert Power256(2) == 256 * Power256(1) == TWO_16;
    assert Power256(4) == 256 * Power256(3) == 256 * 256 * Power256(2) == TWO_32;
    assert Power256(6) == 256 * Power256(5) == 256 * 256 * Power256(4);
    assert Power256(8) == 256 * Power256(7) == 256 * 256 * Power256(6) == TWO_64;
    NumberOfLittleEndian(h.msgId, 8);
    NumberOfLittleEndian(h.bodyLength, 4);
    NumberOfLittleEndian(h.tagLength, 2);
    var s := EncodeHeader(h) + tail;
    assert s[..8] == LittleEndian(h.msgId, 8);
    assert s[8..12] == LittleEndian(h.bodyLength, 4);
    assert s[16..18] == LittleEndian(h.tagLength, 2);
  }

  /** Numbers of two, four and eight bytes, the lowest byte first. */
  function U16(a: int, b: int): int {
    a + 0x100 * b
  }

  function U32(a: int, b: int, c: int, d: int): int {
    U16(a, b) + 0x1_0000 * U16(c, d)
  }

  function U64(a: int, b: int, c: int, d: int, e: int, f: int, g: int, h: int): int {
    U32(a, b, c, d) + 0x1_0000_0000 * U32(e, f, g, h)
  }

  /** Where each field of the packed header lies, least significant byte first. */
  lemma HeaderLayout(h: Header)
    requires InWidth(h)
    ensures var s := EncodeHeader(h);
            && |s| == 18
            && h.msgId == U64(s[0], s[1], s[2], s[3], s[4], s[5], s[6], s[7])
            && h.bodyLength == U32(s[8], s[9], s[10], s[11])
            && s[12] == h.first && s[13] == h.nameLength && s[14] == h.kind && s[15] == h.second
            && h.tagLength == U16(s[16], s[17])
  {
    var s := EncodeHeader(h);
    HeaderRoundTrip(h, []);
    assert s + [] == s;
    NumberOfEight(s[..8]);
    NumberOfFour(s[8..12]);
    NumberOfTwo(s[16..18]);
  }

  lemma NumberOfTwo(s: seq<Byte>)
    requires |s| == 2
    ensures Number(s) == U16(s[0], s[1])
  {
    assert Number(s[1..][1..]) == 0;
  }

  lemma NumberOfFour(s: seq<Byte>)
    requires |s| == 4
    ensures Number(s) == U32(s[0], s[1], s[2], s[3])
  {
    var t := s[1..][1..];
    assert t == s[2..];
    NumberOfTwo(t);
  }

  lemma NumberOfEight(s: seq<Byte>)
    requires |s| == 8
    ensures Number(s) == U64(s[0], s[1], s[2], s[3], s[4], s[5], s[6], s[7])
  {
    var a, b, c, d := s[1..], s[2..], s[3..], s[4..];
    assert a[1..] == b && b[1..] == c && c[1..] == d;
    assert Number(a) == s[1] + 256 * Number(b) && Number(b) == s[2] + 256 * Number(c);
    assert Number(c) == s[3] + 256 * Number(d);
    NumberOfFour(d);
  }

  /** A message before it is framed. */
  datatype Packet = Packet(msgId: nat, kind: Byte, name: seq<Byte>, tag: seq<Byte>, body: seq<Byte>)

  /** A queued packet: make_head with the lengths cast to the header's field widths, then the bytes. */
  function MakeHead(p: Packet): (h: Header)
    ensures InWidth(h)
  {
    Header(p.msgId % TWO_64, |p.body| % TWO_32, MAGIC_FIRST, |p.name| % TWO_8, p.kind, MAGIC_SECOND, |p.tag| % TWO_16)
  }

  function Encode(p: Packet): (r: seq<Byte>)
    ensures |r| == HEADER_SIZE + |p.name| + |p.tag| + |p.body|
  {
    EncodeHeader(MakeHead(p)) + p.name + p.tag + p.body
  }

  lemma Parts(head: seq<Byte>, name: seq<Byte>, tag: seq<Byte>, body: seq<Byte>)
    ensures var s := head + name + tag + body;
            && (forall i :: 0 <= i < |head| ==> s[i] == head[i])
            && s[|head|..|head| + |name|] == name
            && s[|head| + |name|..|head| + |name| + |tag|] == tag
            && s[|head| + |name| + |tag|..] == body
  {
  }

  /** The bytes of a queued packet: magic, kind and lengths at their places, then name, tag and body. */
  lemma PacketLayout(p: Packet)
    ensures var s := Encode(p);
            && |s| == 18 + |p.name| + |p.tag| + |p.body|
            && s[12] == 57 && s[13] == |p.name| % 256 && s[14] == p.kind && s[15] == 191
            && U32(s[8], s[9], s[10], s[11]) == |p.body| % 0x1_0000_0000
            && U16(s[16], s[17]) == |p.tag| % 0x1_0000
            && s[18..18 + |p.name|] == p.name
            && s[18 + |p.name|..18 + |p.name| + |p.tag|] == p.tag
            && s[18 + |p.name| + |p.tag|..] == p.body
  {
    hide EncodeHeader, U16, U32, U64;
    HeaderLayout(MakeHead(p));
    var head := EncodeHeader(MakeHead(p));
    Parts(head, p.name, p.tag, p.body);
  }

  /** What one turn of a reading loop makes of the bytes so far. */
  datatype Turn = Wait | Bad | Got(packet: Packet, rest: seq<Byte>)

  /** Bytes the header announces: the session ignores the tag length; the client adds in 32 bits. */
  function Announced(dir: Direction, h: Header): nat {
    match dir
    case ToServer => h.nameLength + h.bodyLength
    case ToClient => (h.nameLength + h.tagLength + h.bodyLength) % TWO_32
  }

  /** The session frees itself on a bad magic or an oversized body. For the client `Bad` stands for
      a sum of lengths that wraps in 32 bits: it would slice bytes it never read. */
  predicate Refused(dir: Direction, h: Header) {
    match dir
    case ToServer => h.first != MAGIC_FIRST || h.second != MAGIC_SECOND || h.bodyLength > MAX_BODY_LENGTH
    case ToClient => h.nameLength + h.tagLength + h.bodyLength >= TWO_32
  }

  /** The part of a turn after the header `h` is read; `s` is what follows it. */
  function NextAfterHeader(dir: Direction, h: Header, s: seq<Byte>): (r: Turn)
    ensures r.Got? ==> |r.rest| <= |s|
  {
    if Refused(dir, h) then Bad
    else if |s| < Announced(dir, h) then Wait
    else
      var tagEnd := h.nameLength + (if dir.ToServer? then 0 else h.tagLength);
      Got(Packet(h.msgId, h.kind, s[..h.nameLength], s[h.nameLength..tagEnd], s[tagEnd..Announced(dir, h)]),
          s[Announced(dir, h)..])
  }

  function Next(dir: Direction, s: seq<Byte>): (r: Turn)
    ensures r.Got? ==> |r.rest| + HEADER_SIZE <= |s|
  {
    if |s| < HEADER_SIZE then Wait
    else NextAfterHeader(dir, DecodeHeader(s), s[HEADER_SIZE..])
  }

  /** What one turn does with bytes whose header is complete, told by the bytes. The session frees itself
      exactly on a wrong magic or an announced body of more than 8 MB; it ignores the tag length. */
  lemma TurnOfServer(s: seq<Byte>)
    requires |s| >= 18
    ensures var body := U32(s[8], s[9], s[10], s[11]);
            var r := Next(ToServer, s);
            && (r == Bad <==> s[12] != 57 || s[15] != 191 || body > 8 * 1024 * 1024)
            && (r == Wait <==> r != Bad && |s| < 18 + s[13] + body)
            && (r.Got? ==>
                  && r.packet.msgId == U64(s[0], s[1], s[2], s[3], s[4], s[5], s[6], s[7])
                  && r.packet.kind == s[14] && r.packet.name == s[18..18 + s[13]] && r.packet.tag == []
                  && r.packet.body == s[18 + s[13]..18 + s[13] + body] && r.rest == s[18 + s[13] + body..])
  {
    hide U16, U32, U64;
    NumberOfFour(s[8..12]);
    NumberOfEight(s[..8]);
    var t := s[18..];
    assert forall i, j :: 0 <= i <= j <= |t| ==> t[i..j] == s[18 + i..18 + j];
  }

  /** The client's turn: it adds the three lengths in 32 bits and checks nothing. */
  lemma TurnOfClient(s: seq<Byte>)
    requires |s| >= 18
    ensures var tag, body := U16(s[16], s[17]), U32(s[8], s[9], s[10], s[11]);
            var nameEnd := HEADER_SIZE + s[13];
            var r := Next(ToClient, s);
            && (r == Bad <==> s[13] + tag + body >= 0x1_0000_0000)
            && (r == Wait <==> r != Bad && |s| < nameEnd + tag + body)
            && (r.Got? ==>
                  && r.packet.msgId == U64(s[0], s[1], s[2], s[3], s[4], s[5], s[6], s[7])
                  && r.packet.kind == s[14] && r.packet.name == s[18..nameEnd]
                  && r.packet.tag == s[nameEnd..nameEnd + tag]
                  && r.packet.body == s[nameEnd + tag..nameEnd + tag + body] && r.rest == s[nameEnd + tag + body..])
  {
    hide U16, U32, U64;
    NumberOfFour(s[8..12]);
    NumberOfEight(s[..8]);
    NumberOfTwo(s[16..18]);
    HeaderIs(s);
    hide DecodeHeader, Number, NextAfterHeader, Refused, Announced;
    var h := DecodeHeader(s);
    var nameEnd, tagEnd := h.nameLength, h.nameLength + h.tagLength;
    ClientAfterHeader(h, s[18..]);
    if Next(ToClient, s).Got? {
      Beyond(s, 0, nameEnd);
      Beyond(s, nameEnd, tagEnd);
      Beyond(s, tagEnd, tagEnd + h.bodyLength);
    }
  }

  lemma ClientAfterHeader(h: Header, t: seq<Byte>)
    ensures var tagEnd := h.nameLength + h.tagLength;
            NextAfterHeader(ToClient, h, t) ==
              if tagEnd + h.bodyLength >= 0x1_0000_0000 then Bad
              else if |t| < tagEnd + h.bodyLength then Wait
              else Got(Packet(h.msgId, h.kind, t[..h.nameLength], t[h.nameLength..tagEnd],
                              t[tagEnd..tagEnd + h.bodyLength]), t[tagEnd + h.bodyLength..])
  {
    if h.nameLength + h.tagLength + h.bodyLength < TWO_32 {
      SmallMod(h.nameLength + h.tagLength + h.bodyLength, TWO_32);
      assert Announced(ToClient, h) == h.nameLength + h.tagLength + h.bodyLength;
      hide Announced;
    }
  }

  lemma SmallMod(n: nat, m: nat)
    requires n < m
    ensures n % m == n
  {
  }

  lemma HeaderIs(s: seq<Byte>)
    requires |s| >= 18
    ensures var h := DecodeHeader(s);
            && h.msgId == Number(s[..8]) && h.bodyLength == Number(s[8..12]) && h.tagLength == Number(s[16..18])
            && h.nameLength == s[13] && h.kind == s[14]
  {
  }

  lemma Beyond(s: seq<Byte>, i: nat, j: nat)
    requires |s| >= 18 && i <= j <= |s| - 18
    ensures s[18..][i..j] == s[18 + i..18 + j] && s[18..][j..] == s[18 + j..]
    ensures i == 0 ==> s[18..][..j] == s[18..18 + j]
  {
  }

  datatype Parsed = Parsed(packets: seq<Packet>, rest: seq<Byte>, ok: bool)

  /** The whole loop on the bytes received so far. */
  function Parse(dir: Direction, s: seq<Byte>): Parsed
    decreases |s|
  {
    match Next(dir, s)
    case Wait => Parsed([], s, true)
    case Bad => Parsed([], s, false)
    case Got(p, rest) =>
      var tail := Parse(dir, rest);
      Parsed([p] + tail.packets, tail.rest, tail.ok)
  }

  /** Packets as the senders build them: no tag bytes towards the server, a body under the
      compression threshold, a 64-bit id. */
  predicate Sendable(dir: Direction, p: Packet) {
    p.msgId < TWO_64 && |p.body| < COMPRESS_THRESHOLD && (dir.ToServer? ==> p.tag == [])
  }

  predicate Fits(p: Packet) {
    |p.name| <= 255 && |p.tag| <= 65535
  }

  /** Once the header is behind, only the three lengths matter. */
  lemma NextOfHead(dir: Direction, p: Packet, after: seq<Byte>)
    ensures var head := EncodeHeader(MakeHead(p));
            Next(dir, head + after) == NextAfterHeader(dir, MakeHead(p), after)
  {
    HeaderRoundTrip(MakeHead(p), after);
    var s := EncodeHeader(MakeHead(p)) + after;
    assert s[HEADER_SIZE..] == after;
  }

  lemma RegroupFive(a: seq<Byte>, b: seq<Byte>, c: seq<Byte>, d: seq<Byte>, e: seq<Byte>)
    ensures (a + b + c + d) + e == a + (b + c + d + e)
  {
  }

  lemma Slices(a: seq<Byte>, b: seq<Byte>, c: seq<Byte>, d: seq<Byte>)
    ensures var s := a + b + c + d;
            && s[..|a|] == a
            && s[|a|..|a| + |b|] == b
            && s[|a| + |b|..|a| + |b| + |c|] == c
            && s[|a| + |b| + |c|..] == d
  {
  }

  lemma FittingHead(p: Packet)
    requires p.msgId < TWO_64 && |p.body| < COMPRESS_THRESHOLD && Fits(p)
    ensures MakeHead(p) == Header(p.msgId, |p.body|, MAGIC_FIRST, |p.name|, p.kind, MAGIC_SECOND, |p.tag|)
  {
  }

  lemma PayloadOfFitting(dir: Direction, p: Packet, tail: seq<Byte>)
    requires Sendable(dir, p) && Fits(p)
    ensures NextAfterHeader(dir, MakeHead(p), p.name + p.tag + p.body + tail) == Got(p, tail)
  {
    FittingHead(p);
    Slices(p.name, p.tag, p.body, tail);
  }

  lemma NextOfEncode(dir: Direction, p: Packet, tail: seq<Byte>)
    requires Sendable(dir, p) && Fits(p)
    ensures Next(dir, Encode(p) + tail) == Got(p, tail)
  {
    RegroupFive(EncodeHeader(MakeHead(p)), p.name, p.tag, p.body, tail);
    NextOfHead(dir, p, p.name + p.tag + p.body + tail);
    PayloadOfFitting(dir, p, tail);
  }

  /** A name or tag that does not fit comes back with another length. */
  lemma MisfitPayload(dir: Direction, p: Packet, payload: seq<Byte>)
    requires Sendable(dir, p) && !Fits(p)
    ensures NextAfterHeader(dir, MakeHead(p), payload) != Got(p, [])
  {
    var turn := NextAfterHeader(dir, MakeHead(p), payload);
    if turn.Got? {
      assert |turn.packet.name| == |p.name| % TWO_8;
      assert |turn.packet.tag| == if dir.ToServer? then 0 else |p.tag| % TWO_16;
    }
  }

  /** The length casts: one packet survives the trip exactly when its name fits 8 bits and its tag
      16 bits. */
  lemma PacketRoundTrip(dir: Direction, p: Packet)
    requires Sendable(dir, p)
    ensures Next(dir, Encode(p)) == Got(p, []) <==> Fits(p)
  {
    var payload := p.name + p.tag + p.body;
    RegroupFive(EncodeHeader(MakeHead(p)), p.name, p.tag, p.body, []);
    assert Encode(p) == Encode(p) + [] && payload + [] == payload;
    if Fits(p) {
      NextOfEncode(dir, p, []);
    } else {
      NextOfHead(dir, p, payload);
      MisfitPayload(dir, p, payload);
    }
  }

  lemma TakePastHead(head: seq<Byte>, body: seq<Byte>, n: nat)
    requires |head| <= n <= |head| + |body|
    ensures (head + body)[..n] == head + body[..n - |head|]
  {
  }

  /** Behind a header, fewer bytes than announced are waited for. */
  lemma PartialPayload(dir: Direction, p: Packet, s: seq<Byte>)
    requires Sendable(dir, p) && Fits(p) && |s| < |p.name| + |p.tag| + |p.body|
    ensures NextAfterHeader(dir, MakeHead(p), s) == Wait
  {
    FittingHead(p);
  }

  /** A packet cut short anywhere is waited for. */
  lemma PartialWaits(dir: Direction, p: Packet, n: nat)
    requires Sendable(dir, p) && Fits(p) && n < |Encode(p)|
    ensures Next(dir, Encode(p)[..n]) == Wait
  {
    hide EncodeHeader, DecodeHeader, MakeHead, NextAfterHeader;
    if n >= HEADER_SIZE {
      var head := EncodeHeader(MakeHead(p));
      var body := p.name + p.tag + p.body;
      RegroupFive(head, p.name, p.tag, p.body, []);
      assert Encode(p) == head + body;
      TakePastHead(head, body, n);
      NextOfHead(dir, p, body[..n - HEADER_SIZE]);
      PartialPayload(dir, p, body[..n - HEADER_SIZE]);
    }
  }

  function EncodeAll(ps: seq<Packet>): seq<Byte>
  {
    if ps == [] then [] else Encode(ps[0]) + EncodeAll(ps[1..])
  }

  /** Frame stream round trip: any run of packets followed by part of one more comes back as exactly
      those packets, and the partial one stays unread. */
  lemma {:induction false} StreamRoundTrip(dir: Direction, ps: seq<Packet>, last: Packet, n: nat)
    requires forall i :: 0 <= i < |ps| ==> Sendable(dir, ps[i]) && Fits(ps[i])
    requires Sendable(dir, last) && Fits(last) && n < |Encode(last)|
    ensures Parse(dir, EncodeAll(ps) + Encode(last)[..n]) == Parsed(ps, Encode(last)[..n], true)
  {
    hide Encode, Next, Sendable, Fits;
    var partial := Encode(last)[..n];
    if ps == [] {
      PartialWaits(dir, last, n);
      assert EncodeAll(ps) + partial == partial;
    } else {
      var more := EncodeAll(ps[1..]) + partial;
      assert EncodeAll(ps) + partial == Encode(ps[0]) + more;
      NextOfEncode(dir, ps[0], more);
      StreamRoundTrip(dir, ps[1..], last, n);
      assert [ps[0]] + ps[1..] == ps;
    }
  }

  lemma AfterHeaderIsStable(dir: Direction, h: Header, s: seq<Byte>, more: seq<Byte>)
    ensures var turn := NextAfterHeader(dir, h, s);
            turn.Got? ==> NextAfterHeader(dir, h, s + more) == Got(turn.packet, turn.rest + more)
    ensures NextAfterHeader(dir, h, s).Bad? ==> NextAfterHeader(dir, h, s + more).Bad?
  {
    var n := Announced(dir, h);
    var tagEnd := h.nameLength + (if dir.ToServer? then 0 else h.tagLength);
    if !Refused(dir, h) && n <= |s| {
      assert (s + more)[..h.nameLength] == s[..h.nameLength];
      assert (s + more)[h.nameLength..tagEnd] == s[h.nameLength..tagEnd];
      assert (s + more)[tagEnd..n] == s[tagEnd..n];
      assert (s + more)[n..] == s[n..] + more;
    }
  }

  lemma NextIsStable(dir: Direction, s: seq<Byte>, more: seq<Byte>)
    ensures Next(dir, s).Got? ==> Next(dir, s + more) == Got(Next(dir, s).packet, Next(dir, s).rest + more)
    ensures Next(dir, s).Bad? ==> Next(dir, s + more).Bad?
  {
    if |s| >= HEADER_SIZE {
      assert (s + more)[..8] == s[..8];
      assert (s + more)[8..12] == s[8..12];
      assert (s + more)[16..18] == s[16..18];
      assert DecodeHeader(s + more) == DecodeHeader(s);
      assert (s + more)[HEADER_SIZE..] == s[HEADER_SIZE..] + more;
      AfterHeaderIsStable(dir, DecodeHeader(s), s[HEADER_SIZE..], more);
    }
  }

  function Prepend(packets: seq<Packet>, tail: Parsed): Parsed {
    Parsed(packets + tail.packets, tail.rest, tail.ok)
  }

  function After(head: Parsed, more: seq<Byte>, tail: Parsed): Parsed {
    if head.ok then Prepend(head.packets, tail) else Parsed(head.packets, head.rest + more, false)
  }

  lemma PrependAfter(p: Packet, head: Parsed, more: seq<Byte>, tail: Parsed)
    ensures Prepend([p], After(head, more, tail)) == After(Prepend([p], head), more, tail)
  {
    assert [p] + (head.packets + tail.packets) == ([p] + head.packets) + tail.packets;
  }

  /** How the bytes are cut into reads does not matter. */
  lemma {:induction false} ParseInChunks(dir: Direction, s: seq<Byte>, more: seq<Byte>)
    ensures var head := Parse(dir, s);
            Parse(dir, s + more) == After(head, more, Parse(dir, head.rest + more))
    decreases |s|
  {
    NextIsStable(dir, s, more);
    match Next(dir, s)
    case Wait =>
      assert After(Parsed([], s, true), more, Parse(dir, s + more)) == Parse(dir, s + more);
    case Bad =>
    case Got(p, rest) =>
      ParseInChunks(dir, rest, more);
      var head := Parse(dir, rest);
      PrependAfter(p, head, more, Parse(dir, head.rest + more));
  }

  /** One end of a connection: the reading coroutine's buffer and the packets it has dealt. */
  class Reader {
    const dir: Direction
    var pending: seq<Byte>
    var dealt: seq<Packet>
    var closed: bool
    ghost var received: seq<Byte>

    /** The packets dealt are those of the whole stream received so far, however it arrived. */
    ghost predicate Valid()
      reads this
    {
      Parse(dir, received) == Parsed(dealt, Parse(dir, received).rest, !closed)
      && (!closed ==> pending == Parse(dir, received).rest)
    }

    constructor (dir: Direction)
      ensures Valid() && this.dir == dir && received == [] && dealt == [] && !closed
    {
      this.dir := dir;
      pending, dealt, closed, received := [], [], false, [];
    }

    method Receive(chunk: seq<Byte>)
      requires Valid()
      modifies this
      ensures Valid() && received == old(received) + chunk
      ensures old(dealt) <= dealt
      ensures old(closed) ==> closed && dealt == old(dealt)
    {
      hide Next;
      ParseInChunks(dir, received, chunk);
      received := received + chunk;
      if closed {
        return;
      }
      ghost var start := pending + chunk;
      pending := pending + chunk;
      var turn := Next(dir, pending);
      while turn.Got?
        invariant turn == Next(dir, pending)
        invariant old(dealt) <= dealt
        invariant !closed && received == old(received) + chunk
        invariant old(dealt) + Parse(dir, start).packets == dealt + Parse(dir, pending).packets
        invariant Parse(dir, start).rest == Parse(dir, pending).rest
        invariant Parse(dir, start).ok == Parse(dir, pending).ok
        decreases |pending|
      {
        var tail := Parse(dir, turn.rest);
        assert dealt + ([turn.packet] + tail.packets) == (dealt + [turn.packet]) + tail.packets;
        dealt := dealt + [turn.packet];
        pending := turn.rest;
        turn := Next(dir, pending);
      }
      assert dealt + [] == dealt;
      closed := turn.Bad?;
    }
  }
}
