// Packet framing and byte encodings of gdbstub.c, for the packet format of the GDB Remote Serial
// Protocol (Overview section of that appendix of the GDB manual).

module GdbPackets {
  import opened Basics

  const MAX_PACKET_LENGTH: nat := 4096

  const DOLLAR: Byte := 0x24
  const HASH: Byte := 0x23
  const STAR: Byte := 0x2a
  const BRACE: Byte := 0x7d
  const PLUS: Byte := 0x2b
  const MINUS: Byte := 0x2d

  // ------------------------------------------------------------------------------------------
  // Hexadecimal

  function ToHex(v: nat): Byte
    requires v < 16
  {
    if v < 10 then v + 0x30 else v - 10 + 0x61
  }

  /** Either case; anything else counts as 0. */
  function FromHex(v: Byte): nat {
    if 0x30 <= v <= 0x39 then v - 0x30
    else if 0x41 <= v <= 0x46 then v - 0x41 + 10
    else if 0x61 <= v <= 0x66 then v - 0x61 + 10
    else 0
  }

  lemma FromToHex(v: nat)
    requires v < 16
    ensures FromHex(ToHex(v)) == v
  {
  }

  const LOWER: string := "0123456789abcdef"
  const UPPER: string := "0123456789ABCDEF"

  /** The digits are the usual ones: lower case is written, either case is read, anything else reads as 0. */
  lemma HexDigits(v: nat, c: Byte)
    requires v < 16
    ensures ToHex(v) as char == LOWER[v]
    ensures c as char == LOWER[v] || c as char == UPPER[v] ==> FromHex(c) == v
    ensures c as char !in LOWER + UPPER ==> FromHex(c) == 0
  {
    assert LOWER[FromHex(c)] == c as char || UPPER[FromHex(c)] == c as char || FromHex(c) == 0;
  }

  function Hex(mem: seq<Byte>): (r: seq<Byte>)
    ensures |r| == 2 * |mem|
  {
    if mem == [] then [] else Hex(mem[..|mem| - 1]) + [ToHex(mem[|mem| - 1] / 16), ToHex(mem[|mem| - 1] % 16)]
  }

  function UnHex(buf: seq<Byte>, len: nat): (r: seq<Byte>)
    requires 2 * len <= |buf|
    ensures |r| == len
  {
    if len == 0 then [] else UnHex(buf, len - 1) + [FromHex(buf[2 * len - 2]) * 16 + FromHex(buf[2 * len - 1])]
  }

  lemma {:induction false} UnHexPrefix(buf: seq<Byte>, more: seq<Byte>, len: nat)
    requires 2 * len <= |buf|
    ensures UnHex(buf + more, len) == UnHex(buf, len)
  {
    if len > 0 { UnHexPrefix(buf, more, len - 1); }
  }

  /** hextomem undoes memtohex. */
  lemma {:induction false} HexRoundTrip(mem: seq<Byte>)
    ensures UnHex(Hex(mem), |mem|) == mem
  {
    if mem != [] {
      var n := |mem| - 1;
      var tail: seq<Byte> := [ToHex(mem[n] / 16), ToHex(mem[n] % 16)];
      HexRoundTrip(mem[..n]);
      UnHexPrefix(Hex(mem[..n]), tail, n);
      FromToHex(mem[n] / 16);
      FromToHex(mem[n] % 16);
      assert mem == mem[..n] + [mem[n]];
    }
  }

  /** memtohex, with the terminating NUL. */
  method MemToHex(buf: array<Byte>, mem: seq<Byte>)
    requires 2 * |mem| < buf.Length
    modifies buf
    ensures buf[..2 * |mem| + 1] == Hex(mem) + [0]
  {
    var q := 0;
    for i := 0 to |mem|
      invariant q == 2 * i && buf[..q] == Hex(mem[..i])
    {
      assert mem[..i + 1][..i] == mem[..i];
      buf[q] := ToHex(mem[i] / 16);
      buf[q + 1] := ToHex(mem[i] % 16);
      q := q + 2;
    }
    assert mem[..|mem|] == mem;
    buf[q] := 0;
  }

  /** hextomem. */
  method HexToMem(mem: array<Byte>, buf: seq<Byte>, len: nat)
    requires len <= mem.Length && 2 * len <= |buf|
    modifies mem
    ensures mem[..len] == UnHex(buf, len)
  {
    for i := 0 to len
      invariant mem[..i] == UnHex(buf, i)
    {
      mem[i] := FromHex(buf[2 * i]) * 16 + FromHex(buf[2 * i + 1]);
    }
  }

  // ------------------------------------------------------------------------------------------
  // The escape encoding of 'x' packets

  predicate Special(c: Byte) { c == HASH || c == DOLLAR || c == STAR || c == BRACE }

  /** c ^ 0x20. */
  function Flip(c: Byte): Byte { if (c / 32) % 2 == 1 then c - 32 else c + 32 }

  /** Bit 5 is inverted, the five bits below it and the two above it stay. */
  lemma FlipBits(c: Byte)
    ensures (Flip(c) / 32) % 2 != (c / 32) % 2 && Flip(c) % 32 == c % 32 && Flip(c) / 64 == c / 64
  {
  }

  function Escape(mem: seq<Byte>): seq<Byte> {
    if mem == [] then []
    else Escape(mem[..|mem| - 1]) + EscapeByte(mem[|mem| - 1])
  }

  function EscapeByte(c: Byte): seq<Byte> {
    if Special(c) then [BRACE, Flip(c)] else [c]
  }

  /** What the receiver does: a brace announces a flipped byte. */
  function Unescape(buf: seq<Byte>): seq<Byte> {
    if buf == [] then []
    else if buf[0] == BRACE && |buf| > 1 then [Flip(buf[1])] + Unescape(buf[2..])
    else [buf[0]] + Unescape(buf[1..])
  }

  lemma {:induction false} EscapeConcat(a: seq<Byte>, b: seq<Byte>)
    ensures Escape(a + b) == Escape(a) + Escape(b)
    decreases |b|
  {
    hide EscapeByte;
    if b == [] {
      assert a + b == a;
    } else {
      var n := |b| - 1;
      EscapeConcat(a, b[..n]);
      assert (a + b)[..|a + b| - 1] == a + b[..n];
    }
  }

  lemma UnescapeFirst(c: Byte, rest: seq<Byte>)
    ensures Unescape(EscapeByte(c) + rest) == [c] + Unescape(rest)
  {
    var e := EscapeByte(c) + rest;
    if Special(c) { assert e[2..] == rest; } else { assert e[1..] == rest; }
  }

  /** The encoding can be undone, so no two byte strings share one. */
  lemma {:induction false} UnescapeEscape(mem: seq<Byte>)
    ensures Unescape(Escape(mem)) == mem
  {
    if mem != [] {
      hide Unescape, Escape, EscapeByte;
      var c, rest := mem[0], mem[1..];
      UnescapeEscape(rest);
      EscapeConcat([c], rest);
      assert mem == [c] + rest;
      EscapeOne(c);
      UnescapeFirst(c, Escape(rest));
    }
  }

  lemma EscapeOne(c: Byte)
    ensures Escape([c]) == EscapeByte(c)
  {
    assert [c][..0] == [];
    assert Escape([]) == [];
  }

  predicate Clean(buf: seq<Byte>) {
    forall i :: 0 <= i < |buf| ==> buf[i] != HASH && buf[i] != DOLLAR && buf[i] != STAR
  }

  /** The encoding has no '#', '$' or '*'. */
  lemma {:induction false} EscapeClean(mem: seq<Byte>)
    ensures Clean(Escape(mem)) && |mem| <= |Escape(mem)| <= 2 * |mem|
  {
    if mem != [] { EscapeClean(mem[..|mem| - 1]); }
  }

  /** memtox. */
  method MemToX(buf: array<Byte>, mem: seq<Byte>) returns (len: nat)
    requires 2 * |mem| <= buf.Length
    modifies buf
    ensures len <= buf.Length && buf[..len] == Escape(mem)
  {
    var p := 0;
    for i := 0 to |mem|
      invariant p <= 2 * i && buf[..p] == Escape(mem[..i])
    {
      assert mem[..i + 1][..i] == mem[..i];
      var c := mem[i];
      if c == HASH || c == DOLLAR || c == STAR || c == BRACE {
        buf[p] := BRACE;
        buf[p + 1] := Flip(c);
        p := p + 2;
      } else {
        buf[p] := c;
        p := p + 1;
      }
    }
    assert mem[..|mem|] == mem;
    len := p;
  }

  // ------------------------------------------------------------------------------------------
  // Packets

  /** A byte as the signed char the checksum adds up. */
  function Signed(c: Byte): int { if c < 128 then c else c - 256 }

  function Sum(line: seq<Byte>): int {
    if line == [] then 0 else Sum(line[..|line| - 1]) + Signed(line[|line| - 1])
  }

  /** The checksum of the protocol: the sum of the bytes, taken unsigned. */
  function ByteSum(bytes: seq<Byte>): nat {
    if bytes == [] then 0 else bytes[0] + ByteSum(bytes[1..])
  }

  lemma {:induction false} ByteSumLast(bytes: seq<Byte>)
    requires bytes != []
    ensures ByteSum(bytes) == ByteSum(bytes[..|bytes| - 1]) + bytes[|bytes| - 1]
  {
    var n := |bytes| - 1;
    if n == 0 {
      assert bytes[1..] == [] && bytes[..0] == [];
    } else {
      ByteSumLast(bytes[1..]);
      assert bytes[1..][..n - 1] == bytes[..n][1..];
    }
  }

  /** Adding up signed bytes gives the same number modulo 256. */
  lemma {:induction false} SumIsByteSum(line: seq<Byte>)
    ensures Sum(line) % 256 == ByteSum(line) % 256
  {
    if line != [] {
      var n := |line| - 1;
      SumIsByteSum(line[..n]);
      ByteSumLast(line);
      SignedSame(Sum(line[..n]), ByteSum(line[..n]), line[n]);
    }
  }

  lemma SignedSame(a: int, b: int, c: Byte)
    requires a % 256 == b % 256
    ensures (a + Signed(c)) % 256 == (b + c) % 256
  {
  }

  /** $ payload # two checksum digits. */
  function Packet(payload: seq<Byte>): seq<Byte> {
    var csum := Sum(payload);
    [DOLLAR] + payload + [HASH, ToHex((csum / 16) % 16), ToHex(csum % 16)]
  }

  datatype RsState = RsIdle | RsGetLine | RsChksum1 | RsChksum2

  /** The parser: its state, the line read so far and its checksum digits, the packet waiting for an
      acknowledgement (empty if none), what has been sent and the payloads handed to the command handler. */
  datatype Parser = Parser(state: RsState, line: seq<Byte>, csum: nat, last: seq<Byte>, sent: seq<Byte>,
      delivered: seq<seq<Byte>>)

  /** What the command handler answers to a payload, if anything. */
  type Handler = seq<Byte> -> Option<seq<Byte>>

  function Answer(handler: Handler, line: seq<Byte>): seq<Byte> {
    if handler(line).None? then [] else Packet(handler(line).value)
  }

  /** A byte that is not taken as an acknowledgement, with the VM stopped. */
  function Parse(p: Parser, ch: Byte, handler: Handler): Parser {
    match p.state
    case RsIdle => if ch == DOLLAR then p.(line := [], state := RsGetLine) else p
    case RsGetLine =>
      if ch == HASH then p.(state := RsChksum1)
      else if |p.line| >= MAX_PACKET_LENGTH - 1 then p.(state := RsIdle)
      else p.(line := p.line + [ch])
    case RsChksum1 => p.(csum := FromHex(ch) * 16, state := RsChksum2)
    case RsChksum2 =>
      var csum := p.csum + FromHex(ch);
      if csum != Sum(p.line) % 256 then p.(csum := csum, sent := p.sent + [MINUS], state := RsIdle)
      else
        p.(csum := csum, state := RsIdle, sent := p.sent + [PLUS] + Answer(handler, p.line),
           last := Answer(handler, p.line), delivered := p.delivered + [p.line])
  }

  /** The byte as an acknowledgement of the last packet, if one is due: '-' repeats the packet, '+' or the
      start of a new command settles it. */
  function Acknowledge(p: Parser, ch: Byte): Parser {
    if p.last == [] then p
    else if ch == MINUS then p.(sent := p.sent + p.last)
    else if ch == PLUS || ch == DOLLAR then p.(last := [])
    else p
  }

  /** Whether the byte goes on to the parser. */
  predicate Passes(p: Parser, ch: Byte) {
    p.last == [] || ch == DOLLAR
  }

  /** One byte from the debugger, with the VM stopped. */
  function Feed(p: Parser, ch: Byte, handler: Handler): Parser {
    if Passes(p, ch) then Parse(Acknowledge(p, ch), ch, handler) else Acknowledge(p, ch)
  }

  function FeedAll(p: Parser, bytes: seq<Byte>, handler: Handler): Parser
    decreases |bytes|
  {
    if bytes == [] then p else FeedAll(Feed(p, bytes[0], handler), bytes[1..], handler)
  }

  // ------------------------------------------------------------------------------------------
  // For every byte stream

  predicate Framed(payload: seq<Byte>) {
    HASH !in payload && |payload| <= MAX_PACKET_LENGTH - 1
  }

  /** The line fits its buffer with the terminating NUL, and only framed payloads reach the handler. */
  ghost predicate ParserOk(p: Parser) {
    && (p.state != RsIdle ==> Framed(p.line)) && |p.line| <= MAX_PACKET_LENGTH - 1
    && (p.csum % 16 == 0 || p.state != RsChksum2) && p.csum < 256
    && (forall i :: 0 <= i < |p.delivered| ==> Framed(p.delivered[i]))
  }

  lemma FeedOk(p: Parser, ch: Byte, handler: Handler)
    requires ParserOk(p)
    ensures ParserOk(Feed(p, ch, handler)) && p.delivered <= Feed(p, ch, handler).delivered
  {
  }

  lemma {:induction false} FeedAllOk(p: Parser, bytes: seq<Byte>, handler: Handler)
    requires ParserOk(p)
    ensures ParserOk(FeedAll(p, bytes, handler)) && p.delivered <= FeedAll(p, bytes, handler).delivered
    decreases |bytes|
  {
    if bytes != [] {
      FeedOk(p, bytes[0], handler);
      FeedAllOk(Feed(p, bytes[0], handler), bytes[1..], handler);
    }
  }

  lemma {:induction false} FeedConcat(p: Parser, a: seq<Byte>, b: seq<Byte>, handler: Handler)
    ensures FeedAll(p, a + b, handler) == FeedAll(FeedAll(p, a, handler), b, handler)
    decreases |a|
  {
    if a == [] {
      assert a + b == b;
    } else {
      assert (a + b)[1..] == a[1..] + b;
      FeedConcat(Feed(p, a[0], handler), a[1..], b, handler);
    }
  }

  // ------------------------------------------------------------------------------------------
  // Printer and parser agree

  /** Payload bytes pile up in the line. */
  lemma {:induction false} FeedPayload(p: Parser, payload: seq<Byte>, handler: Handler)
    requires p.state == RsGetLine && p.last == [] && HASH !in payload && |p.line| + |payload| <= MAX_PACKET_LENGTH - 1
    ensures FeedAll(p, payload, handler) == p.(line := p.line + payload)
    decreases |payload|
  {
    if payload == [] {
      assert p.line + payload == p.line;
    } else {
      FeedPayload(Feed(p, payload[0], handler), payload[1..], handler);
      assert p.line + [payload[0]] + payload[1..] == p.line + payload;
    }
  }

  /** The two digits give the checksum back, whatever its sign. */
  lemma ChecksumDigits(csum: int)
    ensures ((csum / 16) % 16) * 16 + csum % 16 == csum % 256
  {
  }

  /** The end of a packet, whatever its digits: with the right ones the payload is delivered and acknowledged,
      with any others it is refused. */
  lemma FeedTrailer(p: Parser, payload: seq<Byte>, d1: Byte, d2: Byte, handler: Handler)
    requires p.state == RsGetLine && p.last == [] && p.line == payload
    ensures var q := FeedAll(p, [HASH, d1, d2], handler);
      if FromHex(d1) * 16 + FromHex(d2) == ByteSum(payload) % 256
      then Delivers(p, q, payload, handler) else Refuses(p, q)
  {
    SumIsByteSum(payload);
    hide Sum, ByteSum, Answer;
    var p1 := Feed(p, HASH, handler);
    var p2 := Feed(p1, d1, handler);
    assert [HASH, d1, d2][1..] == [d1, d2];
    assert [d1, d2][1..] == [d2];
    assert [d2][1..] == [];
    assert FeedAll(p, [HASH, d1, d2], handler) == FeedAll(p1, [d1, d2], handler);
    assert FeedAll(p1, [d1, d2], handler) == FeedAll(p2, [d2], handler);
    assert FeedAll(p2, [d2], handler) == Feed(p2, d2, handler);
  }

  /** '+' and then the answer, if there is one, which now waits for its acknowledgement. */
  predicate Delivers(p: Parser, q: Parser, payload: seq<Byte>, handler: Handler) {
    && q.state == RsIdle && q.delivered == p.delivered + [payload]
    && q.sent == p.sent + [PLUS] + Answer(handler, payload) && q.last == Answer(handler, payload)
  }

  /** '-' and nothing else. */
  predicate Refuses(p: Parser, q: Parser) {
    q.state == RsIdle && q.delivered == p.delivered && q.sent == p.sent + [MINUS] && q.last == p.last
  }

  /** A framed payload with any two digits is delivered if and only if the digits are the sum of its bytes. */
  lemma FeedFramed(p: Parser, payload: seq<Byte>, d1: Byte, d2: Byte, handler: Handler)
    requires p.state == RsIdle && p.last == [] && Framed(payload)
    ensures var q := FeedAll(p, [DOLLAR] + payload + [HASH, d1, d2], handler);
      if FromHex(d1) * 16 + FromHex(d2) == ByteSum(payload) % 256
      then Delivers(p, q, payload, handler) else Refuses(p, q)
  {
    hide ByteSum, Answer, Sum;
    var trailer: seq<Byte> := [HASH, d1, d2];
    var p1 := Feed(p, DOLLAR, handler);
    var packet := [DOLLAR] + payload + trailer;
    assert packet[1..] == payload + trailer;
    FeedConcat(p1, payload, trailer, handler);
    FeedPayload(p1, payload, handler);
    assert [] + payload == payload;
    FeedTrailer(p1.(line := payload), payload, d1, d2, handler);
  }

  /** The two digits of a packet are the sum of its payload bytes modulo 256, as printed by "%02x". */
  lemma PacketChecksum(payload: seq<Byte>)
    ensures var n, c := |payload|, ByteSum(payload) % 256;
      && |Packet(payload)| == n + 4
      && Packet(payload) == [0x24] + payload + [0x23, Packet(payload)[n + 2], Packet(payload)[n + 3]]
      && Packet(payload)[n + 2] as char == LOWER[c / 16] && Packet(payload)[n + 3] as char == LOWER[c % 16]
  {
    var csum := Sum(payload);
    SumIsByteSum(payload);
    hide Sum, ByteSum;
    Nibbles(csum);
    HexDigits((csum / 16) % 16, 0);
    HexDigits(csum % 16, 0);
  }

  lemma Nibbles(csum: int)
    ensures (csum % 256) / 16 == (csum / 16) % 16 && (csum % 256) % 16 == csum % 16
  {
  }

  /** A packet of a '#'-free payload of at most 4095 bytes, fed to an idle parser, delivers that payload. */
  lemma FeedPacket(p: Parser, payload: seq<Byte>, handler: Handler)
    requires p.state == RsIdle && p.last == [] && Framed(payload)
    ensures Delivers(p, FeedAll(p, Packet(payload), handler), payload, handler)
  {
    var csum := Sum(payload);
    SumIsByteSum(payload);
    hide Sum, ByteSum, FeedAll, Delivers;
    FromToHex((csum / 16) % 16);
    FromToHex(csum % 16);
    ChecksumDigits(csum);
    FeedFramed(p, payload, ToHex((csum / 16) % 16), ToHex(csum % 16), handler);
  }

  /** And no other payload is ever delivered by its packet. */
  lemma DeliveredIff(p: Parser, payload: seq<Byte>, handler: Handler)
    requires ParserOk(p) && p.state == RsIdle && p.last == [] && p.delivered == []
    ensures payload in FeedAll(p, Packet(payload), handler).delivered <==> Framed(payload)
  {
    hide Packet;
    FeedAllOk(p, Packet(payload), handler);
    if Framed(payload) { FeedPacket(p, payload, handler); }
  }

  /** An 'x' encoding that fits arrives and decodes to the original bytes. */
  lemma EscapedArrives(p: Parser, mem: seq<Byte>, handler: Handler)
    requires p.state == RsIdle && p.last == [] && |Escape(mem)| <= MAX_PACKET_LENGTH - 1
    ensures var q := FeedAll(p, Packet(Escape(mem)), handler);
      q.delivered == p.delivered + [Escape(mem)] && Unescape(Escape(mem)) == mem
  {
    hide Escape, Packet, FeedAll, Unescape;
    EscapeClean(mem);
    UnescapeEscape(mem);
    FeedPacket(p, Escape(mem), handler);
  }

  // ------------------------------------------------------------------------------------------
  // The stub

  class GdbState {
    var state: RsState
    const lineBuf: array<Byte>
    var lineBufIndex: nat
    var lineCsum: nat
    const lastPacket: array<Byte>
    var lastPacketLen: nat
    var sent: seq<Byte>
    ghost var delivered: seq<seq<Byte>>

    ghost function View(): Parser
      requires lineBufIndex <= lineBuf.Length && lastPacketLen <= lastPacket.Length
      reads this, lineBuf, lastPacket
    {
      Parser(state, lineBuf[..lineBufIndex], lineCsum, lastPacket[..lastPacketLen], sent, delivered)
    }

    ghost predicate Valid()
      reads this, lineBuf, lastPacket
    {
      && lineBuf != lastPacket && lineBuf.Length == MAX_PACKET_LENGTH && lastPacket.Length == MAX_PACKET_LENGTH + 4
      && lineBufIndex < lineBuf.Length && lastPacketLen <= lastPacket.Length && ParserOk(View())
      && (state == RsChksum2 ==> lineBuf[lineBufIndex] == 0)
    }

    constructor ()
      ensures Valid() && View() == Parser(RsIdle, [], 0, [], [], [])
    {
      lineBuf := new Byte[MAX_PACKET_LENGTH](i => 0);
      lastPacket := new Byte[MAX_PACKET_LENGTH + 4](i => 0);
      state, lineBufIndex, lineCsum, lastPacketLen, sent, delivered := RsIdle, 0, 0, 0, [], [];
    }

    /** put_packet_binary. */
    method PutPacketBinary(buf: seq<Byte>)
      requires Valid() && |buf| <= MAX_PACKET_LENGTH
      modifies this`lastPacketLen, this`sent, lastPacket
      ensures Valid()
      ensures View() == old(View()).(last := Packet(buf), sent := old(sent) + Packet(buf))
    {
      hide Packet;
      FillPacket(buf);
      lastPacketLen := 4 + |buf|;
      sent := sent + lastPacket[..lastPacketLen];
    }

    method FillPacket(buf: seq<Byte>)
      requires |buf| + 4 <= lastPacket.Length
      modifies lastPacket
      ensures lastPacket[..4 + |buf|] == Packet(buf)
    {
      hide ToHex, Signed, Sum;
      lastPacket[0] := DOLLAR;
      forall i | 0 <= i < |buf| { lastPacket[1 + i] := buf[i]; }
      var csum := Checksum(buf);
      lastPacket[1 + |buf|] := HASH;
      lastPacket[2 + |buf|] := ToHex((csum / 16) % 16);
      lastPacket[3 + |buf|] := ToHex(csum % 16);
      assert lastPacket[..4 + |buf|] == Packet(buf);
    }

    method Checksum(buf: seq<Byte>) returns (csum: int)
      ensures csum == Sum(buf)
    {
      csum := 0;
      for i := 0 to |buf|
        invariant csum == Sum(buf[..i])
      {
        assert buf[..i + 1][..i] == buf[..i];
        csum := csum + Signed(buf[i]);
      }
      assert buf[..|buf|] == buf;
    }

    /** The first part of gdb_read_byte. */
    method TakeAcknowledgement(ch: Byte) returns (passes: bool)
      requires Valid()
      modifies this`lastPacketLen, this`sent
      ensures Valid() && View() == Acknowledge(old(View()), ch) && passes == Passes(old(View()), ch)
    {
      if lastPacketLen > 0 {
        assert lastPacket[..lastPacketLen] != [];
        if ch == MINUS {
          sent := sent + lastPacket[..lastPacketLen];
        }
        if ch == PLUS || ch == DOLLAR {
          lastPacketLen := 0;
        }
        if ch != DOLLAR {
          return false;
        }
      }
      passes := true;
    }

    /** A byte of the line, or its end. */
    method GetLine(ch: Byte)
      requires Valid() && state == RsGetLine
      modifies this`state, this`lineBufIndex, lineBuf
      ensures Valid()
      ensures forall handler :: View() == Parse(old(View()), ch, handler)
    {
      hide Sum, Answer;
      if ch == HASH {
        state := RsChksum1;
      } else if lineBufIndex >= MAX_PACKET_LENGTH - 1 {
        state := RsIdle;
      } else {
        lineBuf[lineBufIndex] := ch;
        lineBufIndex := lineBufIndex + 1;
        assert lineBuf[..lineBufIndex] == old(lineBuf[..lineBufIndex]) + [ch];
      }
    }

    /** The last byte of a packet: check, acknowledge and hand over. */
    method Chksum2(ch: Byte, handler: Handler)
      requires Valid() && state == RsChksum2 && lastPacketLen == 0
      requires HandlerOk(handler)
      modifies this`state, this`lineCsum, this`sent, this`delivered, this`lastPacketLen, lastPacket
      ensures Valid() && View() == Parse(old(View()), ch, handler)
    {
      hide Packet;
      ghost var was := View();
      lineCsum := lineCsum + FromHex(ch);
      var csum := 0;
      for i := 0 to lineBufIndex
        invariant csum == Sum(lineBuf[..i])
      {
        assert lineBuf[..i + 1][..i] == lineBuf[..i];
        csum := csum + Signed(lineBuf[i]);
      }
      hide Sum;
      state := RsIdle;
      if lineCsum != csum % 256 {
        sent := sent + [MINUS];
      } else {
        var line := lineBuf[..lineBufIndex];
        sent := sent + [PLUS];
        delivered := delivered + [line];
        var reply := handler(line);
        assert lastPacket[..0] == [];
        if reply.Some? {
          PutPacketBinary(reply.value);
        }
      }
    }

    /** gdb_read_byte; running says whether the VM runs, in which case the byte only stops it. */
    method ReadByte(ch: Byte, running: bool, handler: Handler)
      requires Valid() && HandlerOk(handler)
      modifies this, lineBuf, lastPacket
      ensures Valid()
      ensures View() == if running then Acknowledge(old(View()), ch) else Feed(old(View()), ch, handler)
    {
      hide Sum, Answer, ParserOk;
      var passes := TakeAcknowledgement(ch);
      if !passes || running {
        return;
      }
      match state
      case RsIdle =>
        StartLine(ch);
      case RsGetLine =>
        GetLine(ch);
        assert View() == Parse(Acknowledge(old(View()), ch), ch, handler);
      case RsChksum1 =>
        Chksum1(ch);
      case RsChksum2 =>
        Chksum2(ch, handler);
    }

    method StartLine(ch: Byte)
      requires Valid() && state == RsIdle
      modifies this`state, this`lineBufIndex
      ensures Valid()
      ensures View() == if ch == DOLLAR then old(View()).(line := [], state := RsGetLine) else old(View())
    {
      if ch == DOLLAR {
        lineBufIndex := 0;
        state := RsGetLine;
      }
    }

    method Chksum1(ch: Byte)
      requires Valid() && state == RsChksum1
      modifies this`state, this`lineCsum, lineBuf
      ensures Valid()
      ensures View() == old(View()).(csum := FromHex(ch) * 16, state := RsChksum2)
    {
      lineBuf[lineBufIndex] := 0;
      assert lineBuf[..lineBufIndex] == old(lineBuf[..lineBufIndex]);
      lineCsum := FromHex(ch) * 16;
      state := RsChksum2;
    }
  }

  /** Replies fit the packet buffer. */
  ghost predicate HandlerOk(handler: Handler) {
    forall line :: handler(line).Some? ==> |handler(line).value| <= MAX_PACKET_LENGTH
  }
}
