/** The MessagePack writer of the cache-miss monitor and the length-prefixed reader of its stream. */
module MsgPack {
  import opened Options
  import opened Sequences

  type byte = b: int | 0 <= b < 256
  type u32 = v: int | 0 <= v < 0x1_0000_0000
  type u64 = v: int | 0 <= v < 0x1_0000_0000_0000_0000

  const U64: int := 0x1_0000_0000_0000_0000

  datatype Entry = Entry(tgid: u32, pid: u32, cpu: u32, l1i: u64, llc: u64)

  /** What the reader gets out of one message. */
  datatype CacheEvent = CacheEvent(cpu: int, tgid: int, pid: int, total: int, l1i: int, llc: int)

  // ----- Big-endian numbers -------------------------------------------------------------------

  function Pow256(n: nat): nat {
    if n == 0 then 1 else 256 * Pow256(n - 1)
  }

  /** The `n` low bytes of `v`, most significant first. */
  function BigEndian(v: nat, n: nat): seq<byte> {
    if n == 0 then [] else BigEndian(v / 256, n - 1) + [v % 256]
  }

  function FromBigEndian(bs: seq<byte>): nat {
    if bs == [] then 0 else 256 * FromBigEndian(bs[..|bs| - 1]) + bs[|bs| - 1]
  }

  lemma {:induction false} BigEndianRoundTrip(v: nat, n: nat)
    requires v < Pow256(n)
    ensures |BigEndian(v, n)| == n && FromBigEndian(BigEndian(v, n)) == v
  {
    if n == 0 {
    } else {
      BigEndianRoundTrip(v / 256, n - 1);
      assert BigEndian(v, n)[..n - 1] == BigEndian(v / 256, n - 1);
    }
  }

  lemma {:induction false} FromBigEndianBound(bs: seq<byte>)
    ensures FromBigEndian(bs) < Pow256(|bs|)
  {
    if bs == [] {
    } else {
      FromBigEndianBound(bs[..|bs| - 1]);
    }
  }

  lemma Powers()
    ensures Pow256(1) == 0x100 && Pow256(2) == 0x1_0000 && Pow256(4) == 0x1_0000_0000 && Pow256(8) == U64
  {
    assert Pow256(3) == 256 * Pow256(2);
    assert Pow256(5) == 256 * Pow256(4);
    assert Pow256(6) == 256 * Pow256(5);
    assert Pow256(7) == 256 * Pow256(6);
  }

  // ----- The writers ------------------------------------------------------------------------------

  /** The shortest unsigned form of `v`. */
  function EncodeUint(v: u64): seq<byte> {
    if v <= 0x7f then [v]
    else if v <= 0xff then [0xcc, v]
    else if v <= 0xffff then [0xcd] + BigEndian(v, 2)
    else if v <= 0xffff_ffff then [0xce] + BigEndian(v, 4)
    else [0xcf] + BigEndian(v, 8)
  }

  /** Sizes above 15 keep their low 16 bits only. */
  function EncodeArrayHeader(size: u32): seq<byte> {
    if size <= 15 then [0x90 + size] else [0xdc] + BigEndian(size % 0x1_0000, 2)
  }

  function Total(e: Entry): u64 {
    (e.l1i + e.llc) % U64
  }

  function Fields(e: Entry): seq<u64> {
    [e.cpu, e.tgid, e.pid, Total(e), e.l1i, e.llc]
  }

  function EncodeAll(vs: seq<u64>): seq<byte> {
    if vs == [] then [] else EncodeUint(vs[0]) + EncodeAll(vs[1..])
  }

  function Payload(e: Entry): seq<byte> {
    EncodeArrayHeader(6) + EncodeAll(Fields(e))
  }

  function Frame(e: Entry): seq<byte> {
    BigEndian(|Payload(e)|, 4) + Payload(e)
  }

  function Emit(entries: seq<Entry>): seq<byte> {
    if entries == [] then [] else Frame(entries[0]) + Emit(entries[1..])
  }

  /** A growing byte string. */
  class Buffer {
    var data: seq<byte>

    constructor ()
      ensures data == []
    {
      data := [];
    }

    method PushBack(b: byte)
      modifies this
      ensures data == old(data) + [b]
    {
      data := data + [b];
    }

    method AppendU16(v: int)
      requires 0 <= v < 0x1_0000
      modifies this
      ensures data == old(data) + BigEndian(v, 2)
    {
      PushBack(v / 0x100 % 256);
      PushBack(v % 256);
      TwoBytes(v);
    }

    method AppendU32(v: u32)
      modifies this
      ensures data == old(data) + BigEndian(v, 4)
    {
      PushBack(v / 0x100_0000 % 256);
      PushBack(v / 0x1_0000 % 256);
      PushBack(v / 0x100 % 256);
      PushBack(v % 256);
      FourBytes(v);
    }

    method AppendU64(v: u64)
      modifies this
      ensures data == old(data) + BigEndian(v, 8)
    {
      PushBack(v / 0x100_0000_0000_0000 % 256);
      PushBack(v / 0x1_0000_0000_0000 % 256);
      PushBack(v / 0x100_0000_0000 % 256);
      PushBack(v / 0x1_0000_0000 % 256);
      PushBack(v / 0x100_0000 % 256);
      PushBack(v / 0x1_0000 % 256);
      PushBack(v / 0x100 % 256);
      PushBack(v % 256);
      EightBytes(v);
    }

    method WriteUint(v: u64)
      modifies this
      ensures data == old(data) + EncodeUint(v)
    {
      hide BigEndian;
      if v <= 0x7f {
        PushBack(v);
      } else if v <= 0xff {
        PushBack(0xcc);
        PushBack(v % 256);
      } else {
        WriteWide(v);
      }
    }

    method WriteWide(v: u64)
      requires v > 0xff
      modifies this
      ensures data == old(data) + EncodeUint(v)
    {
      hide BigEndian;
      if v <= 0xffff {
        MarkerFirst(data, 0xcd, BigEndian(v, 2));
        PushBack(0xcd);
        AppendU16(v);
      } else if v <= 0xffff_ffff {
        MarkerFirst(data, 0xce, BigEndian(v, 4));
        PushBack(0xce);
        AppendU32(v);
      } else {
        MarkerFirst(data, 0xcf, BigEndian(v, 8));
        PushBack(0xcf);
        AppendU64(v);
      }
    }

    method WriteArrayHeader(size: u32)
      modifies this
      ensures data == old(data) + EncodeArrayHeader(size)
    {
      if size <= 15 {
        PushBack(0x90 + size);
      } else {
        PushBack(0xdc);
        AppendU16(size % 0x1_0000);
      }
    }

    method Append(bs: seq<byte>)
      modifies this
      ensures data == old(data) + bs
    {
      data := data + bs;
    }
  }

  lemma MarkerFirst(bs: seq<byte>, marker: byte, tail: seq<byte>)
    ensures (bs + [marker]) + tail == bs + ([marker] + tail)
  {
  }

  lemma TwoBytes(v: nat)
    ensures BigEndian(v, 2) == [v / 0x100 % 256, v % 256]
  {
    assert BigEndian(v / 256, 1) == BigEndian(v / 256 / 256, 0) + [v / 256 % 256];
  }

  /** Cutting off the four low bytes. */
  lemma LowFour(v: nat, n: nat)
    ensures BigEndian(v, n + 4) ==
            BigEndian(v / 0x1_0000_0000, n) + [v / 0x100_0000 % 256, v / 0x1_0000 % 256, v / 0x100 % 256, v % 256]
  {
    var a, b, c := v / 0x100, v / 0x1_0000, v / 0x100_0000;
    assert a / 256 == b && b / 256 == c && c / 256 == v / 0x1_0000_0000;
    assert BigEndian(c, n + 1) == BigEndian(c / 256, n) + [c % 256];
    assert BigEndian(b, n + 2) == BigEndian(c, n + 1) + [b % 256];
    assert BigEndian(a, n + 3) == BigEndian(b, n + 2) + [a % 256];
    assert BigEndian(v, n + 4) == BigEndian(a, n + 3) + [v % 256];
  }

  lemma FourBytes(v: nat)
    ensures BigEndian(v, 4) == [v / 0x100_0000 % 256, v / 0x1_0000 % 256, v / 0x100 % 256, v % 256]
  {
    LowFour(v, 0);
  }

  lemma EightBytes(v: nat)
    ensures BigEndian(v, 8) ==
            [v / 0x100_0000_0000_0000 % 256, v / 0x1_0000_0000_0000 % 256,
             v / 0x100_0000_0000 % 256, v / 0x1_0000_0000 % 256,
             v / 0x100_0000 % 256, v / 0x1_0000 % 256, v / 0x100 % 256, v % 256]
  {
    var h := v / 0x1_0000_0000;
    LowFour(v, 4);
    FourBytes(h);
    assert h / 0x100_0000 == v / 0x100_0000_0000_0000;
    assert h / 0x1_0000 == v / 0x1_0000_0000_0000;
    assert h / 0x100 == v / 0x100_0000_0000;
  }

  lemma UintSize(v: u64)
    ensures |EncodeUint(v)| ==
            if v <= 0x7f then 1 else if v <= 0xff then 2 else if v <= 0xffff then 3
            else if v <= 0xffff_ffff then 5 else 9
  {
    BigEndianSize(v, 2);
    BigEndianSize(v, 4);
    BigEndianSize(v, 8);
  }

  lemma {:induction false} BigEndianSize(v: nat, n: nat)
    ensures |BigEndian(v, n)| == n
  {
    if n == 0 {
    } else {
      BigEndianSize(v / 256, n - 1);
    }
  }

  lemma SixFields(a: u64, b: u64, c: u64, d: u64, e: u64, f: u64)
    ensures EncodeAll([a, b, c, d, e, f])
         == EncodeUint(a) + EncodeUint(b) + EncodeUint(c) + EncodeUint(d) + EncodeUint(e) + EncodeUint(f)
  {
    hide EncodeUint;
    assert [e, f][1..] == [f] && [d, e, f][1..] == [e, f] && [c, d, e, f][1..] == [d, e, f];
    assert [b, c, d, e, f][1..] == [c, d, e, f] && [a, b, c, d, e, f][1..] == [b, c, d, e, f];
    assert EncodeAll([f]) == EncodeUint(f);
    assert EncodeAll([e, f]) == EncodeUint(e) + EncodeUint(f);
    assert EncodeAll([d, e, f]) == EncodeUint(d) + EncodeUint(e) + EncodeUint(f);
    assert EncodeAll([c, d, e, f]) == EncodeUint(c) + EncodeUint(d) + EncodeUint(e) + EncodeUint(f);
    assert EncodeAll([b, c, d, e, f]) == EncodeUint(b) + EncodeUint(c) + EncodeUint(d) + EncodeUint(e) + EncodeUint(f);
  }

  /** Every payload takes 7 to 43 bytes, so its length is never zero and fits one byte. */
  lemma PayloadSize(e: Entry)
    ensures 7 <= |Payload(e)| <= 43
  {
    hide EncodeUint;
    SixFields(e.cpu, e.tgid, e.pid, Total(e), e.l1i, e.llc);
    UintSize(e.cpu);
    UintSize(e.tgid);
    UintSize(e.pid);
    UintSize(Total(e));
    UintSize(e.l1i);
    UintSize(e.llc);
  }

  /** The bytes of a number: itself up to 127, else a marker for 1, 2, 4 or 8 bytes, most significant first. */
  lemma UintBytes(v: u64)
    ensures v <= 127 ==> EncodeUint(v) == [v]
    ensures 127 < v <= 255 ==> EncodeUint(v) == [0xcc, v]
    ensures 255 < v <= 65535 ==> EncodeUint(v) == [0xcd, v / 0x100, v % 0x100]
    ensures 65535 < v <= 4294967295 ==>
              EncodeUint(v) == [0xce, v / 0x100_0000, v / 0x1_0000 % 0x100, v / 0x100 % 0x100, v % 0x100]
    ensures 4294967295 < v ==>
              EncodeUint(v) == [0xcf, v / 0x100_0000_0000_0000, v / 0x1_0000_0000_0000 % 0x100,
                                v / 0x100_0000_0000 % 0x100, v / 0x1_0000_0000 % 0x100,
                                v / 0x100_0000 % 0x100, v / 0x1_0000 % 0x100, v / 0x100 % 0x100, v % 0x100]
  {
    hide BigEndian;
    if v <= 65535 {
      TwoBytes(v);
    } else if v <= 4294967295 {
      FourBytes(v);
    } else {
      EightBytes(v);
      LeadingByte(v);
    }
  }

  lemma LeadingByte(v: u64)
    ensures v / 0x100_0000_0000_0000 % 256 == v / 0x100_0000_0000_0000
  {
  }

  /** The bytes of one entry: the length in four bytes, an array of six, and the six numbers in order. */
  lemma EntryBytes(e: Entry)
    ensures Payload(e) == [0x96] + EncodeUint(e.cpu) + EncodeUint(e.tgid) + EncodeUint(e.pid)
                          + EncodeUint((e.l1i + e.llc) % 0x1_0000_0000_0000_0000)
                          + EncodeUint(e.l1i) + EncodeUint(e.llc)
    ensures |Payload(e)| < 256 && Emit([e]) == [0, 0, 0, |Payload(e)|] + Payload(e)
  {
    hide EncodeUint;
    SixFields(e.cpu, e.tgid, e.pid, Total(e), e.l1i, e.llc);
    PayloadSize(e);
    FourBytes(|Payload(e)|);
    assert Emit([e]) == Frame(e) + Emit([e][1..]) == Frame(e) + [];
  }

  /** Two lists written one after the other are one stream. */
  lemma {:induction false} EmitJoins(a: seq<Entry>, b: seq<Entry>)
    ensures Emit(a + b) == Emit(a) + Emit(b)
  {
    hide Frame, Emit;
    EmitNothing();
    if a == [] {
      assert a + b == b && [] + Emit(b) == Emit(b);
    } else {
      EmitJoins(a[1..], b);
      EmitFirst(a[0], a[1..]);
      EmitFirst(a[0], a[1..] + b);
      assert a == [a[0]] + a[1..] && a + b == [a[0]] + (a[1..] + b);
      JoinAssociates(Frame(a[0]), Emit(a[1..]), Emit(b));
    }
  }

  lemma EmitNothing()
    ensures Emit([]) == []
  {
  }

  lemma EmitFirst(e: Entry, rest: seq<Entry>)
    ensures Emit([e] + rest) == Frame(e) + Emit(rest)
  {
    assert ([e] + rest)[1..] == rest;
  }

  /** `cache_miss_dump_emit`: one frame an entry, written to the output stream. */
  method DumpEmit(entries: seq<Entry>, out: Buffer)
    modifies out
    ensures out.data == old(out.data) + Emit(entries)
  {
    hide EncodeUint, BigEndian;
    for i := 0 to |entries|
      invariant out.data + Emit(entries[i..]) == old(out.data) + Emit(entries)
    {
      var frame := FrameOf(entries[i]);
      out.Append(frame);
      assert entries[i..][1..] == entries[i + 1..];
    }
    assert Emit(entries[|entries|..]) == [];
  }

  method FrameOf(e: Entry) returns (frame: seq<byte>)
    ensures frame == Frame(e)
  {
    hide EncodeUint, BigEndian;
    var payload := new Buffer();
    payload.WriteArrayHeader(6);
    payload.WriteUint(e.cpu);
    payload.WriteUint(e.tgid);
    payload.WriteUint(e.pid);
    payload.WriteUint((e.l1i + e.llc) % U64);
    payload.WriteUint(e.l1i);
    payload.WriteUint(e.llc);
    SixFields(e.cpu, e.tgid, e.pid, Total(e), e.l1i, e.llc);
    assert payload.data == Payload(e);
    PayloadSize(e);
    var buffer := new Buffer();
    buffer.AppendU32(|payload.data|);
    buffer.Append(payload.data);
    frame := buffer.data;
  }

  // ----- The reader ---------------------------------------------------------------------------------

  function Upto(bs: seq<byte>, n: nat): nat {
    if n < |bs| then n else |bs|
  }

  /** One `_read_next_message`: the message (empty at the end of the stream) and what is left. */
  function ReadNext(s: seq<byte>): (seq<byte>, seq<byte>) {
    var k := Upto(s, 4);
    var len, rest := FromBigEndian(s[..k]), s[k..];
    if k == 0 || len == 0 then ([], rest) else (rest[..Upto(rest, len)], rest[Upto(rest, len)..])
  }

  /** The first four bytes are the length of the message; a shorter stream has it in what bytes there are. */
  lemma ReadNextMeans(s: seq<byte>)
    ensures s == [] ==> ReadNext(s) == ([], [])
    ensures |s| >= 4 ==>
              var len := (s[0] as int) * 0x100_0000 + (s[1] as int) * 0x1_0000 + (s[2] as int) * 0x100 + s[3] as int;
              ReadNext(s) == if len <= |s| - 4 then (s[4..4 + len], s[4 + len..]) else (s[4..], [])
    ensures 0 < |s| < 4 ==> ReadNext(s) == ([], [])
  {
    hide FromBigEndian;
    if |s| >= 4 {
      FourBytesRead(s[..4]);
      var len := (s[0] as int) * 0x100_0000 + (s[1] as int) * 0x1_0000 + (s[2] as int) * 0x100 + s[3] as int;
      if len <= |s| - 4 {
        assert s[4..][..len] == s[4..4 + len] && s[4..][len..] == s[4 + len..];
      } else {
        assert s[4..][..|s| - 4] == s[4..] && s[4..][|s| - 4..] == [];
      }
    }
  }

  lemma FourBytesRead(bs: seq<byte>)
    requires |bs| == 4
    ensures FromBigEndian(bs) ==
            (bs[0] as int) * 0x100_0000 + (bs[1] as int) * 0x1_0000 + (bs[2] as int) * 0x100 + bs[3] as int
  {
    assert bs[..3][..2] == bs[..2] && bs[..2][..1] == bs[..1] && bs[..1][..0] == [];
    assert FromBigEndian(bs[..1]) == bs[0];
    assert FromBigEndian(bs[..2]) == (bs[0] as int) * 0x100 + bs[1] as int;
    assert FromBigEndian(bs[..3]) == (bs[0] as int) * 0x1_0000 + (bs[1] as int) * 0x100 + bs[2] as int;
  }

  class Stream {
    var rest: seq<byte>

    constructor (bytes: seq<byte>)
      ensures rest == bytes
    {
      rest := bytes;
    }

    /** A blocking read: `n` bytes, or fewer at the end of the stream. */
    method Read(n: nat) returns (bs: seq<byte>)
      modifies this
      ensures bs == old(rest)[..Upto(old(rest), n)] && rest == old(rest)[Upto(old(rest), n)..]
    {
      bs, rest := rest[..Upto(rest, n)], rest[Upto(rest, n)..];
    }

    method ReadNextMessage() returns (msg: seq<byte>)
      modifies this
      ensures (msg, rest) == ReadNext(old(rest))
    {
      var sizeBytes := Read(4);
      if sizeBytes == [] {
        return [];
      }
      var msgLen := FromBigEndian(sizeBytes);
      if msgLen <= 0 {
        return [];
      }
      msg := Read(msgLen);
    }
  }

  // ----- Decoding, by the MessagePack int and array format families ---------------------------------

  /** The first `n` bytes as a number, and what follows. */
  function TakeNumber(bs: seq<byte>, n: nat): Option<(nat, seq<byte>)> {
    if |bs| < n then None else Some((FromBigEndian(bs[..n]), bs[n..]))
  }

  function Signed(x: nat, n: nat): int {
    if 2 * x < Pow256(n) then x else x - Pow256(n)
  }

  function TakeUnsigned(bs: seq<byte>, n: nat): Option<(int, seq<byte>)> {
    match TakeNumber(bs, n)
    case None => None
    case Some((x, rest)) => Some((x, rest))
  }

  function TakeSigned(bs: seq<byte>, n: nat): Option<(int, seq<byte>)> {
    match TakeNumber(bs, n)
    case None => None
    case Some((x, rest)) => Some((Signed(x, n), rest))
  }

  function DecodeInt(bs: seq<byte>): Option<(int, seq<byte>)> {
    if bs == [] then None
    else
      var b: int := bs[0];
      var rest := bs[1..];
      if b <= 0x7f then Some((b, rest))
      else if b >= 0xe0 then Some((b - 0x100, rest))
      else if b == 0xcc then TakeUnsigned(rest, 1)
      else if b == 0xcd then TakeUnsigned(rest, 2)
      else if b == 0xce then TakeUnsigned(rest, 4)
      else if b == 0xcf then TakeUnsigned(rest, 8)
      else if b == 0xd0 then TakeSigned(rest, 1)
      else if b == 0xd1 then TakeSigned(rest, 2)
      else if b == 0xd2 then TakeSigned(rest, 4)
      else if b == 0xd3 then TakeSigned(rest, 8)
      else None
  }

  function DecodeArrayHeader(bs: seq<byte>): Option<(nat, seq<byte>)> {
    if bs == [] then None
    else if 0x90 <= bs[0] <= 0x9f then Some((bs[0] - 0x90, bs[1..]))
    else if bs[0] == 0xdc then TakeNumber(bs[1..], 2)
    else if bs[0] == 0xdd then TakeNumber(bs[1..], 4)
    else None
  }

  function DecodeInts(bs: seq<byte>, n: nat): Option<(seq<int>, seq<byte>)> {
    if n == 0 then Some(([], bs))
    else
      match DecodeInt(bs)
      case None => None
      case Some((v, rest)) =>
        match DecodeInts(rest, n - 1)
        case None => None
        case Some((vs, rest')) => Some(([v] + vs, rest'))
  }

  /** A whole message: an array of six integers and nothing after it. */
  function DecodeEvent(bs: seq<byte>): Option<CacheEvent> {
    match DecodeArrayHeader(bs)
    case None => None
    case Some((n, rest)) =>
      if n != 6 then None
      else
        match DecodeInts(rest, 6)
        case None => None
        case Some((vs, tail)) =>
          if tail != [] || |vs| != 6 then None
          else Some(CacheEvent(vs[0], vs[1], vs[2], vs[3], vs[4], vs[5]))
  }

  function EventOf(e: Entry): CacheEvent {
    CacheEvent(e.cpu, e.tgid, e.pid, Total(e), e.l1i, e.llc)
  }

  /** Turns a message into an event, or raises. */
  type Decoder = seq<byte> -> Option<CacheEvent>

  /** The events read before the stream ended (or a length was zero), or before a message did not decode. */
  datatype Reading = Reading(events: seq<CacheEvent>, failed: bool)

  /** The reader loop, if the monitor process is found ended after `turns` turns. */
  function ReadAll(decode: Decoder, s: seq<byte>, turns: nat): Reading {
    var (msg, rest) := ReadNext(s);
    if turns == 0 || msg == [] then Reading([], false)
    else
      match decode(msg)
      case None => Reading([], true)
      case Some(e) => var r := ReadAll(decode, rest, turns - 1); Reading([e] + r.events, r.failed)
  }

  /**
   The reader thread over some decoder: read, decode, collect, until the process is found ended, there
   is no message, or decoding raises.
   */
  method ReadOutput(stream: Stream, decode: Decoder, turns: nat) returns (r: Reading)
    modifies stream
    ensures r == ReadAll(decode, old(stream.rest), turns)
  {
    hide ReadNext;
    r := Reading([], false);
    var left := turns;
    while left > 0
      invariant !r.failed
      invariant var more := ReadAll(decode, stream.rest, left);
                ReadAll(decode, old(stream.rest), turns) == Reading(r.events + more.events, more.failed)
    {
      var msg := stream.ReadNextMessage();
      if msg == [] {
        return;
      }
      var event := decode(msg);
      if event.None? {
        return Reading(r.events, true);
      }
      r, left := Reading(r.events + [event.value], false), left - 1;
    }
  }

  // ----- Round trips -------------------------------------------------------------------------------

  lemma UnsignedRoundTrip(v: nat, n: nat, rest: seq<byte>)
    requires v < Pow256(n)
    ensures TakeUnsigned(BigEndian(v, n) + rest, n) == Some((v, rest))
    ensures forall k | 0 <= k < n :: TakeUnsigned(BigEndian(v, n)[..k], n) == None
  {
    BigEndianRoundTrip(v, n);
    assert (BigEndian(v, n) + rest)[..n] == BigEndian(v, n);
    assert (BigEndian(v, n) + rest)[n..] == rest;
  }

  /** An encoded integer decodes to itself, leaving what follows. */
  lemma IntRoundTrip(v: u64, rest: seq<byte>)
    ensures DecodeInt(EncodeUint(v) + rest) == Some((v, rest))
  {
    Powers();
    var bs := EncodeUint(v);
    assert (bs + rest)[1..] == bs[1..] + rest;
    if 0x7f < v <= 0xff {
      assert BigEndian(v, 1) == BigEndian(v / 256, 0) + [v];
      UnsignedRoundTrip(v, 1, rest);
    } else if 0xff < v <= 0xffff {
      UnsignedRoundTrip(v, 2, rest);
    } else if 0xffff < v <= 0xffff_ffff {
      UnsignedRoundTrip(v, 4, rest);
    } else if v > 0xffff_ffff {
      UnsignedRoundTrip(v, 8, rest);
    }
  }

  /** ... and no proper prefix of it decodes. */
  lemma IntPrefix(v: u64, k: nat)
    requires k < |EncodeUint(v)|
    ensures DecodeInt(EncodeUint(v)[..k]) == None
  {
    UintSize(v);
  }

  lemma {:induction false} IntsRoundTrip(vs: seq<u64>, rest: seq<byte>)
    ensures DecodeInts(EncodeAll(vs) + rest, |vs|) == Some((vs, rest))
  {
    hide EncodeUint, DecodeInt;
    if vs != [] {
      var tail := EncodeAll(vs[1..]) + rest;
      assert EncodeAll(vs) + rest == EncodeUint(vs[0]) + tail;
      IntRoundTrip(vs[0], tail);
      IntsRoundTrip(vs[1..], rest);
      assert vs == [vs[0]] + vs[1..];
    } else {
      assert EncodeAll(vs) + rest == rest;
    }
  }

  lemma {:induction false} IntsPrefix(vs: seq<u64>, k: nat)
    requires k < |EncodeAll(vs)|
    ensures DecodeInts(EncodeAll(vs)[..k], |vs|) == None
  {
    hide EncodeUint, DecodeInt;
    var first := EncodeUint(vs[0]);
    if k < |first| {
      assert EncodeAll(vs)[..k] == first[..k];
      IntPrefix(vs[0], k);
    } else {
      var tail := EncodeAll(vs[1..]);
      assert EncodeAll(vs)[..k] == first + tail[..k - |first|];
      IntRoundTrip(vs[0], tail[..k - |first|]);
      IntsPrefix(vs[1..], k - |first|);
    }
  }

  /** A complete payload decodes to its entry. */
  lemma PayloadRoundTrip(e: Entry)
    ensures DecodeEvent(Payload(e)) == Some(EventOf(e))
  {
    hide EncodeUint, EncodeAll, DecodeInts;
    IntsRoundTrip(Fields(e), []);
    assert EncodeAll(Fields(e)) + [] == EncodeAll(Fields(e));
    assert Payload(e)[1..] == EncodeAll(Fields(e));
  }

  /** ... and a cut one decodes to nothing. */
  lemma PayloadPrefix(e: Entry, k: nat)
    requires k < |Payload(e)|
    ensures DecodeEvent(Payload(e)[..k]) == None
  {
    hide EncodeUint, EncodeAll, DecodeInts;
    if k > 0 {
      assert Payload(e)[..k][1..] == EncodeAll(Fields(e))[..k - 1];
      IntsPrefix(Fields(e), k - 1);
    }
  }

  /** The reader takes one whole frame off the stream. */
  lemma FrameRead(e: Entry, rest: seq<byte>)
    ensures ReadNext(Frame(e) + rest) == (Payload(e), rest)
  {
    hide Payload;
    PayloadSize(e);
    Powers();
    BigEndianRoundTrip(|Payload(e)|, 4);
    var s := Frame(e) + rest;
    assert s[..4] == BigEndian(|Payload(e)|, 4);
    assert s[4..] == Payload(e) + rest;
    assert (Payload(e) + rest)[..|Payload(e)|] == Payload(e);
    assert (Payload(e) + rest)[|Payload(e)|..] == rest;
  }

  /** A frame cut short gives no message up to its length bytes, and else a proper prefix of its payload. */
  lemma FrameCut(e: Entry, n: nat)
    requires n < |Frame(e)|
    ensures ReadNext(Frame(e)[..n]).0 != [] <==> n > 4
    ensures var msg := ReadNext(Frame(e)[..n]).0; msg == [] || (|msg| < |Payload(e)| && msg == Payload(e)[..|msg|])
  {
    hide Payload;
    PayloadSize(e);
    Powers();
    FourBytes(|Payload(e)|);
    BigEndianRoundTrip(|Payload(e)|, 4);
    var s := Frame(e)[..n];
    if n < 4 {
      assert s == [0, 0, 0][..n];
      ZeroPrefix(n);
    } else {
      assert s[..4] == BigEndian(|Payload(e)|, 4);
      assert s[4..] == Payload(e)[..n - 4];
    }
  }

  lemma ReadEnd()
    ensures ReadNext([]).0 == []
  {
  }

  lemma ZeroPrefix(n: nat)
    requires n < 4
    ensures FromBigEndian([0, 0, 0][..n]) == 0
  {
    assert [0, 0, 0][..n] == if n == 0 then [] else if n == 1 then [0] else if n == 2 then [0, 0] else [0, 0, 0];
    assert [0, 0][..1] == [0];
    assert [0, 0, 0][..2] == [0, 0];
    assert FromBigEndian([0]) == 0;
    assert FromBigEndian([0, 0]) == 0;
  }

  function Min(a: nat, b: nat): nat {
    if a < b then a else b
  }

  /** How many frames lie wholly within the first `n` bytes. */
  function Complete(entries: seq<Entry>, n: nat): nat {
    if entries == [] || n < |Frame(entries[0])| then 0
    else 1 + Complete(entries[1..], n - |Frame(entries[0])|)
  }

  /** How many bytes follow them. */
  function Leftover(entries: seq<Entry>, n: nat): nat {
    if entries == [] || n < |Frame(entries[0])| then n
    else Leftover(entries[1..], n - |Frame(entries[0])|)
  }

  lemma {:induction false} CompleteBound(entries: seq<Entry>, n: nat)
    ensures Complete(entries, n) <= |entries|
    ensures n == |Emit(entries)| ==> Complete(entries, n) == |entries|
  {
    if entries == [] || n < |Frame(entries[0])| {
    } else {
      CompleteBound(entries[1..], n - |Frame(entries[0])|);
    }
  }

  function EventsOf(entries: seq<Entry>): seq<CacheEvent> {
    seq(|entries|, i requires 0 <= i < |entries| => EventOf(entries[i]))
  }

  /**
   Wherever the writer's stream is cut, a reader that decodes by the specification gets exactly the
   entries whose frames are complete, in order, as far as its turns go: nothing is lost, invented or
   decoded from a partial frame.  It raises exactly when it still has a turn for the next message and
   the cut falls inside a payload, after its first byte.
   */
  lemma {:induction false} CutStream(entries: seq<Entry>, n: nat, turns: nat)
    requires n <= |Emit(entries)|
    ensures Complete(entries, n) <= |entries|
    ensures var r, k := ReadAll(DecodeEvent, Emit(entries)[..n], turns), Complete(entries, n);
            && r.events == EventsOf(entries[..Min(k, turns)])
            && (r.failed <==> turns > k && Leftover(entries, n) > 4)
  {
    hide Payload, DecodeEvent, ReadNext, Frame;
    CompleteBound(entries, n);
    if entries == [] {
      ReadEnd();
    } else if n < |Frame(entries[0])| {
      assert Emit(entries)[..n] == Frame(entries[0])[..n];
      FrameCut(entries[0], n);
      var msg := ReadNext(Frame(entries[0])[..n]).0;
      if msg != [] {
        PayloadPrefix(entries[0], |msg|);
      }
    } else if turns > 0 {
      var m := n - |Frame(entries[0])|;
      var rest := Emit(entries[1..])[..m];
      assert Emit(entries)[..n] == Frame(entries[0]) + rest;
      FrameRead(entries[0], rest);
      PayloadRoundTrip(entries[0]);
      PayloadSize(entries[0]);
      CutStream(entries[1..], m, turns - 1);
      EventsOfMore(entries, Min(Complete(entries[1..], m), turns - 1));
    }
  }

  lemma EventsOfMore(entries: seq<Entry>, k: nat)
    requires entries != [] && k <= |entries[1..]|
    ensures EventsOf(entries[..k + 1]) == [EventOf(entries[0])] + EventsOf(entries[1..][..k])
  {
    assert entries[..k + 1] == [entries[0]] + entries[1..][..k];
  }

  /**
   Over any decoder, the reader gives back the list (the total taken modulo 2^64), as far as its turns
   go, and does not fail if and only if the decoder takes each of those payloads to its entry by position.
   */
  lemma {:induction false} StreamReadIff(decode: Decoder, entries: seq<Entry>, turns: nat)
    ensures var k := Min(|entries|, turns);
            ReadAll(decode, Emit(entries), turns) == Reading(EventsOf(entries[..k]), false) <==>
            forall e | e in entries[..k] :: decode(Payload(e)) == Some(EventOf(e))
  {
    hide ReadAll, Payload, Emit, EventsOf, EventOf;
    if entries == [] || turns == 0 {
      ReadNothing(decode, entries, turns);
    } else {
      var e, rest := entries[0], entries[1..];
      var k := Min(|rest|, turns - 1);
      ReadFirst(decode, entries, turns);
      StreamReadIff(decode, rest, turns - 1);
      assert entries[..k + 1] == [e] + rest[..k];
      EventsOfMore(entries, k);
      var d, more := decode(Payload(e)), ReadAll(decode, Emit(rest), turns - 1);
      if d.Some? {
        SameList(d.value, more.events, EventOf(e), EventsOf(rest[..k]));
      }
    }
  }

  lemma ReadNothing(decode: Decoder, entries: seq<Entry>, turns: nat)
    requires entries == [] || turns == 0
    ensures ReadAll(decode, Emit(entries), turns) == Reading([], false) && EventsOf([]) == []
  {
    ReadEnd();
  }

  lemma ReadFirst(decode: Decoder, entries: seq<Entry>, turns: nat)
    requires entries != [] && turns > 0
    ensures var d, more := decode(Payload(entries[0])), ReadAll(decode, Emit(entries[1..]), turns - 1);
            ReadAll(decode, Emit(entries), turns) ==
            if d.None? then Reading([], true) else Reading([d.value] + more.events, more.failed)
  {
    hide Payload, ReadNext, Frame;
    FrameRead(entries[0], Emit(entries[1..]));
    PayloadSize(entries[0]);
  }

  lemma SameList<T>(x: T, xs: seq<T>, y: T, ys: seq<T>)
    ensures [x] + xs == [y] + ys <==> x == y && xs == ys
  {
    assert ([x] + xs)[0] == x && ([x] + xs)[1..] == xs;
    assert ([y] + ys)[0] == y && ([y] + ys)[1..] == ys;
  }

  /** Decoding by the specification gives back the whole list, if the process lives long enough. */
  lemma StreamRoundTrip(entries: seq<Entry>, turns: nat)
    ensures ReadAll(DecodeEvent, Emit(entries), turns) == Reading(EventsOf(entries[..Min(|entries|, turns)]), false)
  {
    forall e | e in entries[..Min(|entries|, turns)]
      ensures DecodeEvent(Payload(e)) == Some(EventOf(e))
    {
      PayloadRoundTrip(e);
    }
    StreamReadIff(DecodeEvent, entries, turns);
  }

  /** Entry by entry and field by field: the total read is the sum of the two counts in 64 bits. */
  lemma StreamFields(entries: seq<Entry>, turns: nat, i: nat)
    requires i < |entries| <= turns
    ensures var r := ReadAll(DecodeEvent, Emit(entries), turns);
            && !r.failed && |r.events| == |entries|
            && r.events[i].cpu == entries[i].cpu
            && r.events[i].tgid == entries[i].tgid
            && r.events[i].pid == entries[i].pid
            && r.events[i].total == (entries[i].l1i + entries[i].llc) % 0x1_0000_0000_0000_0000
            && r.events[i].l1i == entries[i].l1i
            && r.events[i].llc == entries[i].llc
  {
    hide ReadAll, DecodeEvent, Emit;
    StreamRoundTrip(entries, turns);
    assert entries[..|entries|] == entries;
  }

  predicate IsArray(bs: seq<byte>) {
    DecodeArrayHeader(bs).Some?
  }

  /** A decoder that takes no array, as one that expects a map does not, fails at the very first entry. */
  lemma ArraysRefused(decode: Decoder, entries: seq<Entry>, turns: nat)
    requires entries != [] && turns > 0 && forall bs | IsArray(bs) :: decode(bs) == None
    ensures ReadAll(decode, Emit(entries), turns) == Reading([], true)
  {
    hide ReadNext, Frame;
    FrameRead(entries[0], Emit(entries[1..]));
    PayloadSize(entries[0]);
    assert Payload(entries[0])[0] == 0x96;
    assert IsArray(Payload(entries[0]));
  }

  /** No encoding of the number, signed or unsigned, is shorter than the one written. */
  lemma UintShortest(v: u64, bs: seq<byte>)
    requires DecodeInt(bs) == Some((v, []))
    ensures |EncodeUint(v)| <= |bs|
  {
    Powers();
    UintSize(v);
    if |bs| > 1 {
      FromBigEndianBound(bs[1..]);
      assert bs[1..][..|bs| - 1] == bs[1..];
    }
  }

  /** The array header survives exactly up to 65535 elements; beyond that its size is cut to 16 bits. */
  lemma ArrayHeaderIff(size: u32, rest: seq<byte>)
    ensures DecodeArrayHeader(EncodeArrayHeader(size) + rest) == Some((size, rest)) <==> size < 0x1_0000
    ensures DecodeArrayHeader(EncodeArrayHeader(size) + rest) == Some((size % 0x1_0000, rest))
  {
    Powers();
    var bs := EncodeArrayHeader(size);
    assert (bs + rest)[1..] == bs[1..] + rest;
    if size > 15 {
      var low := size % 0x1_0000;
      BigEndianRoundTrip(low, 2);
      assert (BigEndian(low, 2) + rest)[..2] == BigEndian(low, 2);
      assert (BigEndian(low, 2) + rest)[2..] == rest;
    }
  }
}
