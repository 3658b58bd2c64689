/** Bytes and the two byte orders. */
module Bytes {
  type Byte = x: int | 0 <= x < 0x100
  type U16 = x: int | 0 <= x < 0x1_0000
  type U32 = x: int | 0 <= x < 0x1_0000_0000

  function Pow256(n: nat): nat {
    if n == 0 then 1 else 0x100 * Pow256(n - 1)
  }

  lemma Pow256Of4()
    ensures Pow256(4) == 0x1_0000_0000
  {
    assert Pow256(2) == 0x1_0000;
  }

  /** The n low bytes of x, least significant first. */
  function ToLe(x: nat, n: nat): (b: seq<Byte>)
    ensures |b| == n
  {
    if n == 0 then [] else [x % 0x100] + ToLe(x / 0x100, n - 1)
  }

  /** The n low bytes of x, most significant first. */
  function ToBe(x: nat, n: nat): (b: seq<Byte>)
    ensures |b| == n
  {
    if n == 0 then [] else ToBe(x / 0x100, n - 1) + [x % 0x100]
  }

  function ReadLe(data: seq<Byte>, off: nat, n: nat): (x: nat)
    requires off + n <= |data|
    ensures x < Pow256(n)
    decreases n
  {
    if n == 0 then 0 else data[off] as int + 0x100 * ReadLe(data, off + 1, n - 1)
  }

  function ReadBe(data: seq<Byte>, off: nat, n: nat): (x: nat)
    requires off + n <= |data|
    ensures x < Pow256(n)
  {
    if n == 0 then 0 else ReadBe(data, off, n - 1) * 0x100 + data[off + n - 1]
  }

  lemma {:induction false} ReadToLe(data: seq<Byte>, off: nat, n: nat, x: nat)
    requires off + n <= |data| && x < Pow256(n)
    requires data[off..off + n] == ToLe(x, n)
    ensures ReadLe(data, off, n) == x
    decreases n
  {
    if n > 0 {
      var part, high := data[off..off + n], ToLe(x / 0x100, n - 1);
      assert part == [x % 0x100] + high;
      assert part[0] == data[off];
      assert data[off + 1..off + n] == part[1..];
      assert part[1..] == high;
      ReadToLe(data, off + 1, n - 1, x / 0x100);
    }
  }

  lemma {:induction false} ReadToBe(data: seq<Byte>, off: nat, n: nat, x: nat)
    requires off + n <= |data| && x < Pow256(n)
    requires data[off..off + n] == ToBe(x, n)
    ensures ReadBe(data, off, n) == x
  {
    if n > 0 {
      var part, high := data[off..off + n], ToBe(x / 0x100, n - 1);
      assert part == high + [x % 0x100];
      assert part[n - 1] == data[off + n - 1];
      assert data[off..off + n - 1] == part[..n - 1];
      assert part[..n - 1] == high;
      ReadToBe(data, off, n - 1, x / 0x100);
    }
  }

  lemma LowByte(x: nat, high: nat, low: Byte)
    requires x == 0x100 * high + low
    ensures x % 0x100 == low && x / 0x100 == high
  {
  }

  lemma {:induction false} ToReadLe(data: seq<Byte>, off: nat, n: nat)
    requires off + n <= |data|
    ensures ToLe(ReadLe(data, off, n), n) == data[off..off + n]
    decreases n
  {
    if n > 0 {
      ToReadLe(data, off + 1, n - 1);
      LowByte(ReadLe(data, off, n), ReadLe(data, off + 1, n - 1), data[off]);
      assert data[off..off + n] == [data[off]] + data[off + 1..off + n];
    }
  }

  lemma {:induction false} ToReadBe(data: seq<Byte>, off: nat, n: nat)
    requires off + n <= |data|
    ensures ToBe(ReadBe(data, off, n), n) == data[off..off + n]
  {
    if n > 0 {
      ToReadBe(data, off, n - 1);
      LowByte(ReadBe(data, off, n), ReadBe(data, off, n - 1), data[off + n - 1]);
      assert data[off..off + n] == data[off..off + n - 1] + [data[off + n - 1]];
    }
  }

  /** The value whose four bytes are those of x in the opposite order. */
  function SwapBytes(x: U32): int {
    x % 0x100 * 0x100_0000 + x / 0x100 % 0x100 * 0x1_0000 + x / 0x1_0000 % 0x100 * 0x100 + x / 0x100_0000
  }

  lemma FourBytes(data: seq<Byte>, off: nat)
    requires off + 4 <= |data|
    ensures ReadLe(data, off, 4) ==
            data[off] as int + 0x100 * data[off + 1] as int + 0x1_0000 * data[off + 2] as int
            + 0x100_0000 * data[off + 3] as int
    ensures ReadBe(data, off, 4) ==
            0x100_0000 * data[off] as int + 0x1_0000 * data[off + 1] as int + 0x100 * data[off + 2] as int
            + data[off + 3] as int
  {
    assert ReadLe(data, off + 3, 1) == data[off + 3];
    assert ReadLe(data, off + 2, 2) == data[off + 2] as int + 0x100 * data[off + 3] as int;
    assert ReadBe(data, off, 1) == data[off];
    assert ReadBe(data, off, 2) == data[off] as int * 0x100 + data[off + 1] as int;
  }

  /** Reading the other byte order is reading little endian and swapping the bytes. */
  lemma SwapReadsBigEndian(data: seq<Byte>, off: nat)
    requires off + 4 <= |data|
    ensures ReadLe(data, off, 4) < 0x1_0000_0000
    ensures ReadBe(data, off, 4) == SwapBytes(ReadLe(data, off, 4))
  {
    FourBytes(data, off);
    DigitsOf(data[off], data[off + 1], data[off + 2], data[off + 3]);
  }

  lemma DigitsOf(a: Byte, b: Byte, c: Byte, d: Byte)
    ensures var x := a as int + 0x100 * b as int + 0x1_0000 * c as int + 0x100_0000 * d as int;
            && 0 <= x < 0x1_0000_0000
            && x % 0x100 == a && x / 0x100 % 0x100 == b && x / 0x1_0000 % 0x100 == c && x / 0x100_0000 == d
  {
    var x := a as int + 0x100 * b as int + 0x1_0000 * c as int + 0x100_0000 * d as int;
    assert x / 0x100 == b as int + 0x100 * c as int + 0x1_0000 * d as int;
    assert x / 0x1_0000 == c as int + 0x100 * d as int;
    assert x / 0x100_0000 == d;
  }

  function FromBe16(b: seq<Byte>): U16
    requires |b| == 2
  {
    b[0] as int * 0x100 + b[1]
  }
}

/**
 Pcap captures: the parser over arbitrary bytes and the writer it undoes.

 A capture is read as a list of raw records, which the frame parser then
 filters. The list of records is characterised in both directions: it is what
 an encoder of either byte order wrote, and any accepted bytes are the encoding
 of their records followed by an incomplete one.
 */
module Pcap {
  import opened Options
  import opened Bytes

  const ETH_HEADER_LEN := 14
  const IP_HEADER_MIN_LEN := 20
  const UDP_HEADER_LEN := 8
  const ETHERTYPE_IPV4 := 0x0800
  const IP_PROTO_UDP := 17
  const LINKTYPE_ETHERNET := 1

  datatype Ipv4 = Ipv4(a: Byte, b: Byte, c: Byte, d: Byte)
  datatype Endpoint = Endpoint(ip: Ipv4, port: U16)

  /** Timestamps are durations in nanoseconds. */
  datatype Packet = Packet(timestamp: nat, src: Endpoint, dst: Endpoint, payload: seq<Byte>)

  datatype Error = TooShort | BadMagic | UnsupportedLinkType
  datatype Result<T> = Ok(value: T) | Err(error: Error)

  /** Byte order and resolution of a capture, as its magic number tells them. */
  datatype Format = Format(swap: bool, nanoseconds: bool)
  {
    function Divisor(): nat {
      if nanoseconds then 1_000_000_000 else 1_000_000
    }
  }

  datatype Record = Record(sec: U32, frac: U32, origLen: U32, frame: seq<Byte>)

  // ----- Reading

  function ReadU32(data: seq<Byte>, off: nat, swap: bool): U32
    requires off + 4 <= |data|
  {
    Pow256Of4();
    if swap then ReadBe(data, off, 4) else ReadLe(data, off, 4)
  }

  function FormatOf(magic: nat): Option<Format> {
    if magic == 0xa1b2c3d4 then Some(Format(false, false))
    else if magic == 0xd4c3b2a1 then Some(Format(true, false))
    else if magic == 0xa1b23c4d then Some(Format(false, true))
    else if magic == 0x4d3cb2a1 then Some(Format(true, true))
    else None
  }

  /** There is no complete record at this offset. */
  predicate Incomplete(data: seq<Byte>, offset: nat, swap: bool) {
    offset + 16 > |data| || offset + 16 + ReadU32(data, offset + 8, swap) > |data|
  }

  function RecordAt(data: seq<Byte>, offset: nat, swap: bool): Record
    requires !Incomplete(data, offset, swap)
  {
    Record(ReadU32(data, offset, swap), ReadU32(data, offset + 4, swap), ReadU32(data, offset + 12, swap),
           data[offset + 16..offset + 16 + ReadU32(data, offset + 8, swap)])
  }

  /** The complete records from an offset on; a truncated one ends the list. */
  function Records(data: seq<Byte>, offset: nat, swap: bool): seq<Record>
    decreases |data| - offset
  {
    if Incomplete(data, offset, swap) then []
    else
      var r := RecordAt(data, offset, swap);
      [r] + Records(data, offset + 16 + |r.frame|, swap)
  }

  lemma RecordsUnfold(data: seq<Byte>, offset: nat, swap: bool)
    ensures Incomplete(data, offset, swap) ==> Records(data, offset, swap) == []
    ensures !Incomplete(data, offset, swap) ==>
              var r := RecordAt(data, offset, swap);
              Records(data, offset, swap) == [r] + Records(data, offset + 16 + |r.frame|, swap)
  {
    hide ReadU32;
  }

  /** A UDP datagram in an unfragmented IPv4 packet in an Ethernet frame, or nothing. */
  function ParseUdpPacket(data: seq<Byte>, timestamp: nat): Option<Packet> {
    if |data| < ETH_HEADER_LEN + IP_HEADER_MIN_LEN + UDP_HEADER_LEN then None
    else if FromBe16(data[12..14]) != ETHERTYPE_IPV4 then None
    else
      var ip := data[ETH_HEADER_LEN..];
      var ihl := (ip[0] % 16) * 4;
      if ihl < IP_HEADER_MIN_LEN || |ip| < ihl then None
      else if ip[9] != IP_PROTO_UDP then None
      else if FromBe16(ip[6..8]) % 0x4000 != 0 then None
      else
        var udp := ip[ihl..];
        if |udp| < UDP_HEADER_LEN then None
        else
          var udpLen := FromBe16(udp[4..6]);
          if udpLen < UDP_HEADER_LEN || udpLen > |udp| then None
          else Some(Packet(timestamp,
                           Endpoint(Ipv4(ip[12], ip[13], ip[14], ip[15]), FromBe16(udp[0..2])),
                           Endpoint(Ipv4(ip[16], ip[17], ip[18], ip[19]), FromBe16(udp[2..4])),
                           udp[UDP_HEADER_LEN..udpLen]))
  }

  function Absolute(format: Format, sec: U32, frac: U32): nat {
    sec * format.Divisor() + frac
  }

  function SaturatingSub(a: nat, b: nat): nat {
    if a < b then 0 else a - b
  }

  /** Nanoseconds since the anchor, never negative. */
  function Since(format: Format, anchor: nat, r: Record): nat {
    SaturatingSub(Absolute(format, r.sec, r.frac), anchor) * (1_000_000_000 / format.Divisor())
  }

  function Anchor(format: Format, anchor: Option<nat>, r: Record): nat {
    if anchor.Some? then anchor.value else Absolute(format, r.sec, r.frac)
  }

  /** The UDP packets among records, timed from the anchor, which the first of them sets. */
  function Packets(format: Format, anchor: Option<nat>, rs: seq<Record>): seq<Packet>
    decreases |rs|
  {
    if rs == [] then []
    else
      var p := ParseUdpPacket(rs[0].frame, 0);
      if p.None? then Packets(format, anchor, rs[1..])
      else
        var first := Anchor(format, anchor, rs[0]);
        [p.value.(timestamp := Since(format, first, rs[0]))] + Packets(format, Some(first), rs[1..])
  }

  lemma PacketsUnfold(format: Format, anchor: Option<nat>, r: Record, rest: seq<Record>)
    ensures Packets(format, anchor, [r] + rest) ==
            var p := ParseUdpPacket(r.frame, 0);
            if p.None? then Packets(format, anchor, rest)
            else
              var first := Anchor(format, anchor, r);
              [p.value.(timestamp := Since(format, first, r))] + Packets(format, Some(first), rest)
  {
    hide ParseUdpPacket, Since, Anchor;
    assert ([r] + rest)[1..] == rest;
  }

  lemma NoPackets(format: Format, anchor: Option<nat>)
    ensures Packets(format, anchor, []) == []
  {
  }

  function Parse(data: seq<Byte>): Result<seq<Packet>> {
    if |data| < 24 then Err(TooShort)
    else
      match FormatOf(ReadLe(data, 0, 4))
      case None => Err(BadMagic)
      case Some(format) =>
        if ReadU32(data, 20, format.swap) != LINKTYPE_ETHERNET then Err(UnsupportedLinkType)
        else Ok(Packets(format, None, Records(data, 24, format.swap)))
  }

  method ParseBytes(data: seq<Byte>) returns (r: Result<seq<Packet>>)
    ensures r == Parse(data)
  {
    hide ReadU32, Records, Packets, FormatOf;
    if |data| < 24 { return Err(TooShort); }
    var f := FormatOf(ReadLe(data, 0, 4));
    if f.None? { return Err(BadMagic); }
    var format := f.value;
    if ReadU32(data, 20, format.swap) != LINKTYPE_ETHERNET { return Err(UnsupportedLinkType); }
    var packets := ParseRecords(data, format);
    return Ok(packets);
  }

  /** The parser's loop. Sums and products stay below 2^64 by TimestampFits. */
  method ParseRecords(data: seq<Byte>, format: Format) returns (packets: seq<Packet>)
    requires |data| >= 24
    ensures packets == Packets(format, None, Records(data, 24, format.swap))
  {
    hide ParseUdpPacket, ReadU32, Records, Packets;
    packets := [];
    var offset := 24;
    var first: Option<nat> := None;
    while offset + 16 <= |data|
      invariant 24 <= offset <= |data|
      invariant packets + Packets(format, first, Records(data, offset, format.swap)) ==
                Packets(format, None, Records(data, 24, format.swap))
      decreases |data| - offset
    {
      ghost var start := offset;
      var sec := ReadU32(data, offset, format.swap);
      var frac := ReadU32(data, offset + 4, format.swap);
      var inclLen := ReadU32(data, offset + 8, format.swap);
      offset := offset + 16;
      if offset + inclLen > |data| {
        NoMorePackets(format, first, data, start);
        assert packets + [] == packets;
        return;
      }
      var frame := data[offset..offset + inclLen];
      offset := offset + inclLen;
      NextPacket(format, first, data, start);
      var p := ParseUdpPacket(frame, 0);
      if p.Some? {
        var now := Absolute(format, sec, frac);
        if first.None? {
          first := Some(now);
        }
        var stamp := SaturatingSub(now, first.value) * (1_000_000_000 / format.Divisor());
        packets := packets + [p.value.(timestamp := stamp)];
      }
    }
    NoMorePackets(format, first, data, offset);
    assert packets + [] == packets;
  }

  lemma NoMorePackets(format: Format, anchor: Option<nat>, data: seq<Byte>, offset: nat)
    requires Incomplete(data, offset, format.swap)
    ensures Packets(format, anchor, Records(data, offset, format.swap)) == []
  {
  }

  /** What one record adds to the packets of the rest. */
  lemma NextPacket(format: Format, anchor: Option<nat>, data: seq<Byte>, offset: nat)
    requires !Incomplete(data, offset, format.swap)
    ensures var r := RecordAt(data, offset, format.swap);
            var rest := Records(data, offset + 16 + |r.frame|, format.swap);
            var p := ParseUdpPacket(r.frame, 0);
            var first := Anchor(format, anchor, r);
            Packets(format, anchor, Records(data, offset, format.swap)) ==
            if p.None? then Packets(format, anchor, rest)
            else [p.value.(timestamp := Since(format, first, r))] + Packets(format, Some(first), rest)
  {
    hide ParseUdpPacket, ReadU32, Records, Packets, Since, Anchor;
    RecordsUnfold(data, offset, format.swap);
    var r := RecordAt(data, offset, format.swap);
    PacketsUnfold(format, anchor, r, Records(data, offset + 16 + |r.frame|, format.swap));
  }

  /** Every product and sum of the timestamp arithmetic fits in 64 bits. */
  lemma TimestampFits(format: Format, anchor: nat, r: Record)
    ensures Absolute(format, r.sec, r.frac) < 0x1_0000_0000_0000_0000
    ensures Since(format, anchor, r) < 0x1_0000_0000_0000_0000
  {
    var diff := SaturatingSub(Absolute(format, r.sec, r.frac), anchor);
    assert diff <= 0xffff_ffff * format.Divisor() + 0xffff_ffff;
    if format.nanoseconds {
      assert 1_000_000_000 / format.Divisor() == 1;
    } else {
      assert 1_000_000_000 / format.Divisor() == 1000;
    }
  }

  // ----- Encoding, in any of the four formats

  function PutU32(x: U32, swap: bool): (b: seq<Byte>)
    ensures |b| == 4
  {
    if swap then ToBe(x, 4) else ToLe(x, 4)
  }

  /** The length field holds the low 32 bits of the frame's length. */
  function LengthField(frame: seq<Byte>): U32 {
    |frame| % 0x1_0000_0000
  }

  lemma LengthFits(frame: seq<Byte>)
    requires |frame| < 0x1_0000_0000
    ensures LengthField(frame) == |frame|
  {
  }

  function RecordHeader(r: Record, swap: bool): (h: seq<Byte>)
    ensures |h| == 16
  {
    PutU32(r.sec, swap) + PutU32(r.frac, swap) + PutU32(LengthField(r.frame), swap) + PutU32(r.origLen, swap)
  }

  ghost predicate Encodable(rs: seq<Record>) {
    forall i :: 0 <= i < |rs| ==> |rs[i].frame| < 0x1_0000_0000
  }

  /** Each record is a sixteen-byte header and its frame. */
  function EncodeRecords(rs: seq<Record>, swap: bool): seq<Byte> {
    if rs == [] then []
    else RecordHeader(rs[0], swap) + rs[0].frame + EncodeRecords(rs[1..], swap)
  }

  function Magic(format: Format): U32 {
    if format.nanoseconds then 0xa1b23c4d else 0xa1b2c3d4
  }

  /** The four magic numbers, read in little endian, tell the four formats apart. */
  lemma MagicTellsFormat(data: seq<Byte>, format: Format)
    requires |data| >= 4 && data[0..4] == PutU32(Magic(format), format.swap)
    ensures FormatOf(ReadLe(data, 0, 4)) == Some(format)
  {
    hide PutU32, ReadLe, ReadBe;
    ReadPut(data, 0, Magic(format), format.swap);
    if format.swap {
      FourBytes(data, 0);
      DigitsOf(data[3], data[2], data[1], data[0]);
      assert data[0] == 0xa1 && data[1] == 0xb2;
      if format.nanoseconds {
        assert data[2] == 0x3c && data[3] == 0x4d;
      } else {
        assert data[2] == 0xc3 && data[3] == 0xd4;
      }
    }
  }

  /** Magic, sixteen bytes of version, zone, figures and snap length, and the link type. */
  function FileHeader(format: Format, middle: seq<Byte>): seq<Byte>
    requires |middle| == 16
  {
    PutU32(Magic(format), format.swap) + middle + PutU32(LINKTYPE_ETHERNET, format.swap)
  }

  lemma ReadPut(data: seq<Byte>, off: nat, x: U32, swap: bool)
    requires off + 4 <= |data| && data[off..off + 4] == PutU32(x, swap)
    ensures ReadU32(data, off, swap) == x
  {
    Pow256Of4();
    if swap { ReadToBe(data, off, 4, x); } else { ReadToLe(data, off, 4, x); }
  }

  lemma PutRead(data: seq<Byte>, off: nat, swap: bool)
    requires off + 4 <= |data|
    ensures PutU32(ReadU32(data, off, swap), swap) == data[off..off + 4]
  {
    if swap { ToReadBe(data, off, 4); } else { ToReadLe(data, off, 4); }
  }

  lemma FourWords(a: seq<Byte>, b: seq<Byte>, c: seq<Byte>, d: seq<Byte>)
    requires |a| == |b| == |c| == |d| == 4
    ensures var h := a + b + c + d;
            h[0..4] == a && h[4..8] == b && h[8..12] == c && h[12..16] == d
  {
  }

  /** The sixteen bytes at an offset are the header of r. */
  ghost predicate HeaderAt(data: seq<Byte>, o: nat, r: Record, swap: bool) {
    && o + 16 <= |data|
    && ReadU32(data, o, swap) == r.sec && ReadU32(data, o + 4, swap) == r.frac
    && ReadU32(data, o + 8, swap) == |r.frame| && ReadU32(data, o + 12, swap) == r.origLen
  }

  lemma ReadHeader(data: seq<Byte>, o: nat, r: Record, swap: bool)
    requires |r.frame| < 0x1_0000_0000
    requires o + 16 <= |data| && data[o..o + 16] == RecordHeader(r, swap)
    ensures HeaderAt(data, o, r, swap)
  {
    var h := RecordHeader(r, swap);
    LengthFits(r.frame);
    FourWords(PutU32(r.sec, swap), PutU32(r.frac, swap), PutU32(|r.frame|, swap), PutU32(r.origLen, swap));
    SubSlice(data, o, 16, 0, 4);
    SubSlice(data, o, 16, 4, 8);
    SubSlice(data, o, 16, 8, 12);
    SubSlice(data, o, 16, 12, 16);
    ReadPut(data, o, r.sec, swap);
    ReadPut(data, o + 4, r.frac, swap);
    ReadPut(data, o + 8, |r.frame|, swap);
    ReadPut(data, o + 12, r.origLen, swap);
  }

  lemma SubSlice(data: seq<Byte>, o: nat, n: nat, i: nat, j: nat)
    requires o + n <= |data| && i <= j <= n
    ensures data[o + i..o + j] == data[o..o + n][i..j]
  {
    var a, b := data[o + i..o + j], data[o..o + n][i..j];
    forall k | 0 <= k < j - i ensures a[k] == b[k] {
      assert b[k] == data[o..o + n][i + k];
    }
  }

  lemma ThreeParts(a: seq<Byte>, b: seq<Byte>, c: seq<Byte>, d: seq<Byte>)
    ensures var data := a + (b + c + d);
            && data[|a|..|a| + |b|] == b
            && data[|a| + |b|..|a| + |b| + |c|] == c
            && data == (a + b + c) + d
  {
  }

  /** Decoding undoes encoding, in both byte orders. */
  lemma {:induction false} RecordsOfEncoding(before: seq<Byte>, rs: seq<Record>, swap: bool)
    requires Encodable(rs)
    ensures Records(before + EncodeRecords(rs, swap), |before|, swap) == rs
    decreases |rs|
  {
    hide RecordHeader, ReadU32, Records;
    RecordsUnfold(before + EncodeRecords(rs, swap), |before|, swap);
    if rs != [] {
      var r, h, rest := rs[0], RecordHeader(rs[0], swap), EncodeRecords(rs[1..], swap);
      ThreeParts(before, h, r.frame, rest);
      ReadHeader(before + (h + r.frame + rest), |before|, r, swap);
      RecordsOfEncoding(before + h + r.frame, rs[1..], swap);
    }
  }

  /** A capture written in any format is read back as its records, then filtered. */
  lemma CaptureRoundTrip(format: Format, middle: seq<Byte>, rs: seq<Record>)
    requires |middle| == 16 && Encodable(rs)
    ensures Parse(FileHeader(format, middle) + EncodeRecords(rs, format.swap)) == Ok(Packets(format, None, rs))
  {
    var header := FileHeader(format, middle);
    var data := header + EncodeRecords(rs, format.swap);
    assert data[0..4] == header[0..4] == PutU32(Magic(format), format.swap);
    MagicTellsFormat(data, format);
    assert data[20..24] == header[20..24] == PutU32(LINKTYPE_ETHERNET, format.swap);
    ReadPut(data, 20, LINKTYPE_ETHERNET, format.swap);
    RecordsOfEncoding(header, rs, format.swap);
  }

  /** Encoding undoes decoding: the records account for every byte up to an incomplete record. */
  lemma {:induction false} EncodingOfRecords(data: seq<Byte>, offset: nat, swap: bool) returns (end: nat)
    requires offset <= |data|
    ensures offset <= end <= |data| && Encodable(Records(data, offset, swap))
    ensures EncodeRecords(Records(data, offset, swap), swap) == data[offset..end]
    ensures Incomplete(data, end, swap)
    decreases |data| - offset
  {
    hide RecordHeader, ReadU32, Records;
    RecordsUnfold(data, offset, swap);
    if Incomplete(data, offset, swap) {
      end := offset;
    } else {
      var r := RecordAt(data, offset, swap);
      var next := offset + 16 + |r.frame|;
      end := EncodingOfRecords(data, next, swap);
      WriteHeader(data, offset, r, swap);
      assert data[offset..end] == data[offset..offset + 16] + data[offset + 16..next] + data[next..end];
      assert Records(data, offset, swap)[1..] == Records(data, next, swap);
    }
  }

  lemma WriteHeader(data: seq<Byte>, o: nat, r: Record, swap: bool)
    requires HeaderAt(data, o, r, swap)
    ensures |r.frame| < 0x1_0000_0000 && RecordHeader(r, swap) == data[o..o + 16]
  {
    PutRead(data, o, swap);
    PutRead(data, o + 4, swap);
    PutRead(data, o + 8, swap);
    PutRead(data, o + 12, swap);
    LengthFits(r.frame);
    assert data[o..o + 16] == data[o..o + 4] + data[o + 4..o + 8] + data[o + 8..o + 12] + data[o + 12..o + 16];
  }

  // ----- Truncated files

  lemma ReadOfPrefix(data: seq<Byte>, cut: nat, off: nat, swap: bool)
    requires off + 4 <= cut <= |data|
    ensures ReadU32(data[..cut], off, swap) == ReadU32(data, off, swap)
  {
    SameRead(data[..cut], data, off, 4);
  }

  lemma {:induction false} SameRead(a: seq<Byte>, b: seq<Byte>, off: nat, n: nat)
    requires off + n <= |a| && off + n <= |b| && forall i :: off <= i < off + n ==> a[i] == b[i]
    ensures ReadLe(a, off, n) == ReadLe(b, off, n) && ReadBe(a, off, n) == ReadBe(b, off, n)
    decreases n
  {
    if n > 0 {
      SameRead(a, b, off + 1, n - 1);
      SameRead(a, b, off, n - 1);
    }
  }

  lemma {:induction false} RecordsOfPrefix(data: seq<Byte>, cut: nat, offset: nat, swap: bool)
    requires cut <= |data|
    ensures Records(data[..cut], offset, swap) <= Records(data, offset, swap)
    decreases |data| - offset
  {
    hide ReadU32, Records;
    RecordsUnfold(data[..cut], offset, swap);
    RecordsUnfold(data, offset, swap);
    if !Incomplete(data[..cut], offset, swap) {
      ReadOfPrefix(data, cut, offset, swap);
      ReadOfPrefix(data, cut, offset + 4, swap);
      ReadOfPrefix(data, cut, offset + 8, swap);
      ReadOfPrefix(data, cut, offset + 12, swap);
      var next := offset + 16 + ReadU32(data, offset + 8, swap);
      RecordsOfPrefix(data, cut, next, swap);
      assert data[..cut][offset + 16..next] == data[offset + 16..next];
    }
  }

  lemma {:induction false} PacketsOfPrefix(format: Format, anchor: Option<nat>, a: seq<Record>, b: seq<Record>)
    requires a <= b
    decreases |a|
    ensures Packets(format, anchor, a) <= Packets(format, anchor, b)
  {
    hide ParseUdpPacket, Since;
    if a != [] {
      PacketsOfPrefix(format, anchor, a[1..], b[1..]);
      PacketsOfPrefix(format, Some(Anchor(format, anchor, a[0])), a[1..], b[1..]);
    }
  }

  /** Cutting a capture anywhere after its header loses packets only from the end. */
  lemma TruncationGivesPrefix(data: seq<Byte>, cut: nat)
    requires Parse(data).Ok? && 24 <= cut <= |data|
    ensures Parse(data[..cut]).Ok? && Parse(data[..cut]).value <= Parse(data).value
  {
    var format := FormatOf(ReadLe(data, 0, 4)).value;
    ReadOfPrefix(data, cut, 0, false);
    ReadOfPrefix(data, cut, 20, format.swap);
    RecordsOfPrefix(data, cut, 24, format.swap);
    PacketsOfPrefix(format, None, Records(data[..cut], 24, format.swap), Records(data, 24, format.swap));
  }
}
