/** Writing packets as a capture, and reading the capture back. */
module PcapWriter {
  import opened Options
  import opened Bytes
  import opened Pcap

  /** The format the writer uses: little endian, microseconds. */
  const WRITTEN := Format(false, false)

  /** Version 2.4, zone 0, no significant figures, snap length 65535. */
  const MIDDLE: seq<Byte> := [2, 0, 4, 0, 0, 0, 0, 0, 0, 0, 0, 0, 0xff, 0xff, 0, 0]

  /** The 16-bit UDP length field, cut to its low bits when the payload is too long. */
  function UdpLength(p: Packet): U16 {
    (UDP_HEADER_LEN + |p.payload|) % 0x1_0000
  }

  function IpLength(p: Packet): U16 {
    (IP_HEADER_MIN_LEN + UDP_HEADER_LEN + |p.payload|) % 0x1_0000
  }

  function EthernetHeader(): (h: seq<Byte>)
    ensures |h| == 14
  {
    [0, 0, 0, 0, 0, 0, 0, 0, 0, 0, 0, 0, 0x08, 0x00]
  }

  function IpHeader(p: Packet): (h: seq<Byte>)
    ensures |h| == 20
  {
    [0x45, 0, IpLength(p) / 0x100, IpLength(p) % 0x100, 0, 0, 0, 0, 64, 17, 0, 0,
     p.src.ip.a, p.src.ip.b, p.src.ip.c, p.src.ip.d,
     p.dst.ip.a, p.dst.ip.b, p.dst.ip.c, p.dst.ip.d]
  }

  function UdpHeader(p: Packet): (h: seq<Byte>)
    ensures |h| == 8
  {
    [p.src.port / 0x100, p.src.port % 0x100, p.dst.port / 0x100, p.dst.port % 0x100,
     UdpLength(p) / 0x100, UdpLength(p) % 0x100, 0, 0]
  }

  function FrameHeader(p: Packet): (h: seq<Byte>)
    ensures |h| == 42
  {
    EthernetHeader() + IpHeader(p) + UdpHeader(p)
  }

  function ToRecord(p: Packet): (r: Record)
    ensures |r.frame| == |p.payload| + 42
  {
    Record(p.timestamp / 1_000_000_000 % 0x1_0000_0000, p.timestamp % 1_000_000_000 / 1000,
           (|p.payload| + 42) % 0x1_0000_0000, FrameHeader(p) + p.payload)
  }

  function ToRecords(ps: seq<Packet>): (rs: seq<Record>)
    ensures |rs| == |ps| && forall i :: 0 <= i < |ps| ==> rs[i] == ToRecord(ps[i])
  {
    if ps == [] then [] else [ToRecord(ps[0])] + ToRecords(ps[1..])
  }

  ghost function Capture(ps: seq<Packet>): seq<Byte> {
    FileHeader(WRITTEN, MIDDLE) + EncodeRecords(ToRecords(ps), false)
  }

  lemma {:induction false} EncodeSnoc(rs: seq<Record>, r: Record)
    ensures EncodeRecords(rs + [r], false) == EncodeRecords(rs, false) + (RecordHeader(r, false) + r.frame)
  {
    hide RecordHeader;
    if rs == [] {
      assert rs + [r] == [r];
      assert [r][1..] == [];
      assert EncodeRecords([], false) == [];
    } else {
      EncodeSnoc(rs[1..], r);
      assert (rs + [r])[1..] == rs[1..] + [r];
    }
  }

  /** The largest payload that the debug assertion lets through. */
  const ASSERTED: nat := 65507

  /** Debug builds check an assertion before each packet. */
  ghost predicate AssertionHolds(ps: seq<Packet>) {
    forall i :: 0 <= i < |ps| ==> |ps[i].payload| <= ASSERTED
  }

  /** One packet, field by field. */
  function WriteRecord(p: Packet): (bytes: seq<Byte>)
    ensures bytes == RecordHeader(ToRecord(p), false) + ToRecord(p).frame
  {
    hide PutU32, FrameHeader;
    var frameLen := (ETH_HEADER_LEN + IP_HEADER_MIN_LEN + UDP_HEADER_LEN + |p.payload|) % 0x1_0000_0000;
    PutU32(p.timestamp / 1_000_000_000 % 0x1_0000_0000, false)
    + PutU32(p.timestamp % 1_000_000_000 / 1000, false)
    + PutU32(frameLen, false) + PutU32(frameLen, false)
    + (FrameHeader(p) + p.payload)
  }

  /** The writer's loop; None stands for a failed assertion in a debug build. */
  method WriteBytes(ps: seq<Packet>, debug: bool) returns (r: Option<seq<Byte>>)
    ensures r.None? <==> debug && !AssertionHolds(ps)
    ensures r.Some? ==> r.value == Capture(ps)
    ensures r.None? <==> debug && exists i :: 0 <= i < |ps| && |ps[i].payload| > 65507
    ensures debug && r.Some? ==> Fits(ps)
  {
    hide EncodeRecords, PutU32, FrameHeader, RecordHeader, ToRecord, WriteRecord, ToRecords;
    var data := PutU32(0xa1b2c3d4, false) + MIDDLE + PutU32(LINKTYPE_ETHERNET, false);
    NothingEncoded();
    for i := 0 to |ps|
      invariant data == FileHeader(WRITTEN, MIDDLE) + EncodeRecords(ToRecords(ps[..i]), false)
      invariant debug ==> forall k :: 0 <= k < i ==> |ps[k].payload| <= ASSERTED
    {
      var p := ps[i];
      if debug && |p.payload| > ASSERTED {
        return None;
      }
      data := data + WriteRecord(p);
      OneMoreRecord(ps, i);
    }
    assert ps[..|ps|] == ps;
    return Some(data);
  }

  lemma OneMoreRecord(ps: seq<Packet>, i: nat)
    requires i < |ps|
    ensures EncodeRecords(ToRecords(ps[..i + 1]), false) ==
            EncodeRecords(ToRecords(ps[..i]), false) + WriteRecord(ps[i])
  {
    hide EncodeRecords, RecordHeader, ToRecord, WriteRecord;
    EncodeSnoc(ToRecords(ps[..i]), ToRecord(ps[i]));
    assert ToRecords(ps[..i + 1]) == ToRecords(ps[..i]) + [ToRecord(ps[i])];
  }

  lemma NothingEncoded()
    ensures EncodeRecords(ToRecords([]), false) == []
  {
  }

  // ----- One frame

  lemma EthernetBytes()
    ensures EthernetHeader()[12] == 8 && EthernetHeader()[13] == 0
  {
  }

  lemma IpBytes(p: Packet)
    ensures var h := IpHeader(p);
            && h[0] == 0x45 && h[6] == 0 && h[7] == 0 && h[9] == 17
            && h[12] == p.src.ip.a && h[13] == p.src.ip.b && h[14] == p.src.ip.c && h[15] == p.src.ip.d
            && h[16] == p.dst.ip.a && h[17] == p.dst.ip.b && h[18] == p.dst.ip.c && h[19] == p.dst.ip.d
  {
  }

  lemma UdpBytes(p: Packet)
    ensures var h := UdpHeader(p);
            && h[0] == p.src.port / 0x100 && h[1] == p.src.port % 0x100
            && h[2] == p.dst.port / 0x100 && h[3] == p.dst.port % 0x100
            && h[4] == UdpLength(p) / 0x100 && h[5] == UdpLength(p) % 0x100
  {
  }

  /** The bytes of a frame besides addresses, ports and payload. */
  lemma FrameFields(p: Packet)
    ensures var h := FrameHeader(p);
            && (forall i :: 0 <= i < 12 ==> h[i] == 0)
            && h[12] == 0x08 && h[13] == 0x00 && h[14] == 0x45 && h[15] == 0
            && h[16] as int * 0x100 + h[17] as int == (28 + |p.payload|) % 0x1_0000
            && h[18] == h[19] == h[20] == h[21] == 0 && h[22] == 64 && h[23] == 17 && h[24] == h[25] == 0
            && h[38] as int * 0x100 + h[39] as int == (8 + |p.payload|) % 0x1_0000
            && h[40] == h[41] == 0
  {
    var e, i, u := EthernetHeader(), IpHeader(p), UdpHeader(p);
    HalfOf(IpLength(p));
    HalfOf(UdpLength(p));
  }

  lemma HalfOf(x: U16)
    ensures x / 0x100 * 0x100 + x % 0x100 == x
  {
  }

  /** A capture starts with magic, version 2.4, zone and figures 0, snap length 65535 and link type 1. */
  lemma CaptureStarts(ps: seq<Packet>)
    ensures |Capture(ps)| >= 24
    ensures Capture(ps)[..24] ==
            [0xd4, 0xc3, 0xb2, 0xa1, 2, 0, 4, 0, 0, 0, 0, 0, 0, 0, 0, 0, 0xff, 0xff, 0, 0, 1, 0, 0, 0]
  {
    hide EncodeRecords, ToRecords;
    MagicBytes();
  }

  lemma MagicBytes()
    ensures PutU32(0xa1b2c3d4, false) == [0xd4, 0xc3, 0xb2, 0xa1] && PutU32(1, false) == [1, 0, 0, 0]
  {
    assert ToLe(0xa1b2c3d4, 4) == [0xd4] + ToLe(0xa1b2c3, 3);
    assert ToLe(0xa1b2c3, 3) == [0xc3] + ToLe(0xa1b2, 2);
    assert ToLe(0xa1b2, 2) == [0xb2] + ToLe(0xa1, 1);
    assert ToLe(0xa1, 1) == [0xa1] + ToLe(0, 0);
    assert ToLe(1, 4) == [1] + ToLe(0, 3);
    assert ToLe(0, 3) == [0] + ToLe(0, 2);
    assert ToLe(0, 2) == [0] + ToLe(0, 1);
    assert ToLe(0, 1) == [0] + ToLe(0, 0);
  }

  /** The three layers of a frame. */
  lemma FrameLayers(p: Packet)
    ensures var frame := FrameHeader(p) + p.payload;
            && |frame| == 42 + |p.payload|
            && frame[..14] == EthernetHeader()
            && frame[14..] == IpHeader(p) + (UdpHeader(p) + p.payload)
            && frame[14..][20..] == UdpHeader(p) + p.payload
            && frame[14..][20..][8..] == p.payload
  {
    hide EthernetHeader, IpHeader, UdpHeader;
    var e, i, u, d := EthernetHeader(), IpHeader(p), UdpHeader(p), p.payload;
    assert FrameHeader(p) + d == e + (i + (u + d));
    DropFirst(e, i + (u + d));
    DropFirst(i, u + d);
    DropFirst(u, d);
  }

  lemma DropFirst(a: seq<Byte>, b: seq<Byte>)
    ensures (a + b)[..|a|] == a && (a + b)[|a|..] == b
  {
  }

  /** What the parser makes of a written frame, whatever the payload's length. */
  lemma FrameParses(p: Packet, t: nat)
    ensures ParseUdpPacket(FrameHeader(p) + p.payload, t) ==
            if UdpLength(p) < 8 then None else Some(p.(timestamp := t, payload := p.payload[..UdpLength(p) - 8]))
  {
    hide FrameHeader, EthernetHeader, IpHeader, UdpHeader, UdpLength, FromBe16;
    var frame := FrameHeader(p) + p.payload;
    FrameLayers(p);
    EthernetBytes();
    IpBytes(p);
    UdpBytes(p);
    var ip := frame[14..];
    var udp := ip[20..];
    assert frame[12] == frame[..14][12] && frame[13] == frame[..14][13];
    PortBytes(frame, 12, 0x0800);
    PortBytes(ip, 6, 0);
    PortBytes(udp, 0, p.src.port);
    PortBytes(udp, 2, p.dst.port);
    PortBytes(udp, 4, UdpLength(p));
    LengthAtMost(p);
    if UdpLength(p) >= 8 {
      assert udp[8..UdpLength(p)] == udp[8..][..UdpLength(p) - 8];
    }
  }

  lemma LengthAtMost(p: Packet)
    ensures UdpLength(p) <= 8 + |p.payload|
  {
  }

  lemma PortBytes(b: seq<Byte>, i: nat, x: U16)
    requires i + 2 <= |b| && b[i] == x / 0x100 && b[i + 1] == x % 0x100
    ensures FromBe16(b[i..i + 2]) == x
  {
  }

  /** A written frame is read back unchanged exactly when its UDP length fits 16 bits. */
  lemma FrameRoundTrip(p: Packet, t: nat)
    ensures ParseUdpPacket(FrameHeader(p) + p.payload, t) == Some(p.(timestamp := t)) <==> |p.payload| <= 65527
  {
    hide ParseUdpPacket, FrameHeader;
    FrameParses(p, t);
    if UdpLength(p) >= 8 && |p.payload| > 65527 {
      assert |p.payload[..UdpLength(p) - 8]| < |p.payload|;
    }
    if |p.payload| <= 65527 {
      assert p.payload[..UdpLength(p) - 8] == p.payload;
    }
  }

  // ----- A whole capture

  /** The absolute time of a written record, in microseconds, with 32-bit seconds. */
  function Micros(ts: nat): nat {
    ts / 1_000_000_000 % 0x1_0000_0000 * 1_000_000 + ts % 1_000_000_000 / 1000
  }

  lemma MicrosExact(ts: nat)
    requires ts < 0x1_0000_0000 * 1_000_000_000
    ensures Micros(ts) == ts / 1000
  {
    var s, n := ts / 1_000_000_000, ts % 1_000_000_000;
    assert ts == s * 1_000_000_000 + n;
    assert n == 1000 * (n / 1000) + n % 1000;
    assert ts == 1000 * (s * 1_000_000 + n / 1000) + n % 1000;
  }

  /** Each packet, with its time cut to microseconds and counted from a first time. */
  function RebasedFrom(first: nat, ps: seq<Packet>): (qs: seq<Packet>)
    ensures |qs| == |ps|
    ensures forall i :: 0 <= i < |ps| ==>
              qs[i] == ps[i].(timestamp := SaturatingSub(Micros(ps[i].timestamp), first) * 1000)
  {
    if ps == [] then []
    else [ps[0].(timestamp := SaturatingSub(Micros(ps[0].timestamp), first) * 1000)] + RebasedFrom(first, ps[1..])
  }

  function Rebased(ps: seq<Packet>): seq<Packet> {
    if ps == [] then [] else RebasedFrom(Micros(ps[0].timestamp), ps)
  }

  ghost predicate Fits(ps: seq<Packet>) {
    forall i :: 0 <= i < |ps| ==> |ps[i].payload| <= 65527
  }

  lemma {:induction false} PacketsOfWritten(anchor: Option<nat>, ps: seq<Packet>)
    requires Fits(ps)
    ensures Packets(WRITTEN, anchor, ToRecords(ps)) ==
            if ps == [] then []
            else RebasedFrom(if anchor.Some? then anchor.value else Micros(ps[0].timestamp), ps)
    decreases |ps|
  {
    hide ParseUdpPacket, FrameHeader, Packets;
    NoPackets(WRITTEN, anchor);
    if ps != [] {
      var p, r := ps[0], ToRecord(ps[0]);
      FrameRoundTrip(p, 0);
      PacketsUnfold(WRITTEN, anchor, r, ToRecords(ps[1..]));
      assert Absolute(WRITTEN, r.sec, r.frac) == Micros(p.timestamp);
      var first := Anchor(WRITTEN, anchor, r);
      assert Since(WRITTEN, first, r) == SaturatingSub(Micros(p.timestamp), first) * 1000;
      PacketsOfWritten(Some(first), ps[1..]);
    }
  }

  /** At most one packet per record; when there is one per record, none was dropped or cut. */
  lemma {:induction false} OnePacketPerRecord(format: Format, anchor: Option<nat>, rs: seq<Record>, i: nat)
    ensures |Packets(format, anchor, rs)| <= |rs|
    ensures |Packets(format, anchor, rs)| == |rs| && i < |rs| ==>
              && ParseUdpPacket(rs[i].frame, 0).Some?
              && Packets(format, anchor, rs)[i].payload == ParseUdpPacket(rs[i].frame, 0).value.payload
    decreases |rs|
  {
    hide ParseUdpPacket, Packets;
    NoPackets(format, anchor);
    if rs != [] {
      var rest := rs[1..];
      assert rs == [rs[0]] + rest;
      PacketsUnfold(format, anchor, rs[0], rest);
      OnePacketPerRecord(format, anchor, rest, if i == 0 then 0 else i - 1);
      OnePacketPerRecord(format, Some(Anchor(format, anchor, rs[0])), rest, if i == 0 then 0 else i - 1);
    }
  }

  /**
   Writing packets and parsing the bytes gives back every address, port and
   payload in order, with times cut to microseconds and counted from the first
   packet, if and only if every payload is at most 65527 bytes.
   */
  lemma WriteParseRoundTrip(ps: seq<Packet>)
    ensures Parse(Capture(ps)) == Ok(Rebased(ps)) <==> Fits(ps)
  {
    hide ParseUdpPacket, FrameHeader, Packets, EncodeRecords, Records, FileHeader, Parse;
    if Fits(ps) {
      CaptureRoundTrip(WRITTEN, MIDDLE, ToRecords(ps));
      PacketsOfWritten(None, ps);
    }
    if Parse(Capture(ps)) == Ok(Rebased(ps)) {
      ParsedFit(Capture(ps), Rebased(ps));
      forall i | 0 <= i < |ps| ensures |ps[i].payload| <= 65527 {
        assert Rebased(ps)[i].payload == ps[i].payload;
      }
    }
  }

  lemma UdpPayloadFits(frame: seq<Byte>, t: nat)
    ensures ParseUdpPacket(frame, t).Some? ==> |ParseUdpPacket(frame, t).value.payload| <= 65527
  {
  }

  lemma {:induction false} ParsedPacketsFit(format: Format, anchor: Option<nat>, rs: seq<Record>)
    ensures Fits(Packets(format, anchor, rs))
    ensures anchor.None? && Packets(format, anchor, rs) != [] ==> Packets(format, anchor, rs)[0].timestamp == 0
    decreases |rs|
  {
    hide ParseUdpPacket, Packets;
    NoPackets(format, anchor);
    if rs != [] {
      assert rs == [rs[0]] + rs[1..];
      PacketsUnfold(format, anchor, rs[0], rs[1..]);
      UdpPayloadFits(rs[0].frame, 0);
      ParsedPacketsFit(format, anchor, rs[1..]);
      ParsedPacketsFit(format, Some(Anchor(format, anchor, rs[0])), rs[1..]);
    }
  }

  /** Whatever was parsed fits, and its first packet is at time 0. */
  lemma ParsedFit(data: seq<Byte>, ps: seq<Packet>)
    requires Parse(data) == Ok(ps)
    ensures Fits(ps) && (ps != [] ==> ps[0].timestamp == 0)
  {
    hide ParseUdpPacket, Packets, Records, ReadU32;
    var format := FormatOf(ReadLe(data, 0, 4)).value;
    ParsedPacketsFit(format, None, Records(data, 24, format.swap));
  }

  // ----- Fixtures: parse any capture, write what was found, parse again

  function CutToMicros(ps: seq<Packet>): (qs: seq<Packet>)
    ensures |qs| == |ps|
    ensures forall i :: 0 <= i < |ps| ==> qs[i] == ps[i].(timestamp := ps[i].timestamp / 1000 * 1000)
  {
    if ps == [] then [] else [ps[0].(timestamp := ps[0].timestamp / 1000 * 1000)] + CutToMicros(ps[1..])
  }

  /** The end of 32-bit seconds, in nanoseconds. */
  const WRITABLE_TIME: nat := 0x1_0000_0000 * 1_000_000_000

  lemma MicrosFit(ts: nat)
    ensures Micros(ts) == ts / 1000 <==> ts < WRITABLE_TIME
  {
    if ts < WRITABLE_TIME {
      MicrosExact(ts);
    } else {
      assert ts / 1_000_000_000 % 0x1_0000_0000 <= 0xffff_ffff;
      assert ts % 1_000_000_000 / 1000 < 1_000_000;
      assert Micros(ts) < 0x1_0000_0000 * 1_000_000;
      assert ts / 1000 >= 0x1_0000_0000 * 1_000_000;
    }
  }

  /**
   Whatever bytes a capture was parsed from, writing the parsed packets and
   parsing them again changes nothing but the digits below a microsecond, if and
   only if no packet lies 2^32 seconds or more after the first.
   */
  lemma FixtureIsFaithful(data: seq<Byte>, ps: seq<Packet>)
    requires Parse(data) == Ok(ps)
    ensures Parse(Capture(ps)) == Ok(CutToMicros(ps)) <==> forall i :: 0 <= i < |ps| ==> ps[i].timestamp < WRITABLE_TIME
  {
    hide Parse, Capture, Micros;
    ParsedFit(data, ps);
    WriteParseRoundTrip(ps);
    if ps != [] {
      MicrosExact(0);
      forall i | 0 <= i < |ps| ensures Rebased(ps)[i] == CutToMicros(ps)[i] <==> ps[i].timestamp < WRITABLE_TIME {
        MicrosFit(ps[i].timestamp);
      }
      assert Rebased(ps) == CutToMicros(ps) <==> forall i :: 0 <= i < |ps| ==> Rebased(ps)[i] == CutToMicros(ps)[i];
    }
  }

  /** Two records as far apart as a capture can have them: the second packet comes back at another time. */
  lemma LatePacketIsMoved(p: Packet)
    requires p.payload == [] && p.timestamp == 0
    ensures exists data: seq<Byte>, ps: seq<Packet> ::
              Parse(data) == Ok(ps) && |ps| == 2 && ps[0] == p && Parse(Capture(ps)) != Ok(CutToMicros(ps))
  {
    hide ParseUdpPacket, FrameHeader, Packets, EncodeRecords, Records, FileHeader, Parse, Capture;
    var frame := FrameHeader(p) + p.payload;
    var first, late := Record(0, 0, 42, frame), Record(0xffff_ffff, 0xffff_ffff, 42, frame);
    var rs := [first, late];
    CaptureRoundTrip(WRITTEN, MIDDLE, rs);
    FrameRoundTrip(p, 0);
    assert rs == [first] + [late] && [late] == [late] + [];
    PacketsUnfold(WRITTEN, None, first, [late]);
    PacketsUnfold(WRITTEN, Some(0), late, []);
    NoPackets(WRITTEN, Some(0));
    var ps := Packets(WRITTEN, None, rs);
    assert ps[1].timestamp == (0xffff_ffff * 1_000_000 + 0xffff_ffff) * 1000;
    FixtureIsFaithful(FileHeader(WRITTEN, MIDDLE) + EncodeRecords(rs, false), ps);
  }
}
