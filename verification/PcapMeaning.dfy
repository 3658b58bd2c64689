/**
 What the parser of captures makes of arbitrary bytes, by their offsets: which
 captures are refused, where the records start, which frames carry a packet,
 and what each packet holds.
 */
module PcapMeaning {
  import opened Options
  import opened Bytes
  import opened Pcap

  function Half(data: seq<Byte>, off: nat): nat
    requires off + 2 <= |data|
  {
    0x100 * data[off] as int + data[off + 1] as int
  }

  function Word(data: seq<Byte>, off: nat, swap: bool): nat
    requires off + 4 <= |data|
  {
    if swap then 0x1_0000 * Half(data, off) + Half(data, off + 2)
    else data[off] as int + 0x100 * data[off + 1] as int + 0x1_0000 * data[off + 2] as int
         + 0x100_0000 * data[off + 3] as int
  }

  lemma WordIsRead(data: seq<Byte>, off: nat, swap: bool)
    requires off + 4 <= |data|
    ensures ReadU32(data, off, swap) == Word(data, off, swap)
  {
    FourBytes(data, off);
  }

  // ----- One frame

  /** The offset of the UDP header: 14 bytes of Ethernet, and the length that the IP header says it has. */
  function UdpStart(frame: seq<Byte>): nat
    requires |frame| > 14
  {
    14 + frame[14] % 16 * 4
  }

  /**
   An IPv4 packet with a header of at least 20 bytes, UDP, neither a later
   fragment nor one with more to follow, with all of its UDP datagram. Other
   flags, options and padding do not matter.
   */
  predicate IsUdpFrame(frame: seq<Byte>) {
    && |frame| >= 42
    && frame[12] == 0x08 && frame[13] == 0x00
    && frame[14] % 16 >= 5 && UdpStart(frame) + 8 <= |frame|
    && frame[23] == 17
    && frame[20] % 0x40 == 0 && frame[21] == 0
    && 8 <= Half(frame, UdpStart(frame) + 4) <= |frame| - UdpStart(frame)
  }

  /** Addresses, ports and payload, each from its place in the frame. */
  predicate IsCarriedBy(p: Packet, frame: seq<Byte>)
    requires IsUdpFrame(frame)
  {
    var udp := UdpStart(frame);
    && p.src.ip == Ipv4(frame[26], frame[27], frame[28], frame[29]) && p.src.port == Half(frame, udp)
    && p.dst.ip == Ipv4(frame[30], frame[31], frame[32], frame[33]) && p.dst.port == Half(frame, udp + 2)
    && p.payload == frame[udp + 8..udp + Half(frame, udp + 4)]
  }

  lemma FlagsMean(a: Byte, b: Byte)
    ensures (a * 0x100 + b) % 0x4000 == 0 <==> a % 0x40 == 0 && b == 0
  {
    var q := a / 0x40;
    assert a * 0x100 + b == 0x4000 * q + (a % 0x40 * 0x100 + b);
    assert a % 0x40 * 0x100 + b < 0x4000;
  }

  /** The parser finds a packet in exactly the UDP frames, and finds what they carry. */
  lemma FrameMeans(frame: seq<Byte>, timestamp: nat)
    ensures ParseUdpPacket(frame, timestamp).Some? <==> IsUdpFrame(frame)
    ensures IsUdpFrame(frame) ==>
              var p := ParseUdpPacket(frame, timestamp).value;
              IsCarriedBy(p, frame) && p.timestamp == timestamp
  {
    if |frame| >= 42 {
      FlagsMean(frame[20], frame[21]);
      var ip, udp := frame[14..], UdpStart(frame);
      assert frame[12..14][0] == frame[12] && frame[12..14][1] == frame[13];
      assert ip[6..8][0] == frame[20] && ip[6..8][1] == frame[21];
      if udp + 8 <= |frame| {
        var rest := ip[frame[14] % 16 * 4..];
        assert rest == frame[udp..];
        assert FromBe16(rest[0..2]) == Half(frame, udp) && FromBe16(rest[2..4]) == Half(frame, udp + 2);
        assert FromBe16(rest[4..6]) == Half(frame, udp + 4);
      }
    }
  }

  // ----- The records of a capture

  /** There is no complete record at this offset. */
  predicate IsCutOff(data: seq<Byte>, at: nat, swap: bool) {
    at + 16 > |data| || at + 16 + Word(data, at + 8, swap) > |data|
  }

  /** Records start at byte `from` and follow one another, each 16 bytes and the length it says, up to a cut off one. */
  ghost predicate AreStarts(data: seq<Byte>, from: nat, swap: bool, at: seq<nat>) {
    && |at| > 0 && at[0] == from
    && (forall i :: 0 <= i < |at| - 1 ==>
          !IsCutOff(data, at[i], swap) && at[i + 1] == at[i] + 16 + Word(data, at[i] + 8, swap))
    && IsCutOff(data, at[|at| - 1], swap)
  }

  /** The record has its time and its frame from this offset. */
  predicate IsRecordAt(r: Record, data: seq<Byte>, at: nat, swap: bool) {
    && !IsCutOff(data, at, swap)
    && r.sec == Word(data, at, swap) && r.frac == Word(data, at + 4, swap)
    && r.frame == data[at + 16..at + 16 + Word(data, at + 8, swap)]
  }

  /** The records that are read, by the offsets they start at. */
  lemma {:induction false} RecordsMean(data: seq<Byte>, from: nat, swap: bool) returns (at: seq<nat>)
    ensures AreStarts(data, from, swap, at)
    ensures var rs := Records(data, from, swap);
            |rs| == |at| - 1 && forall i :: 0 <= i < |rs| ==> IsRecordAt(rs[i], data, at[i], swap)
    decreases |data| - from
  {
    hide ReadU32, Records, Word, AreStarts, IsRecordAt;
    RecordsUnfold(data, from, swap);
    IncompleteMeans(data, from, swap);
    if Incomplete(data, from, swap) {
      at := [from];
      NoStarts(data, from, swap);
    } else {
      var r := RecordAt(data, from, swap);
      RecordAtMeans(data, from, swap);
      var rest := RecordsMean(data, from + 16 + |r.frame|, swap);
      at := [from] + rest;
      OneMoreStart(data, from, swap, rest);
    }
  }

  lemma IncompleteMeans(data: seq<Byte>, at: nat, swap: bool)
    ensures Incomplete(data, at, swap) <==> IsCutOff(data, at, swap)
  {
    hide ReadU32, Word;
    if at + 16 <= |data| {
      WordIsRead(data, at + 8, swap);
    }
  }

  lemma RecordAtMeans(data: seq<Byte>, at: nat, swap: bool)
    requires !Incomplete(data, at, swap)
    ensures var r := RecordAt(data, at, swap);
            IsRecordAt(r, data, at, swap) && |r.frame| == Word(data, at + 8, swap)
  {
    hide ReadU32, Word;
    WordIsRead(data, at, swap);
    WordIsRead(data, at + 4, swap);
    WordIsRead(data, at + 8, swap);
  }

  lemma NoStarts(data: seq<Byte>, from: nat, swap: bool)
    requires IsCutOff(data, from, swap)
    ensures AreStarts(data, from, swap, [from])
  {
  }

  lemma OneMoreStart(data: seq<Byte>, from: nat, swap: bool, rest: seq<nat>)
    requires !IsCutOff(data, from, swap) && AreStarts(data, from + 16 + Word(data, from + 8, swap), swap, rest)
    ensures AreStarts(data, from, swap, [from] + rest)
  {
    hide Word;
    var at := [from] + rest;
    forall i | 0 <= i < |at| - 1
      ensures !IsCutOff(data, at[i], swap) && at[i + 1] == at[i] + 16 + Word(data, at[i] + 8, swap)
    {
      if i > 0 {
        assert at[i] == rest[i - 1] && at[i + 1] == rest[i];
      }
    }
  }

  // ----- The packets of a list of records

  /** A record's time in nanoseconds. */
  function Nanos(r: Record, nanoseconds: bool): nat {
    r.sec * 1_000_000_000 + r.frac * if nanoseconds then 1 else 1000
  }

  /** The number of UDP frames among the first i records. */
  function UdpBefore(rs: seq<Record>, i: nat): nat
    requires i <= |rs|
  {
    if i == 0 then 0 else UdpBefore(rs, i - 1) + if IsUdpFrame(rs[i - 1].frame) then 1 else 0
  }

  lemma {:induction false} UdpBeforeAgain(rs: seq<Record>, i: nat)
    requires i < |rs|
    ensures UdpBefore(rs, i + 1) == UdpBefore(rs[1..], i) + if IsUdpFrame(rs[0].frame) then 1 else 0
  {
    hide IsUdpFrame;
    if i > 0 {
      UdpBeforeAgain(rs, i - 1);
    }
  }

  lemma {:induction false} UdpBeforeGrows(rs: seq<Record>, i: nat, k: nat)
    requires i <= k <= |rs|
    ensures UdpBefore(rs, i) <= UdpBefore(rs, k)
    ensures i < k && IsUdpFrame(rs[i].frame) ==> UdpBefore(rs, i) < UdpBefore(rs, k)
  {
    hide IsUdpFrame;
    if i < k {
      UdpBeforeGrows(rs, i, k - 1);
    }
  }

  /** What the record's frame carries, as long after the start as the record is, and never before it. */
  predicate IsPacketOf(p: Packet, r: Record, start: nat, nanoseconds: bool)
    requires IsUdpFrame(r.frame)
  {
    && IsCarriedBy(p, r.frame)
    && p.timestamp == if Nanos(r, nanoseconds) < start then 0 else Nanos(r, nanoseconds) - start
  }

  lemma TimeMeans(format: Format, start: Record, r: Record)
    ensures Since(format, Absolute(format, start.sec, start.frac), r) ==
            if Nanos(r, format.nanoseconds) < Nanos(start, format.nanoseconds) then 0
            else Nanos(r, format.nanoseconds) - Nanos(start, format.nanoseconds)
  {
    if format.nanoseconds {
      assert 1_000_000_000 / format.Divisor() == 1;
    } else {
      assert 1_000_000_000 / format.Divisor() == 1000;
    }
  }

  /** Every UDP frame, and nothing else, gives a packet, and they keep their order. */
  ghost predicate ArePackets(ps: seq<Packet>, rs: seq<Record>, start: nat, nanoseconds: bool) {
    && |ps| == UdpBefore(rs, |rs|)
    && forall i: nat :: i < |rs| && IsUdpFrame(rs[i].frame) ==>
         UdpBefore(rs, i) < |ps| && IsPacketOf(ps[UdpBefore(rs, i)], rs[i], start, nanoseconds)
  }

  lemma {:induction false} PacketsFrom(format: Format, start: Record, rs: seq<Record>)
    ensures ArePackets(Packets(format, Some(Absolute(format, start.sec, start.frac)), rs), rs,
                       Nanos(start, format.nanoseconds), format.nanoseconds)
    decreases |rs|
  {
    hide ParseUdpPacket, Packets, IsUdpFrame, Absolute;
    var anchor := Absolute(format, start.sec, start.frac);
    if rs == [] {
      NoPackets(format, Some(anchor));
    } else {
      PacketsFrom(format, start, rs[1..]);
      FirstRecord(format, Some(anchor), start, rs);
    }
  }

  lemma CarriedAnyTime(p: Packet, frame: seq<Byte>, timestamp: nat)
    requires IsUdpFrame(frame) && IsCarriedBy(p, frame)
    ensures IsCarriedBy(p.(timestamp := timestamp), frame)
  {
  }

  /** One record in front of others that are timed from the same start. */
  lemma FirstRecord(format: Format, anchor: Option<nat>, start: Record, rs: seq<Record>)
    requires rs != []
    requires ParseUdpPacket(rs[0].frame, 0).Some? ==>
               Anchor(format, anchor, rs[0]) == Absolute(format, start.sec, start.frac)
    requires var rest := if ParseUdpPacket(rs[0].frame, 0).None? then anchor
                         else Some(Absolute(format, start.sec, start.frac));
             ArePackets(Packets(format, rest, rs[1..]), rs[1..], Nanos(start, format.nanoseconds), format.nanoseconds)
    ensures ArePackets(Packets(format, anchor, rs), rs, Nanos(start, format.nanoseconds), format.nanoseconds)
  {
    hide ParseUdpPacket, Packets, IsUdpFrame, Absolute, Nanos, Anchor, Since, IsCarriedBy, ArePackets;
    var ps := Packets(format, anchor, rs);
    assert rs == [rs[0]] + rs[1..];
    PacketsUnfold(format, anchor, rs[0], rs[1..]);
    FrameMeans(rs[0].frame, 0);
    TimeMeans(format, start, rs[0]);
    if IsUdpFrame(rs[0].frame) {
      CarriedAnyTime(ParseUdpPacket(rs[0].frame, 0).value, rs[0].frame, ps[0].timestamp);
      OneMorePacket(ps[0], ps[1..], rs, Nanos(start, format.nanoseconds), format.nanoseconds);
      assert [ps[0]] + ps[1..] == ps;
    } else {
      NoMoreForOther(ps, rs, Nanos(start, format.nanoseconds), format.nanoseconds);
    }
  }

  lemma OneMorePacket(p: Packet, ps: seq<Packet>, rs: seq<Record>, start: nat, nanoseconds: bool)
    requires rs != [] && IsUdpFrame(rs[0].frame) && IsPacketOf(p, rs[0], start, nanoseconds)
    requires ArePackets(ps, rs[1..], start, nanoseconds)
    ensures ArePackets([p] + ps, rs, start, nanoseconds)
  {
    hide IsUdpFrame, IsPacketOf;
    UdpBeforeAgain(rs, |rs| - 1);
    forall i: nat | i < |rs| && IsUdpFrame(rs[i].frame)
      ensures UdpBefore(rs, i) < |ps| + 1 && IsPacketOf(([p] + ps)[UdpBefore(rs, i)], rs[i], start, nanoseconds)
    {
      if i > 0 {
        UdpBeforeAgain(rs, i - 1);
        assert rs[1..][i - 1] == rs[i];
      }
    }
  }

  lemma NoMoreForOther(ps: seq<Packet>, rs: seq<Record>, start: nat, nanoseconds: bool)
    requires rs != [] && !IsUdpFrame(rs[0].frame) && ArePackets(ps, rs[1..], start, nanoseconds)
    ensures ArePackets(ps, rs, start, nanoseconds)
  {
    hide IsUdpFrame, IsPacketOf;
    UdpBeforeAgain(rs, |rs| - 1);
    forall i: nat | i < |rs| && IsUdpFrame(rs[i].frame)
      ensures UdpBefore(rs, i) < |ps| && IsPacketOf(ps[UdpBefore(rs, i)], rs[i], start, nanoseconds)
    {
      UdpBeforeAgain(rs, i - 1);
      assert rs[1..][i - 1] == rs[i];
    }
  }

  /** The first UDP frame sets the start. */
  predicate IsFirstUdp(rs: seq<Record>, f: nat) {
    f < |rs| && IsUdpFrame(rs[f].frame) && UdpBefore(rs, f) == 0
  }

  lemma {:induction false} PacketsMean(format: Format, rs: seq<Record>, f: nat)
    requires IsFirstUdp(rs, f)
    ensures ArePackets(Packets(format, None, rs), rs, Nanos(rs[f], format.nanoseconds), format.nanoseconds)
    decreases |rs|
  {
    hide ParseUdpPacket, Packets, IsUdpFrame, Nanos, ArePackets, Absolute;
    FrameMeans(rs[0].frame, 0);
    if f == 0 {
      PacketsFrom(format, rs[0], rs[1..]);
    } else {
      UdpBeforeGrows(rs, 0, f);
      UdpBeforeAgain(rs, f - 1);
      PacketsMean(format, rs[1..], f - 1);
    }
    FirstRecord(format, None, rs[f], rs);
  }

  lemma {:induction false} NoUdpNoPackets(format: Format, rs: seq<Record>)
    requires UdpBefore(rs, |rs|) == 0
    ensures Packets(format, None, rs) == []
    decreases |rs|
  {
    hide ParseUdpPacket, Packets, IsUdpFrame;
    if rs == [] {
      NoPackets(format, None);
    } else {
      UdpBeforeAgain(rs, |rs| - 1);
      FrameMeans(rs[0].frame, 0);
      assert rs == [rs[0]] + rs[1..];
      PacketsUnfold(format, None, rs[0], rs[1..]);
      NoUdpNoPackets(format, rs[1..]);
    }
  }

  // ----- A whole capture

  predicate StartsWith(data: seq<Byte>, a: Byte, b: Byte, c: Byte, d: Byte)
    requires |data| >= 4
  {
    data[0] == a && data[1] == b && data[2] == c && data[3] == d
  }

  /** The first four bytes: the magic number in either order, for microseconds or nanoseconds. */
  predicate HasMagic(data: seq<Byte>, swap: bool, nanoseconds: bool)
    requires |data| >= 4
  {
    if nanoseconds then
      if swap then StartsWith(data, 0xa1, 0xb2, 0x3c, 0x4d) else StartsWith(data, 0x4d, 0x3c, 0xb2, 0xa1)
    else
      if swap then StartsWith(data, 0xa1, 0xb2, 0xc3, 0xd4) else StartsWith(data, 0xd4, 0xc3, 0xb2, 0xa1)
  }

  lemma MagicMeans(data: seq<Byte>, format: Format)
    requires |data| >= 4
    ensures FormatOf(ReadLe(data, 0, 4)) == Some(format) <==> HasMagic(data, format.swap, format.nanoseconds)
  {
    hide ReadLe, StartsWith;
    MagicIs(data, 0xa1b2c3d4, 0xd4, 0xc3, 0xb2, 0xa1);
    MagicIs(data, 0xd4c3b2a1, 0xa1, 0xb2, 0xc3, 0xd4);
    MagicIs(data, 0xa1b23c4d, 0x4d, 0x3c, 0xb2, 0xa1);
    MagicIs(data, 0x4d3cb2a1, 0xa1, 0xb2, 0x3c, 0x4d);
  }

  lemma MagicIs(data: seq<Byte>, magic: nat, a: Byte, b: Byte, c: Byte, d: Byte)
    requires |data| >= 4
    requires magic == a as int + 0x100 * b as int + 0x1_0000 * c as int + 0x100_0000 * d as int
    ensures ReadLe(data, 0, 4) == magic <==> StartsWith(data, a, b, c, d)
  {
    FourBytes(data, 0);
    hide ReadLe;
    SameDigits(data[0], data[1], data[2], data[3], a, b, c, d);
  }

  lemma SameDigits(a: Byte, b: Byte, c: Byte, d: Byte, p: Byte, q: Byte, r: Byte, s: Byte)
    ensures a as int + 0x100 * b as int + 0x1_0000 * c as int + 0x100_0000 * d as int ==
            p as int + 0x100 * q as int + 0x1_0000 * r as int + 0x100_0000 * s as int <==>
            a == p && b == q && c == r && d == s
  {
    DigitsOf(a, b, c, d);
    DigitsOf(p, q, r, s);
  }

  /** Which captures are refused, and why. */
  lemma ErrorsMean(data: seq<Byte>)
    ensures Parse(data) == Err(TooShort) <==> |data| < 24
    ensures |data| >= 24 ==>
              (Parse(data) == Err(BadMagic) <==> forall swap, nanoseconds :: !HasMagic(data, swap, nanoseconds))
    ensures |data| >= 24 ==> forall swap, nanoseconds :: HasMagic(data, swap, nanoseconds) ==>
              (Parse(data) == Err(UnsupportedLinkType) <==> Word(data, 20, swap) != 1)
  {
    hide Packets, Records, ReadU32, FormatOf, HasMagic, Word;
    if |data| >= 24 {
      var f := FormatOf(ReadLe(data, 0, 4));
      forall swap, nanoseconds ensures f == Some(Format(swap, nanoseconds)) <==> HasMagic(data, swap, nanoseconds) {
        MagicMeans(data, Format(swap, nanoseconds));
      }
      if f.Some? {
        assert HasMagic(data, f.value.swap, f.value.nanoseconds);
        WordIsRead(data, 20, f.value.swap);
      }
    }
  }

  /** What an accepted capture holds: its records by their offsets, and the packets of their frames. */
  lemma CaptureMeans(data: seq<Byte>, ps: seq<Packet>, swap: bool, nanoseconds: bool)
    returns (at: seq<nat>, rs: seq<Record>)
    requires Parse(data) == Ok(ps) && |data| >= 24 && HasMagic(data, swap, nanoseconds)
    ensures AreStarts(data, 24, swap, at) && |rs| == |at| - 1
    ensures forall i :: 0 <= i < |rs| ==> IsRecordAt(rs[i], data, at[i], swap)
    ensures |ps| == UdpBefore(rs, |rs|)
    ensures forall f: nat :: IsFirstUdp(rs, f) ==> ArePackets(ps, rs, Nanos(rs[f], nanoseconds), nanoseconds)
  {
    hide Packets, Records, ReadU32, FormatOf, HasMagic, ArePackets, IsRecordAt, AreStarts, Nanos, IsUdpFrame;
    MagicMeans(data, Format(swap, nanoseconds));
    rs := Records(data, 24, swap);
    at := RecordsMean(data, 24, swap);
    forall f: nat | IsFirstUdp(rs, f) ensures ArePackets(ps, rs, Nanos(rs[f], nanoseconds), nanoseconds) {
      PacketsMean(Format(swap, nanoseconds), rs, f);
    }
    PacketCount(Format(swap, nanoseconds), rs);
  }

  lemma PacketCount(format: Format, rs: seq<Record>)
    ensures |Packets(format, None, rs)| == UdpBefore(rs, |rs|)
  {
    hide ParseUdpPacket, Packets, IsUdpFrame, Nanos;
    if UdpBefore(rs, |rs|) == 0 {
      NoUdpNoPackets(format, rs);
    } else {
      var f := FirstUdp(rs, |rs|);
      PacketsMean(format, rs, f);
    }
  }

  lemma {:induction false} FirstUdp(rs: seq<Record>, i: nat) returns (f: nat)
    requires i <= |rs| && UdpBefore(rs, i) > 0
    ensures IsFirstUdp(rs, f)
  {
    hide IsUdpFrame;
    if UdpBefore(rs, i - 1) > 0 {
      f := FirstUdp(rs, i - 1);
    } else {
      f := i - 1;
    }
  }
}
