/** Which frames the parsers accept, and where the builders put each field, byte by byte. */
module NetLaws {
  import opened Bytes
  import opened Net

  // -------------------------------------------------------------- checksum

  /** Every byte at an even place weighs 256, every other one 1. */
  function Weighed(s: seq<byte>): nat {
    if s == [] then 0
    else Weighed(s[..|s| - 1]) + s[|s| - 1] as nat * (if (|s| - 1) % 2 == 0 then 256 else 1)
  }

  lemma {:induction false} WeighedFront(s: seq<byte>)
    requires |s| >= 2
    ensures Weighed(s) == s[0] as nat * 256 + s[1] as nat + Weighed(s[2..])
  {
    if |s| == 2 {
      assert s[..1] == [s[0]] && s[..1][..0] == [];
      assert Weighed(s[..1]) == s[0] as nat * 256;
      assert s[2..] == [];
    } else {
      var n := |s| - 1;
      WeighedFront(s[..n]);
      assert s[..n][2..] == s[2..][..n - 2];
      assert s[2..][n - 2] == s[n];
      assert (n - 2) % 2 == n % 2;
    }
  }

  lemma {:induction false} SumIsWeighed(s: seq<byte>)
    ensures Sum(s) == Weighed(s)
  {
    if |s| == 1 {
      assert s[..0] == [];
    } else if |s| >= 2 {
      WeighedFront(s);
      SumIsWeighed(s[2..]);
    }
  }

  /** A region verifies exactly when its weight is a positive multiple of 65535. */
  ghost predicate Whole(weight: nat) { weight > 0 && weight % 0xffff == 0 }

  lemma ChecksumExact(carry: nat, s: seq<byte>)
    ensures Checksum(carry, s) == 0 <==> Whole(carry + Weighed(s))
  {
    hide Fold, Sum, Weighed;
    SumIsWeighed(s);
    FoldIsResidue(carry + Sum(s));
    if Whole(carry + Sum(s)) {
      FoldsToOnes(carry + Sum(s));
    }
  }

  /** What the pseudo-header adds: both addresses, the protocol and the length. */
  ghost function PseudoWeight(proto: byte, src: nat, dst: nat, n: nat): nat {
    src / 0x1_0000 + src % 0x1_0000 + dst / 0x1_0000 + dst % 0x1_0000 + proto as nat + n % 0x1_0000
  }

  lemma PseudoIs(proto: byte, src: nat, dst: nat, n: nat)
    requires Word32(src) && Word32(dst)
    ensures Pseudo(proto, src, dst, n) == PseudoWeight(proto, src, dst, n)
  {
    hide Get16;
    var a, b, c, d := src / 0x1_0000, src % 0x1_0000, dst / 0x1_0000, dst % 0x1_0000;
    var w := n % 0x1_0000;
    var s := B32(src) + B32(dst) + [0, proto] + B16(w);
    WordsSum(B16(a), B16(b) + (B32(dst) + [0, proto] + B16(w)), s);
    WordsSum(B16(b), B32(dst) + [0, proto] + B16(w), B16(b) + (B32(dst) + [0, proto] + B16(w)));
    WordsSum(B16(c), B16(d) + ([0, proto] + B16(w)), B32(dst) + [0, proto] + B16(w));
    WordsSum(B16(d), [0, proto] + B16(w), B16(d) + ([0, proto] + B16(w)));
    WordsSum([0, proto], B16(w), [0, proto] + B16(w));
    WordsSum(B16(w), [], B16(w));
    assert Get16([0, proto], 0) == proto as nat by { ZeroHigh(proto); }
  }

  lemma ZeroHigh(b: byte)
    ensures Get16([0, b], 0) == b as nat
  {
  }

  lemma WordsSum(head: seq<byte>, rest: seq<byte>, s: seq<byte>)
    requires |head| == 2 && s == head + rest
    ensures Sum(s) == Get16(head, 0) + Sum(rest)
  {
    assert s[2..] == rest && s[0] == head[0] && s[1] == head[1];
  }

  // --------------------------------------------------------------- parsing

  /** An unfragmented IPv4 packet for this protocol from this address, whose header verifies. */
  ghost predicate IsPacket(f: seq<byte>, proto: byte, from: nat, header: nat, total: nat) {
    && 34 <= |f| && f[12] == 8 && f[13] == 0
    && f[14] as nat == 64 + header / 4 && header % 4 == 0 && 20 <= header <= 60
    && f[16] as nat * 256 + f[17] as nat == total && header <= total && 14 + total <= |f|
    && f[20] as nat % 64 == 0 && f[21] == 0 && f[23] == proto
    && ((f[26] as nat * 256 + f[27] as nat) * 256 + f[28] as nat) * 256 + f[29] as nat == from
    && Whole(Weighed(f[14..14 + header]))
  }

  lemma IpExact(f: seq<byte>, proto: byte, least: nat, from: nat, header: nat, total: nat)
    requires |f| >= 34 + least
    ensures ParseIp(f, proto, least, from) == Ip(header, total) <==> IsPacket(f, proto, from, header, total) && header + least <= total
  {
    hide Checksum, Weighed, Whole;
    Nibbles(f[14], header);
    Fragment(f[20], f[21]);
    TypeWord(f[12], f[13]);
    var h := f[14] % 16 * 4;
    if 14 + h <= |f| {
      ChecksumExact(0, f[14..14 + h]);
    }
  }

  lemma Nibbles(b: byte, header: nat)
    ensures b / 16 == 4 && b % 16 >= 5 && header == b % 16 * 4 <==> b as nat == 64 + header / 4 && header % 4 == 0 && 20 <= header <= 60
  {
  }

  lemma Fragment(a: byte, b: byte)
    ensures (a as nat * 256 + b) % 0x4000 == 0 <==> a as nat % 64 == 0 && b == 0
  {
  }

  lemma TypeWord(a: byte, b: byte)
    ensures a as nat * 256 + b == 0x800 <==> a == 8 && b == 0
  {
  }

  /** The transport segment sums to all ones under the pseudo-header of its packet. */
  ghost predicate Sums(f: seq<byte>, proto: byte, at: nat, n: nat)
    requires 34 <= |f| && at + n <= |f|
  {
    var src := ((f[26] as nat * 256 + f[27] as nat) * 256 + f[28] as nat) * 256 + f[29] as nat;
    var dst := ((f[30] as nat * 256 + f[31] as nat) * 256 + f[32] as nat) * 256 + f[33] as nat;
    Whole(PseudoWeight(proto, src, dst, n) + Weighed(f[at..at + n]))
  }

  lemma SumsExact(f: seq<byte>, proto: byte, at: nat, n: nat)
    requires 34 <= |f| && at + n <= |f|
    ensures SegmentVerifies(proto, Get32(f, 26), Get32(f, 30), f[at..at + n]) <==> Sums(f, proto, at, n)
  {
    hide Checksum, Pseudo, PseudoWeight, Weighed, Whole;
    var src, dst := Get32(f, 26), Get32(f, 30);
    assert Word32(src) && Word32(dst);
    PseudoIs(proto, src, dst, n);
    ChecksumExact(Pseudo(proto, src, dst, |f[at..at + n]|), f[at..at + n]);
  }

  /** The frame carries a datagram with these ports and this payload, unsummed or summing to all ones. */
  ghost predicate Carries(f: seq<byte>, from: nat, sport: nat, dport: nat, payload: seq<byte>, header: nat, total: nat) {
    && IsPacket(f, 17, from, header, total) && |payload| <= 248 && header + 8 + |payload| <= total
    && var u := 14 + header;
       && f[u] as nat * 256 + f[u + 1] as nat == sport && f[u + 2] as nat * 256 + f[u + 3] as nat == dport
       && f[u + 4] as nat * 256 + f[u + 5] as nat == 8 + |payload| && f[u + 8..u + 8 + |payload|] == payload
       && ((f[u + 6] == 0 && f[u + 7] == 0) || Sums(f, 17, u, 8 + |payload|))
  }

  /** A datagram is received exactly when the frame carries it. */
  lemma UdpExact(f: seq<byte>, from: nat, sport: nat, dport: nat, payload: seq<byte>)
    ensures ParseUdp(f, from, sport, dport) == Datagram(payload) <==>
              |f| >= 42 && exists header: nat, total: nat :: Carries(f, from, sport, dport, payload, header, total)
  {
    hide ParseIp, IsPacket, Sums, SegmentVerifies;
    if |f| >= 42 {
      var ip := ParseIp(f, 17, 8, from);
      if ip.Ip? {
        UdpAt(f, from, sport, dport, payload, ip.header, ip.total);
      }
      forall header: nat, total: nat | Carries(f, from, sport, dport, payload, header, total)
        ensures ParseUdp(f, from, sport, dport) == Datagram(payload)
      {
        IpExact(f, 17, 8, from, header, total);
        UdpAt(f, from, sport, dport, payload, header, total);
      }
    }
  }

  lemma UdpAt(f: seq<byte>, from: nat, sport: nat, dport: nat, payload: seq<byte>, header: nat, total: nat)
    requires |f| >= 42 && ParseIp(f, 17, 8, from) == Ip(header, total)
    ensures ParseUdp(f, from, sport, dport) == Datagram(payload) <==> Carries(f, from, sport, dport, payload, header, total)
  {
    hide ParseIp, Sums, SegmentVerifies, Weighed, Whole;
    IpExact(f, 17, 8, from, header, total);
    var u := 14 + header;
    var length := Get16(f, u + 4);
    if 8 <= length <= total - header {
      SumsExact(f, 17, u, length);
    }
  }

  /** The frame carries a segment with this header and payload that sums to all ones. */
  ghost predicate CarriesTcp(f: seq<byte>, from: nat, h: Tcp, payload: seq<byte>, header: nat, total: nat, offset: nat) {
    && IsPacket(f, 6, from, header, total) && |payload| <= 248 && 20 <= offset && header + offset + |payload| == total
    && var t := 14 + header;
       && f[t] as nat * 256 + f[t + 1] as nat == h.sport && f[t + 2] as nat * 256 + f[t + 3] as nat == h.dport
       && ((f[t + 4] as nat * 256 + f[t + 5] as nat) * 256 + f[t + 6] as nat) * 256 + f[t + 7] as nat == h.seqno
       && ((f[t + 8] as nat * 256 + f[t + 9] as nat) * 256 + f[t + 10] as nat) * 256 + f[t + 11] as nat == h.ack
       && f[t + 12] as nat / 16 * 4 == offset && f[t + 13] == h.flags && f[t + 14] as nat * 256 + f[t + 15] as nat == h.window
       && f[t + offset..t + offset + |payload|] == payload && Sums(f, 6, t, offset + |payload|)
  }

  /** A segment is received exactly when the frame carries it. */
  lemma TcpExact(f: seq<byte>, from: nat, h: Tcp, payload: seq<byte>)
    ensures ParseTcp(f, from, h.sport, h.dport) == Segment(h, payload) <==>
              |f| >= 54 && exists header: nat, total: nat, offset: nat :: CarriesTcp(f, from, h, payload, header, total, offset)
  {
    hide ParseIp, IsPacket, Sums, SegmentVerifies;
    if |f| >= 54 {
      var ip := ParseIp(f, 6, 20, from);
      if ip.Ip? {
        TcpAt(f, from, h, payload, ip.header, ip.total, f[14 + ip.header + 12] as nat / 16 * 4);
      }
      forall header: nat, total: nat, offset: nat | CarriesTcp(f, from, h, payload, header, total, offset)
        ensures ParseTcp(f, from, h.sport, h.dport) == Segment(h, payload)
      {
        IpExact(f, 6, 20, from, header, total);
        TcpAt(f, from, h, payload, header, total, offset);
      }
    }
  }

  lemma TcpAt(f: seq<byte>, from: nat, h: Tcp, payload: seq<byte>, header: nat, total: nat, offset: nat)
    requires |f| >= 54 && ParseIp(f, 6, 20, from) == Ip(header, total) && offset == f[14 + header + 12] as nat / 16 * 4
    ensures ParseTcp(f, from, h.sport, h.dport) == Segment(h, payload) <==> CarriesTcp(f, from, h, payload, header, total, offset)
  {
    hide ParseIp, Sums, SegmentVerifies, Weighed, Whole;
    IpExact(f, 6, 20, from, header, total);
    SumsExact(f, 6, 14 + header, total - header);
  }

  // -------------------------------------------------------------- building

  /** A built datagram carries what it was built from, between the right stations and addresses, with a checksum. */
  lemma UdpBuilt(l: Link, src: nat, sport: nat, dst: nat, dport: nat, payload: seq<byte>)
    requires LinkOk(l) && Word32(src) && Word32(dst) && Word16(sport) && Word16(dport) && |payload| <= 248
    ensures var f := UdpFrame(l, src, sport, dst, dport, payload);
            && |f| == 42 + |payload| && f[..6] == l.dst && f[6..12] == l.src
            && ((f[30] as nat * 256 + f[31] as nat) * 256 + f[32] as nat) * 256 + f[33] as nat == dst
            && Carries(f, src, sport, dport, payload, 20, 28 + |payload|) && !(f[40] == 0 && f[41] == 0)
  {
    hide ParseIp, IpHeader, UdpSegment, IsPacket, Sums, SegmentVerifies, ParseUdp;
    var f := UdpFrame(l, src, sport, dst, dport, payload);
    var seg := UdpSegment(src, sport, dst, dport, payload);
    UdpRoundTrip(l, src, sport, dst, dport, payload, []);
    assert f + [] == f;
    IpParses(l, 17, src, dst, seg, [], 8);
    UdpAt(f, src, sport, dport, payload, 20, 28 + |payload|);
    UdpFields(src, sport, dst, dport, payload);
    assert f[34..34 + |seg|][6] == f[40] && f[34..34 + |seg|][7] == f[41];
    Stations(l, IpHeader(28 + |payload|, 17, src, dst), seg);
  }

  lemma Stations(l: Link, ip: seq<byte>, segment: seq<byte>)
    requires LinkOk(l) && |ip| == 20
    ensures Frame(l, ip, segment)[..6] == l.dst && Frame(l, ip, segment)[6..12] == l.src
  {
  }

  /** A built segment carries its header and payload, between the right stations and addresses. */
  lemma TcpBuilt(l: Link, src: nat, dst: nat, h: Tcp, payload: seq<byte>)
    requires LinkOk(l) && Word32(src) && Word32(dst) && TcpOk(h) && |payload| <= 248
    ensures var f := TcpFrame(l, src, dst, h, payload);
            && |f| == 54 + |payload| && f[..6] == l.dst && f[6..12] == l.src
            && ((f[30] as nat * 256 + f[31] as nat) * 256 + f[32] as nat) * 256 + f[33] as nat == dst
            && CarriesTcp(f, src, h, payload, 20, 40 + |payload|, 20)
  {
    hide ParseIp, IpHeader, TcpSegment, IsPacket, Sums, SegmentVerifies, ParseTcp;
    var f := TcpFrame(l, src, dst, h, payload);
    var seg := TcpSegment(src, dst, h, payload);
    TcpRoundTrip(l, src, dst, h, payload, []);
    assert f + [] == f;
    IpParses(l, 6, src, dst, seg, [], 20);
    TcpFields(src, dst, h, payload);
    assert f[34..34 + |seg|][12] == f[46];
    TcpAt(f, src, h, payload, 20, 40 + |payload|, 20);
    Stations(l, IpHeader(40 + |payload|, 6, src, dst), seg);
  }
}
