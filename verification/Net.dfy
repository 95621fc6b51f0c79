/** Packet framing: the one's-complement checksum, and UDP and TCP frames that parse back to what was built. */
module Net {
  import opened Bytes

  const FRAME_MAX := 1536
  const PAYLOAD_MAX := 248
  const IPV4: nat := 0x0800
  const UDP: byte := 17
  const TCP: byte := 6

  // -------------------------------------------------------------- checksum

  function Get16(s: seq<byte>, k: nat): nat
    requires k + 2 <= |s|
  {
    s[k] as nat * 256 + s[k + 1]
  }

  function Get32(s: seq<byte>, k: nat): nat
    requires k + 4 <= |s|
  {
    ((s[k] as nat * 256 + s[k + 1]) * 256 + s[k + 2]) * 256 + s[k + 3]
  }

  /** The sum of the big-endian words, a last odd byte counting as a high byte. */
  function Sum(s: seq<byte>): nat {
    if |s| == 0 then 0 else if |s| == 1 then s[0] as nat * 256 else Get16(s, 0) + Sum(s[2..])
  }

  /** End-around carry until the sum fits a word. */
  function Fold(sum: nat): (f: nat)
    ensures f < 0x1_0000 && (f == 0 <==> sum == 0)
  {
    if sum < 0x1_0000 then sum else Fold(sum % 0x1_0000 + sum / 0x1_0000)
  }

  /** Folding is reduction modulo 65535, with 65535 rather than 0 for a non-zero sum. */
  lemma {:induction false} FoldIsResidue(sum: nat)
    ensures Fold(sum) % 0xffff == sum % 0xffff
  {
    if sum >= 0x1_0000 {
      var next := sum % 0x1_0000 + sum / 0x1_0000;
      FoldIsResidue(next);
      assert sum == next + 0xffff * (sum / 0x1_0000);
      Residue(next, sum / 0x1_0000);
    }
  }

  lemma Residue(a: nat, q: nat)
    ensures (a + 0xffff * q) % 0xffff == a % 0xffff
  {
  }

  function Checksum(carry: nat, s: seq<byte>): (c: nat)
    ensures c < 0x1_0000
  {
    0xffff - Fold(carry + Sum(s))
  }

  function Put16(s: seq<byte>, k: nat, v: nat): (r: seq<byte>)
    requires k + 2 <= |s| && v < 0x1_0000
    ensures |r| == |s| && Get16(r, k) == v
    ensures forall i :: 0 <= i < |s| && i != k && i != k + 1 ==> r[i] == s[i]
  {
    s[k := v / 256][k + 1 := v % 256]
  }

  /** Filling a zero word at an even offset adds its value to the sum. */
  lemma {:induction false} SumPut(s: seq<byte>, k: nat, v: nat)
    requires k % 2 == 0 && k + 2 <= |s| && s[k] == 0 && s[k + 1] == 0 && v < 0x1_0000
    ensures Sum(Put16(s, k, v)) == Sum(s) + v
  {
    var r := Put16(s, k, v);
    if k == 0 {
      assert r[2..] == s[2..];
    } else {
      SumPut(s[2..], k - 2, v);
      assert r[2..] == Put16(s[2..], k - 2, v);
    }
  }

  /** A positive multiple of 65535 folds to all ones. */
  lemma FoldsToOnes(sum: nat)
    requires sum > 0 && sum % 0xffff == 0
    ensures Fold(sum) == 0xffff
  {
    hide Fold;
    FoldIsResidue(sum);
  }

  /** Inserting the complement, or all ones for a zero complement, makes the whole verify. */
  lemma InsertedVerifies(carry: nat, s: seq<byte>, k: nat)
    requires k % 2 == 0 && k + 2 <= |s| && s[k] == 0 && s[k + 1] == 0
    ensures var c := Checksum(carry, s);
            && Checksum(carry, Put16(s, k, c)) == 0
            && Checksum(carry, Put16(s, k, if c == 0 then 0xffff else c)) == 0
  {
    hide Fold, Sum, Put16;
    var c, sum := Checksum(carry, s), carry + Sum(s);
    SumPut(s, k, c);
    FoldIsResidue(sum);
    Complement(sum, Fold(sum));
    FoldsToOnes(sum + c);
    if c == 0 {
      SumPut(s, k, 0xffff);
      FoldsToOnes(sum + 0xffff);
    }
  }

  lemma Complement(sum: nat, f: nat)
    requires f <= 0xffff && f % 0xffff == sum % 0xffff && (f == 0 <==> sum == 0)
    ensures sum + (0xffff - f) > 0 && (sum + (0xffff - f)) % 0xffff == 0 && (f == 0xffff ==> (sum + 0xffff) % 0xffff == 0)
  {
    var q := sum / 0xffff;
    if f == 0xffff {
      assert sum == 0xffff * q;
      assert sum + 0xffff == 0xffff * (q + 1);
    } else {
      assert sum == 0xffff * q + f;
      assert sum + (0xffff - f) == 0xffff * (q + 1);
    }
  }

  /** The summing and folding loops. */
  method AddWords(sum: nat, s: seq<byte>) returns (r: nat)
    ensures r == sum + Sum(s)
  {
    r := sum;
    var i := 0;
    while |s| - i > 1
      invariant 0 <= i <= |s| && r + Sum(s[i..]) == sum + Sum(s)
    {
      assert s[i..][2..] == s[i + 2..];
      r := r + s[i] as nat * 256 + s[i + 1];
      i := i + 2;
    }
    if i < |s| {
      r := r + s[i] as nat * 256;
    }
  }

  method FoldDown(sum: nat) returns (r: nat)
    ensures r == 0xffff - Fold(sum)
  {
    var s := sum;
    while s >= 0x1_0000
      invariant Fold(s) == Fold(sum)
    {
      s := s % 0x1_0000 + s / 0x1_0000;
    }
    r := 0xffff - s;
  }

  method ComputeChecksum(carry: nat, s: seq<byte>) returns (c: nat)
    ensures c == Checksum(carry, s)
  {
    var sum := AddWords(carry, s);
    c := FoldDown(sum);
  }

  // --------------------------------------------------------------- headers

  predicate Word16(v: nat) { v < 0x1_0000 }
  predicate Word32(v: nat) { v < 0x1_0000_0000 }

  function B16(v: nat): (s: seq<byte>)
    requires Word16(v)
    ensures |s| == 2 && Get16(s, 0) == v
  {
    [v / 256, v % 256]
  }

  function B32(v: nat): (s: seq<byte>)
    requires Word32(v)
    ensures |s| == 4 && Get32(s, 0) == v
  {
    B16(v / 0x1_0000) + B16(v % 0x1_0000)
  }

  /** The Internet header before its checksum (section 3.1 of RFC 791). */
  function BareIp(total: nat, proto: byte, src: nat, dst: nat): (s: seq<byte>)
    requires Word16(total) && Word32(src) && Word32(dst)
    ensures |s| == 20 && s[0] == 0x45 && Get16(s, 2) == total && Get16(s, 6) == 0x4000 && s[9] == proto && s[10] == 0 && s[11] == 0
    ensures Get32(s, 12) == src && Get32(s, 16) == dst
  {
    [0x45, 0] + B16(total) + [0, 1, 0x40, 0, 64, proto, 0, 0] + B32(src) + B32(dst)
  }

  function IpHeader(total: nat, proto: byte, src: nat, dst: nat): (s: seq<byte>)
    requires Word16(total) && Word32(src) && Word32(dst)
    ensures |s| == 20 && s[0] == 0x45 && Get16(s, 2) == total && Get16(s, 6) == 0x4000 && s[9] == proto
    ensures Get32(s, 12) == src && Get32(s, 16) == dst
  {
    Put16(BareIp(total, proto, src, dst), 10, Checksum(0, BareIp(total, proto, src, dst)))
  }

  /** The pseudo-header sum that covers addresses, protocol and length. */
  function Pseudo(proto: byte, src: nat, dst: nat, n: nat): nat
    requires Word32(src) && Word32(dst)
  {
    Sum(B32(src) + B32(dst) + [0, proto] + B16(n % 0x1_0000))
  }

  datatype Link = Link(dst: seq<byte>, src: seq<byte>)

  predicate LinkOk(l: Link) { |l.dst| == 6 && |l.src| == 6 }

  function Frame(l: Link, ip: seq<byte>, segment: seq<byte>): (f: seq<byte>)
    requires LinkOk(l) && |ip| == 20
    ensures |f| == 34 + |segment| && Get16(f, 12) == IPV4 && f[14..34] == ip && f[34..] == segment
  {
    l.dst + l.src + [8, 0] + ip + segment
  }

  // ------------------------------------------------------------- parsing

  datatype Ip = NotIp | Ip(header: nat, total: nat)

  /** The checks both parsers share; `least` is the smallest transport header. */
  function ParseIp(f: seq<byte>, proto: byte, least: nat, from: nat): (r: Ip)
    requires |f| >= 34 + least
    ensures r.Ip? ==> 20 <= r.header <= 60 && r.header + least <= r.total && 14 + r.total <= |f| && 14 + r.header + least <= |f|
  {
    var header := f[14] % 16 * 4;
    if Get16(f, 12) != IPV4 || f[14] / 16 != 4 || f[14] % 16 < 5 || 14 + header + least > |f| then NotIp
    else
      var total := Get16(f, 16);
      if total < header + least || total > |f| - 14 then NotIp
      else if Get16(f, 20) % 0x4000 != 0 || f[23] != proto || Get32(f, 26) != from || Checksum(0, f[14..14 + header]) != 0 then NotIp
      else Ip(header, total)
  }

  /** A frame with this header, and possibly padding after it, passes. */
  lemma IpParses(l: Link, proto: byte, src: nat, dst: nat, segment: seq<byte>, pad: seq<byte>, least: nat)
    requires LinkOk(l) && Word32(src) && Word32(dst) && 20 + |segment| < 0x1_0000 && least <= |segment|
    ensures var f := Frame(l, IpHeader(20 + |segment|, proto, src, dst), segment) + pad;
            && ParseIp(f, proto, least, src) == Ip(20, 20 + |segment|)
            && Get32(f, 26) == src && Get32(f, 30) == dst && f[34..34 + |segment|] == segment
  {
    hide BareIp, Checksum, IpHeader;
    var ip := IpHeader(20 + |segment|, proto, src, dst);
    var frame := Frame(l, ip, segment);
    var f := frame + pad;
    IpVerifies(20 + |segment|, proto, src, dst);
    assert f[14..34] == frame[14..34] == ip;
    forall i | 0 <= i < 20
      ensures f[14 + i] == ip[i]
    {
      assert f[14..34][i] == f[14 + i];
    }
    assert f[34..34 + |segment|] == frame[34..];
  }

  lemma IpVerifies(total: nat, proto: byte, src: nat, dst: nat)
    requires Word16(total) && Word32(src) && Word32(dst)
    ensures Checksum(0, IpHeader(total, proto, src, dst)) == 0
  {
    hide Checksum, BareIp;
    InsertedVerifies(0, BareIp(total, proto, src, dst), 10);
  }

  // ------------------------------------------------------------------- UDP

  function BareUdp(sport: nat, dport: nat, payload: seq<byte>): (s: seq<byte>)
    requires Word16(sport) && Word16(dport) && |payload| <= PAYLOAD_MAX
    ensures |s| == 8 + |payload| && Get16(s, 0) == sport && Get16(s, 2) == dport && Get16(s, 4) == 8 + |payload|
    ensures s[6] == 0 && s[7] == 0 && s[8..] == payload
  {
    B16(sport) + B16(dport) + B16(8 + |payload|) + [0, 0] + payload
  }

  /** A computed zero is sent as all ones, since zero means no checksum (RFC 768). */
  function UdpSegment(src: nat, sport: nat, dst: nat, dport: nat, payload: seq<byte>): (s: seq<byte>)
    requires Word32(src) && Word32(dst) && Word16(sport) && Word16(dport) && |payload| <= PAYLOAD_MAX
    ensures |s| == 8 + |payload|
  {
    var bare := BareUdp(sport, dport, payload);
    var c := Checksum(Pseudo(UDP, src, dst, |bare|), bare);
    Put16(bare, 6, if c == 0 then 0xffff else c)
  }

  function UdpFrame(l: Link, src: nat, sport: nat, dst: nat, dport: nat, payload: seq<byte>): seq<byte>
    requires LinkOk(l) && Word32(src) && Word32(dst) && Word16(sport) && Word16(dport) && |payload| <= PAYLOAD_MAX
  {
    Frame(l, IpHeader(28 + |payload|, UDP, src, dst), UdpSegment(src, sport, dst, dport, payload))
  }

  datatype Datagram = NoDatagram | Datagram(payload: seq<byte>)

  function ParseUdp(f: seq<byte>, from: nat, sport: nat, dport: nat): Datagram {
    if |f| < 42 then NoDatagram
    else
      match ParseIp(f, UDP, 8, from)
      case NotIp => NoDatagram
      case Ip(header, total) =>
        var u := 14 + header;
        var length := Get16(f, u + 4);
        if length < 8 || length > total - header || length - 8 > PAYLOAD_MAX then NoDatagram
        else if Get16(f, u) != sport || Get16(f, u + 2) != dport then NoDatagram
        else if Get16(f, u + 6) != 0 && !SegmentVerifies(UDP, Get32(f, 26), Get32(f, 30), f[u..u + length]) then NoDatagram
        else Datagram(f[u + 8..u + length])
  }

  predicate SegmentVerifies(proto: byte, src: nat, dst: nat, segment: seq<byte>) {
    Word32(src) && Word32(dst) && Checksum(Pseudo(proto, src, dst, |segment|), segment) == 0
  }

  /** Every datagram that can be built parses back, under any padding. */
  lemma UdpRoundTrip(l: Link, src: nat, sport: nat, dst: nat, dport: nat, payload: seq<byte>, pad: seq<byte>)
    requires LinkOk(l) && Word32(src) && Word32(dst) && Word16(sport) && Word16(dport) && |payload| <= PAYLOAD_MAX
    ensures ParseUdp(UdpFrame(l, src, sport, dst, dport, payload) + pad, src, sport, dport) == Datagram(payload)
  {
    hide ParseIp, Checksum, IpHeader, Frame, Pseudo, BareUdp;
    var seg := UdpSegment(src, sport, dst, dport, payload);
    var f := UdpFrame(l, src, sport, dst, dport, payload) + pad;
    IpParses(l, UDP, src, dst, seg, pad, 8);
    InsertedVerifies(Pseudo(UDP, src, dst, |seg|), BareUdp(sport, dport, payload), 6);
    UdpFields(src, sport, dst, dport, payload);
    forall i | 0 <= i < |seg|
      ensures f[34 + i] == seg[i]
    {
      assert f[34..34 + |seg|][i] == f[34 + i];
    }
    assert f[42..34 + |seg|] == seg[8..];
  }

  lemma UdpFields(src: nat, sport: nat, dst: nat, dport: nat, payload: seq<byte>)
    requires Word32(src) && Word32(dst) && Word16(sport) && Word16(dport) && |payload| <= PAYLOAD_MAX
    ensures var s := UdpSegment(src, sport, dst, dport, payload);
            && Get16(s, 0) == sport && Get16(s, 2) == dport && Get16(s, 4) == 8 + |payload| && s[8..] == payload && Get16(s, 6) != 0
  {
    hide Checksum, Pseudo, BareUdp;
    var s, b := UdpSegment(src, sport, dst, dport, payload), BareUdp(sport, dport, payload);
    assert s[8..] == b[8..];
  }

  // ------------------------------------------------------------------- TCP

  datatype Tcp = Tcp(sport: nat, dport: nat, seqno: nat, ack: nat, flags: byte, window: nat)

  predicate TcpOk(t: Tcp) { Word16(t.sport) && Word16(t.dport) && Word32(t.seqno) && Word32(t.ack) && Word16(t.window) }

  function TcpStart(t: Tcp): (s: seq<byte>)
    requires TcpOk(t)
    ensures |s| == 20 && Get16(s, 0) == t.sport && Get16(s, 2) == t.dport && Get32(s, 4) == t.seqno && Get32(s, 8) == t.ack
    ensures s[12] == 0x50 && s[13] == t.flags && Get16(s, 14) == t.window && s[16] == 0 && s[17] == 0
  {
    B16(t.sport) + B16(t.dport) + B32(t.seqno) + B32(t.ack) + [0x50, t.flags] + B16(t.window) + [0, 0, 0, 0]
  }

  function TcpSegment(src: nat, dst: nat, t: Tcp, payload: seq<byte>): (s: seq<byte>)
    requires Word32(src) && Word32(dst) && TcpOk(t)
    ensures |s| == 20 + |payload|
  {
    var bare := TcpStart(t) + payload;
    Put16(bare, 16, Checksum(Pseudo(TCP, src, dst, |bare|), bare))
  }

  function TcpFrame(l: Link, src: nat, dst: nat, t: Tcp, payload: seq<byte>): seq<byte>
    requires LinkOk(l) && Word32(src) && Word32(dst) && TcpOk(t) && |payload| <= PAYLOAD_MAX
  {
    Frame(l, IpHeader(40 + |payload|, TCP, src, dst), TcpSegment(src, dst, t, payload))
  }

  datatype Stream = NoSegment | Segment(header: Tcp, payload: seq<byte>)

  function ParseTcp(f: seq<byte>, from: nat, sport: nat, dport: nat): Stream {
    if |f| < 54 then NoSegment
    else
      match ParseIp(f, TCP, 20, from)
      case NotIp => NoSegment
      case Ip(header, total) =>
        var t := 14 + header;
        var segment, offset := total - header, f[t + 12] / 16 * 4;
        if offset < 20 || header + offset > total then NoSegment
        else if Get16(f, t) != sport || Get16(f, t + 2) != dport then NoSegment
        else if !SegmentVerifies(TCP, Get32(f, 26), Get32(f, 30), f[t..t + segment]) || segment - offset > PAYLOAD_MAX then NoSegment
        else Segment(Tcp(sport, dport, Get32(f, t + 4), Get32(f, t + 8), f[t + 13], Get16(f, t + 14)), f[t + offset..t + segment])
  }

  lemma TcpFields(src: nat, dst: nat, t: Tcp, payload: seq<byte>)
    requires Word32(src) && Word32(dst) && TcpOk(t)
    ensures var s := TcpSegment(src, dst, t, payload);
            && Get16(s, 0) == t.sport && Get16(s, 2) == t.dport && Get32(s, 4) == t.seqno && Get32(s, 8) == t.ack
            && s[12] == 0x50 && s[13] == t.flags && Get16(s, 14) == t.window && s[20..] == payload
  {
    hide Checksum, Pseudo, TcpStart;
    var s, b := TcpSegment(src, dst, t, payload), TcpStart(t) + payload;
    assert s[20..] == b[20..] == payload;
  }

  /** Every segment that can be built parses back: all header fields and the payload. */
  lemma TcpRoundTrip(l: Link, src: nat, dst: nat, t: Tcp, payload: seq<byte>, pad: seq<byte>)
    requires LinkOk(l) && Word32(src) && Word32(dst) && TcpOk(t) && |payload| <= PAYLOAD_MAX
    ensures ParseTcp(TcpFrame(l, src, dst, t, payload) + pad, src, t.sport, t.dport) == Segment(t, payload)
  {
    hide ParseIp, Checksum, IpHeader, Frame, Pseudo, TcpStart;
    var seg := TcpSegment(src, dst, t, payload);
    var f := TcpFrame(l, src, dst, t, payload) + pad;
    IpParses(l, TCP, src, dst, seg, pad, 20);
    InsertedVerifies(Pseudo(TCP, src, dst, |seg|), TcpStart(t) + payload, 16);
    TcpFields(src, dst, t, payload);
    forall i | 0 <= i < |seg|
      ensures f[34 + i] == seg[i]
    {
      assert f[34..34 + |seg|][i] == f[34 + i];
    }
    assert f[54..34 + |seg|] == seg[20..];
  }

  // ------------------------------------------------------ building in place

  /** Copies bytes behind what is there. */
  method Append(frame: array<byte>, k: nat, b: seq<byte>)
    requires k + |b| <= frame.Length
    modifies frame
    ensures frame[..k + |b|] == old(frame[..k]) + b
  {
    for i := 0 to |b|
      invariant frame[..k + i] == old(frame[..k]) + b[..i]
    {
      frame[k + i] := b[i];
    }
  }

  method PutWord(frame: array<byte>, k: nat, v: nat)
    requires k + 2 <= frame.Length && Word16(v)
    modifies frame
    ensures frame[..] == Put16(old(frame[..]), k, v)
  {
    frame[k] := v / 256;
    frame[k + 1] := v % 256;
  }

  /** The link and Internet headers, checksum included. */
  method BuildHeaders(frame: array<byte>, l: Link, total: nat, proto: byte, src: nat, dst: nat)
    requires frame.Length >= 34 && LinkOk(l) && Word16(total) && Word32(src) && Word32(dst)
    modifies frame
    ensures frame[..34] == l.dst + l.src + [8, 0] + IpHeader(total, proto, src, dst)
  {
    hide B16, B32, Checksum, BareIp;
    Append(frame, 0, l.dst);
    Append(frame, 6, l.src);
    Append(frame, 12, [8, 0]);
    ghost var eth := l.dst + l.src + [8, 0];
    var bare := BareIp(total, proto, src, dst);
    Append(frame, 14, bare);
    assert frame[14..34] == frame[..34][14..] == bare;
    var c := ComputeChecksum(0, frame[14..34]);
    ghost var was := frame[..];
    assert was[..34] == eth + bare;
    PutWord(frame, 24, c);
    PutInside(was, eth, bare, 10, c);
    assert frame[..][..34] == frame[..34];
  }

  lemma PutInside(f: seq<byte>, a: seq<byte>, b: seq<byte>, k: nat, v: nat)
    requires k + 2 <= |b| && |a| + |b| <= |f| && f[..|a| + |b|] == a + b && Word16(v)
    ensures Put16(f, |a| + k, v)[..|a| + |b|] == a + Put16(b, k, v)
  {
    forall i | 0 <= i < |a| + |b|
      ensures Put16(f, |a| + k, v)[i] == (a + Put16(b, k, v))[i]
    {
      assert f[i] == f[..|a| + |b|][i] == (a + b)[i];
    }
  }

  method BuildUdp(frame: array<byte>, l: Link, src: nat, sport: nat, dst: nat, dport: nat, payload: seq<byte>) returns (n: nat)
    requires frame.Length == FRAME_MAX && LinkOk(l) && Word32(src) && Word32(dst) && Word16(sport) && Word16(dport)
    modifies frame
    ensures |payload| > PAYLOAD_MAX ==> n == 0 && frame[..] == old(frame[..])
    ensures |payload| <= PAYLOAD_MAX ==> n == 42 + |payload| && frame[..n] == UdpFrame(l, src, sport, dst, dport, payload)
  {
    hide B16, B32, Checksum, IpHeader, BareUdp, Pseudo;
    if |payload| > PAYLOAD_MAX || |payload| > FRAME_MAX - 42 {
      return 0;
    }
    BuildHeaders(frame, l, 28 + |payload|, UDP, src, dst);
    ghost var top := frame[..34];
    var bare := BareUdp(sport, dport, payload);
    Append(frame, 34, bare);
    n := 42 + |payload|;
    assert frame[34..n] == frame[..n][34..] == bare;
    var c := PseudoChecksum(UDP, src, dst, frame[34..n]);
    ghost var was := frame[..];
    assert was[..n] == top + bare;
    PutWord(frame, 40, if c == 0 then 0xffff else c);
    PutInside(was, top, bare, 6, if c == 0 then 0xffff else c);
    assert frame[..][..n] == frame[..n];
  }

  method PseudoChecksum(proto: byte, src: nat, dst: nat, segment: seq<byte>) returns (c: nat)
    requires Word32(src) && Word32(dst)
    ensures c == Checksum(Pseudo(proto, src, dst, |segment|), segment)
  {
    hide B16, B32, Sum, Fold;
    var sum := AddWords(0, B32(src) + B32(dst) + [0, proto] + B16(|segment| % 0x1_0000));
    sum := AddWords(sum, segment);
    c := FoldDown(sum);
  }

  method BuildTcp(frame: array<byte>, l: Link, src: nat, dst: nat, t: Tcp, payload: seq<byte>) returns (n: nat)
    requires frame.Length == FRAME_MAX && LinkOk(l) && Word32(src) && Word32(dst) && TcpOk(t)
    modifies frame
    ensures |payload| > PAYLOAD_MAX ==> n == 0 && frame[..] == old(frame[..])
    ensures |payload| <= PAYLOAD_MAX ==> n == 54 + |payload| && frame[..n] == TcpFrame(l, src, dst, t, payload)
  {
    hide B16, B32, Checksum, IpHeader, TcpStart, Pseudo;
    if |payload| > PAYLOAD_MAX || |payload| > FRAME_MAX - 54 {
      return 0;
    }
    BuildHeaders(frame, l, 40 + |payload|, TCP, src, dst);
    ghost var top := frame[..34];
    var start := TcpStart(t);
    Append(frame, 34, start);
    assert frame[..54] == top + start;
    Append(frame, 54, payload);
    n := 54 + |payload|;
    ghost var bare := start + payload;
    assert frame[..n] == top + bare;
    assert frame[34..n] == frame[..n][34..] == bare;
    var c := PseudoChecksum(TCP, src, dst, frame[34..n]);
    ghost var was := frame[..];
    assert was[..n] == top + bare;
    PutWord(frame, 50, c);
    PutInside(was, top, bare, 16, c);
    assert frame[..][..n] == frame[..n];
  }

  method CheckIp(f: seq<byte>, proto: byte, least: nat, from: nat) returns (r: Ip)
    requires |f| >= 34 + least
    ensures r == ParseIp(f, proto, least, from)
  {
    hide Checksum;
    var ihl := f[14] % 16;
    if Get16(f, 12) != IPV4 || f[14] / 16 != 4 || ihl < 5 || 14 + ihl * 4 + least > |f| {
      return NotIp;
    }
    var header, total := ihl * 4, Get16(f, 16);
    if total < header + least || total > |f| - 14 {
      return NotIp;
    }
    var c := ComputeChecksum(0, f[14..14 + header]);
    if Get16(f, 20) % 0x4000 != 0 || f[23] != proto || Get32(f, 26) != from || c != 0 {
      return NotIp;
    }
    return Ip(header, total);
  }

  method ReceiveUdp(f: seq<byte>, from: nat, sport: nat, dport: nat) returns (r: Datagram)
    ensures r == ParseUdp(f, from, sport, dport)
  {
    hide ParseIp, Checksum, Pseudo;
    if |f| < 42 {
      return NoDatagram;
    }
    var ip := CheckIp(f, UDP, 8, from);
    if ip.NotIp? {
      return NoDatagram;
    }
    var u := 14 + ip.header;
    var length := Get16(f, u + 4);
    if length < 8 || length > ip.total - ip.header || length - 8 > PAYLOAD_MAX || Get16(f, u) != sport || Get16(f, u + 2) != dport {
      return NoDatagram;
    }
    if Get16(f, u + 6) != 0 {
      var c := PseudoChecksum(UDP, Get32(f, 26), Get32(f, 30), f[u..u + length]);
      if c != 0 {
        return NoDatagram;
      }
    }
    return Datagram(f[u + 8..u + length]);
  }

  method ReceiveTcp(f: seq<byte>, from: nat, sport: nat, dport: nat) returns (r: Stream)
    ensures r == ParseTcp(f, from, sport, dport)
  {
    hide ParseIp, Checksum, Pseudo;
    if |f| < 54 {
      return NoSegment;
    }
    var ip := CheckIp(f, TCP, 20, from);
    if ip.NotIp? {
      return NoSegment;
    }
    var t := 14 + ip.header;
    var segment, offset := ip.total - ip.header, f[t + 12] / 16 * 4;
    if offset < 20 || ip.header + offset > ip.total || Get16(f, t) != sport || Get16(f, t + 2) != dport {
      return NoSegment;
    }
    var c := PseudoChecksum(TCP, Get32(f, 26), Get32(f, 30), f[t..t + segment]);
    if c != 0 || segment - offset > PAYLOAD_MAX {
      return NoSegment;
    }
    return Segment(Tcp(sport, dport, Get32(f, t + 4), Get32(f, t + 8), f[t + 13], Get16(f, t + 14)), f[t + offset..t + segment]);
  }
}
