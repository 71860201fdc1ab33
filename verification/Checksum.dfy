// Internet checksums of the packet generator (gen_corpus.py), after RFC 1071.
// Python's (a << 8) | b, s & 0xFFFF, s >> 16 and ~s & 0xFFFF on these
// non-negative integers are written as the arithmetic they amount to.
module Checksum {
  import opened Basics
  import opened Bytes

  type Word = x: int | 0 <= x < 65536

  /** Sum of the big-endian 16-bit words; an odd last byte is padded with zero. */
  function WordSum(data: seq<Byte>): nat {
    if data == [] then 0
    else if |data| == 1 then data[0] * 256
    else data[0] * 256 + data[1] + WordSum(data[2..])
  }

  /** The carries folded back in until the sum fits in 16 bits. */
  function Folded(s: nat): nat {
    if s / 65536 != 0 then Folded(s % 65536 + s / 65536) else s
  }

  function Sum16(data: seq<Byte>): int {
    65535 - Folded(WordSum(data))
  }

  method Checksum(data: seq<Byte>) returns (c: int)
    ensures c == Sum16(data)
  {
    var padded := data;
    if |data| % 2 != 0 {
      padded := data + [0];
    }
    PadKeepsSum(data);
    var s: int := 0;
    var i := 0;
    while i < |padded|
      invariant 0 <= i <= |padded| && i % 2 == 0
      invariant s + WordSum(padded[i..]) == WordSum(padded)
    {
      assert padded[i..][2..] == padded[i + 2..];
      var high: int := padded[i];
      s := s + high * 256 + padded[i + 1];
      i := i + 2;
    }
    while s / 65536 != 0
      invariant s >= 0 && Folded(s) == Folded(WordSum(padded))
      decreases s
    {
      s := s % 65536 + s / 65536;
    }
    c := 65535 - s;
  }

  lemma {:induction false} PadKeepsSum(data: seq<Byte>)
    ensures |data| % 2 != 0 ==> WordSum(data + [0]) == WordSum(data)
  {
    if |data| == 1 {
      assert (data + [0])[2..] == [];
    } else if |data| > 1 {
      PadKeepsSum(data[2..]);
      assert (data + [0])[2..] == data[2..] + [0];
    }
  }

  // ----- ones'-complement arithmetic -----

  lemma ModShift(x: int, q: int)
    ensures (x + 65535 * q) % 65535 == x % 65535
  {
    var k := x / 65535;
    assert x == 65535 * k + x % 65535;
    assert x + 65535 * q == 65535 * (k + q) + x % 65535;
  }

  /** Folding terminates in 16 bits, keeps the sum modulo 65535, and is zero for zero only. */
  lemma {:induction false} FoldedLaws(s: nat)
    ensures 0 <= Folded(s) <= 65535
    ensures Folded(s) % 65535 == s % 65535
    ensures Folded(s) == 0 <==> s == 0
  {
    if s / 65536 != 0 {
      var q, r := s / 65536, s % 65536;
      FoldedLaws(r + q);
      assert s == (r + q) + 65535 * q;
      ModShift(r + q, q);
    }
  }

  lemma ModZeroSum(s: int, f: int, v: int)
    requires f % 65535 == s % 65535 && v == 65535 - f
    ensures (s + v) % 65535 == 0
  {
    var a, b := s / 65535, f / 65535;
    assert s + v == 65535 * (a - b + 1);
  }

  /** Adding the complement of a sum's checksum makes the checksum of the whole vanish. */
  lemma ComplementCancels(s: nat, v: nat)
    requires v == 65535 - Folded(s) || (Folded(s) == 65535 && v == 65535)
    ensures Folded(s + v) == 65535
  {
    FoldedLaws(s);
    FoldedLaws(s + v);
    ModZeroSum(s, Folded(s), 65535 - Folded(s));
    if v == 65535 {
      ModShift(s, 1);
    }
  }

  function Put(data: seq<Byte>, at: nat, w: Word): (r: seq<Byte>)
    requires at + 1 < |data|
    ensures |r| == |data|
  {
    data[at := w / 256][at + 1 := w % 256]
  }

  lemma {:induction false} PutAddsWord(data: seq<Byte>, at: nat, w: Word)
    requires at % 2 == 0 && at + 1 < |data| && data[at] == 0 && data[at + 1] == 0
    ensures WordSum(Put(data, at, w)) == WordSum(data) + w
  {
    if at == 0 {
      assert Put(data, 0, w)[2..] == data[2..];
    } else {
      PutAddsWord(data[2..], at - 2, w);
      assert Put(data, at, w)[2..] == Put(data[2..], at - 2, w);
    }
  }

  /** What goes into the checksum field: the checksum itself or, for UDP, all ones instead of zero. */
  predicate Fills(w: Word, data: seq<Byte>) {
    w == Sum16(data) || (Sum16(data) == 0 && w == 65535)
  }

  /** A packet whose zeroed checksum field is filled in checks to zero, whatever its length. */
  lemma FilledChecksToZero(data: seq<Byte>, at: nat, w: Word)
    requires at % 2 == 0 && at + 1 < |data| && data[at] == 0 && data[at + 1] == 0
    requires Fills(w, data)
    ensures Sum16(Put(data, at, w)) == 0
  {
    PutAddsWord(data, at, w);
    FoldedLaws(WordSum(data));
    ComplementCancels(WordSum(data), w);
  }

  /** The checksum is a 16-bit word. */
  lemma Sum16Range(data: seq<Byte>)
    ensures 0 <= Sum16(data) <= 65535
  {
    FoldedLaws(WordSum(data));
  }

  // ----- packets -----

  function U16(w: Word): seq<Byte> {
    [w / 256, w % 256]
  }

  function U32(x: int): seq<Byte>
    requires 0 <= x < 0x1_0000_0000
  {
    [x / 0x100_0000, x / 0x1_0000 % 256, x / 256 % 256, x % 256]
  }

  function CheckField(data: seq<Byte>): Word {
    Sum16Range(data);
    Sum16(data)
  }

  function Ip4Header(src: Address, dst: Address, proto: Byte, total: Word, ident: int): seq<Byte> {
    [0x45, 0] + U16(total) + U16(ident % 65536) + U16(0x4000) + [64, proto] + U16(0) + src + dst
  }

  /** ip4: None where struct.pack raises because a field does not fit. */
  function Ip4(src: Address, dst: Address, proto: int, payload: seq<Byte>, ident: int): Option<seq<Byte>> {
    if 20 + |payload| > 65535 || proto < 0 || proto > 255 then None
    else
      var hdr := Ip4Header(src, dst, proto, 20 + |payload|, ident);
      Some(hdr[..10] + U16(CheckField(hdr)) + hdr[12..] + payload)
  }

  function Pseudo(src: Address, dst: Address, proto: Byte, length: Word): seq<Byte> {
    src + dst + [0, proto] + U16(length)
  }

  function L4Checksum(src: Address, dst: Address, proto: Byte, seg: seq<Byte>): Word
    requires |seg| < 65536
  {
    CheckField(Pseudo(src, dst, proto, |seg|) + seg)
  }

  predicate Port(p: int) {
    0 <= p < 65536
  }

  function Udp(src: Address, dst: Address, sport: int, dport: int, payload: seq<Byte>): Option<seq<Byte>> {
    if !Port(sport) || !Port(dport) || 8 + |payload| > 65535 then None
    else
      var seg := U16(sport) + U16(dport) + U16(8 + |payload|) + U16(0) + payload;
      var ck := L4Checksum(src, dst, 17, seg);
      Some(seg[..6] + U16(if ck == 0 then 0xFFFF else ck) + seg[8..])
  }

  function Tcp(src: Address, dst: Address, sport: int, dport: int, sequence: int, ack: int, flags: int,
               payload: seq<Byte>): Option<seq<Byte>> {
    if !Port(sport) || !Port(dport) || !(0 <= sequence < 0x1_0000_0000) || !(0 <= ack < 0x1_0000_0000)
       || !(0 <= flags < 256) || 20 + |payload| > 65535 then None
    else
      var seg := U16(sport) + U16(dport) + U32(sequence) + U32(ack) + [80, flags] + U16(64240)
          + U16(0) + U16(0) + payload;
      Some(seg[..16] + U16(L4Checksum(src, dst, 6, seg)) + seg[18..])
  }

  lemma SpliceIsPut(data: seq<Byte>, at: nat, w: Word)
    requires at + 1 < |data|
    ensures data[..at] + U16(w) + data[at + 2..] == Put(data, at, w)
  {
  }

  lemma PutAfter(prefix: seq<Byte>, seg: seq<Byte>, at: nat, w: Word)
    requires at + 1 < |seg|
    ensures prefix + Put(seg, at, w) == Put(prefix + seg, |prefix| + at, w)
  {
  }

  /** The header of every IPv4 packet produced checks to zero and carries the payload behind it. */
  lemma Ip4HeaderChecks(src: Address, dst: Address, proto: int, payload: seq<Byte>, ident: int)
    requires Ip4(src, dst, proto, payload, ident).Some?
    ensures var pkt := Ip4(src, dst, proto, payload, ident).value;
            |pkt| == 20 + |payload| && Sum16(pkt[..20]) == 0 && pkt[20..] == payload
            && pkt[12..16] == src && pkt[16..20] == dst
  {
    var hdr := Ip4Header(src, dst, proto, 20 + |payload|, ident);
    var ck := CheckField(hdr);
    SpliceIsPut(hdr, 10, ck);
    FilledChecksToZero(hdr, 10, ck);
    var pkt := Ip4(src, dst, proto, payload, ident).value;
    assert pkt[..20] == Put(hdr, 10, ck);
    assert pkt[20..] == payload;
    assert Put(hdr, 10, ck)[12..16] == src && Put(hdr, 10, ck)[16..20] == dst;
  }

  /** A transport segment whose field at `at` is filled in checks to zero with its pseudo-header. */
  lemma SegmentChecks(src: Address, dst: Address, proto: Byte, seg: seq<Byte>, at: nat, w: Word)
    requires |seg| < 65536 && at % 2 == 0 && at + 1 < |seg| && seg[at] == 0 && seg[at + 1] == 0
    requires var ck := L4Checksum(src, dst, proto, seg); w == ck || (ck == 0 && w == 65535)
    ensures Sum16(Pseudo(src, dst, proto, |seg|) + Put(seg, at, w)) == 0
  {
    var pseudo := Pseudo(src, dst, proto, |seg|);
    PutAfter(pseudo, seg, at, w);
    FilledChecksToZero(pseudo + seg, 12 + at, w);
  }

  /** Every UDP datagram produced checks to zero with its pseudo-header and never carries the
      checksum zero that RFC 768 reserves for "none". */
  lemma UdpChecks(src: Address, dst: Address, sport: int, dport: int, payload: seq<Byte>)
    requires Udp(src, dst, sport, dport, payload).Some?
    ensures var seg := Udp(src, dst, sport, dport, payload).value;
            |seg| == 8 + |payload| && Sum16(Pseudo(src, dst, 17, |seg|) + seg) == 0
            && seg[6..8] != [0, 0] && seg[8..] == payload
  {
    var seg := U16(sport) + U16(dport) + U16(8 + |payload|) + U16(0) + payload;
    var ck := L4Checksum(src, dst, 17, seg);
    var w: Word := if ck == 0 then 0xFFFF else ck;
    SpliceIsPut(seg, 6, w);
    SegmentChecks(src, dst, 17, seg, 6, w);
    var out := Put(seg, 6, w);
    var high: int, low: int := out[6], out[7];
    assert high * 256 + low == w;
    assert out[6..8] == [out[6], out[7]];
    assert out[8..] == payload;
  }

  /** Every TCP segment produced checks to zero with its pseudo-header. */
  lemma TcpChecks(src: Address, dst: Address, sport: int, dport: int, sequence: int, ack: int, flags: int,
                  payload: seq<Byte>)
    requires Tcp(src, dst, sport, dport, sequence, ack, flags, payload).Some?
    ensures var seg := Tcp(src, dst, sport, dport, sequence, ack, flags, payload).value;
            |seg| == 20 + |payload| && Sum16(Pseudo(src, dst, 6, |seg|) + seg) == 0 && seg[20..] == payload
  {
    var seg := U16(sport) + U16(dport) + U32(sequence) + U32(ack) + [80, flags] + U16(64240)
        + U16(0) + U16(0) + payload;
    var ck := L4Checksum(src, dst, 6, seg);
    SpliceIsPut(seg, 16, ck);
    SegmentChecks(src, dst, 6, seg, 16, ck);
    assert Put(seg, 16, ck)[20..] == payload;
  }
}
