// What a receiver reads back from the packets of the generator (gen_corpus.py): every field, at
// its place in the headers of RFC 791, RFC 768 and RFC 9293.
module PacketFields {
  import opened Basics
  import opened Bytes
  import opened Checksum

  // ----- reading -----

  function WordAt(data: seq<Byte>, at: nat): int
    requires at + 1 < |data|
  {
    var high: int, low: int := data[at], data[at + 1];
    high * 256 + low
  }

  function LongAt(data: seq<Byte>, at: nat): int
    requires at + 3 < |data|
  {
    WordAt(data, at) * 65536 + WordAt(data, at + 2)
  }

  lemma WordRead(w: Word)
    ensures WordAt(U16(w), 0) == w
  {
  }

  lemma LongRead(x: int)
    requires 0 <= x < 0x1_0000_0000
    ensures LongAt(U32(x), 0) == x
  {
    var high, low := x / 65536, x % 65536;
    assert U32(x)[..2] == U16(high) && U32(x)[2..] == U16(low) by {
      HalfOfLong(x);
    }
    WordRead(high);
    WordRead(low);
    assert U32(x)[0] == U16(high)[0] && U32(x)[1] == U16(high)[1];
    assert U32(x)[2] == U16(low)[0] && U32(x)[3] == U16(low)[1];
  }

  lemma HalfOfLong(x: int)
    requires 0 <= x < 0x1_0000_0000
    ensures x / 0x100_0000 == x / 65536 / 256 && x / 0x1_0000 % 256 == x / 65536 % 256
    ensures x / 256 % 256 == x % 65536 / 256 && x % 256 == x % 65536 % 256
  {
    var high, low := x / 65536, x % 65536;
    assert x == 65536 * high + low;
    assert x / 256 == 256 * high + low / 256;
  }

  lemma WordWithin(data: seq<Byte>, before: seq<Byte>, w: Word, after: seq<Byte>)
    requires data == before + U16(w) + after
    ensures |before| + 1 < |data| && WordAt(data, |before|) == w
  {
    WordRead(w);
    assert data[|before|] == U16(w)[0] && data[|before| + 1] == U16(w)[1];
  }

  lemma LongWithin(data: seq<Byte>, before: seq<Byte>, x: int, after: seq<Byte>)
    requires 0 <= x < 0x1_0000_0000 && data == before + U32(x) + after
    ensures |before| + 3 < |data| && LongAt(data, |before|) == x
  {
    LongRead(x);
    assert forall i :: 0 <= i < 4 ==> data[|before| + i] == U32(x)[i];
  }

  // ----- UDP -----

  /** A datagram is produced exactly when ports and length fit, and carries them and the payload. */
  lemma UdpCarries(src: Address, dst: Address, sport: int, dport: int, payload: seq<Byte>)
    ensures var r := Udp(src, dst, sport, dport, payload);
            && (r.Some? <==> 0 <= sport < 65536 && 0 <= dport < 65536 && 8 + |payload| < 65536)
            && (r.Some? ==>
                  var seg := r.value;
                  && |seg| == 8 + |payload|
                  && WordAt(seg, 0) == sport && WordAt(seg, 2) == dport && WordAt(seg, 4) == 8 + |payload|
                  && seg[8..] == payload)
  {
    var r := Udp(src, dst, sport, dport, payload);
    if r.Some? {
      var plain := U16(sport) + U16(dport) + U16(8 + |payload|) + U16(0) + payload;
      WordWithin(plain, [], sport, U16(dport) + U16(8 + |payload|) + U16(0) + payload);
      WordWithin(plain, U16(sport), dport, U16(8 + |payload|) + U16(0) + payload);
      WordWithin(plain, U16(sport) + U16(dport), 8 + |payload|, U16(0) + payload);
      assert forall i :: 0 <= i < 6 ==> r.value[i] == plain[i];
      assert r.value[8..] == plain[8..];
    }
  }

  // ----- TCP -----

  function TcpHead(sport: Word, dport: Word, sequence: int, ack: int): seq<Byte>
    requires 0 <= sequence < 0x1_0000_0000 && 0 <= ack < 0x1_0000_0000
  {
    U16(sport) + U16(dport) + U32(sequence) + U32(ack)
  }

  lemma TcpHeadCarries(head: seq<Byte>, sport: Word, dport: Word, sequence: int, ack: int)
    requires 0 <= sequence < 0x1_0000_0000 && 0 <= ack < 0x1_0000_0000
    requires head == TcpHead(sport, dport, sequence, ack)
    ensures |head| == 12 && WordAt(head, 0) == sport && WordAt(head, 2) == dport
    ensures LongAt(head, 4) == sequence && LongAt(head, 8) == ack
  {
    WordWithin(head, [], sport, U16(dport) + U32(sequence) + U32(ack));
    WordWithin(head, U16(sport), dport, U32(sequence) + U32(ack));
    LongWithin(head, U16(sport) + U16(dport), sequence, U32(ack));
    LongWithin(head, U16(sport) + U16(dport) + U32(sequence), ack, []);
  }

  lemma TcpLayout(src: Address, dst: Address, sport: int, dport: int, sequence: int, ack: int, flags: int,
                  payload: seq<Byte>, seg: seq<Byte>)
    requires Tcp(src, dst, sport, dport, sequence, ack, flags, payload) == Some(seg)
    ensures 0 <= sport < 65536 && 0 <= dport < 65536 && 0 <= flags < 256
    ensures 0 <= sequence < 0x1_0000_0000 && 0 <= ack < 0x1_0000_0000
    ensures |seg| == 20 + |payload| && seg[..12] == TcpHead(sport, dport, sequence, ack)
    ensures seg[12] == 5 * 16 && seg[13] == flags && seg[14] == 250 && seg[15] == 240
    ensures seg[18] == 0 && seg[19] == 0 && seg[20..] == payload
  {
    var plain := U16(sport) + U16(dport) + U32(sequence) + U32(ack) + [80, flags] + U16(64240)
        + U16(0) + U16(0) + payload;
    assert forall i :: 0 <= i < 16 ==> seg[i] == plain[i];
    assert forall i :: 18 <= i < |plain| ==> seg[i] == plain[i];
    assert plain[..12] == TcpHead(sport, dport, sequence, ack);
  }

  /** A segment is produced exactly when all fields fit, and carries them: five header words, the flags, the
      window 64240, no urgent data, and the payload. */
  lemma TcpCarries(src: Address, dst: Address, sport: int, dport: int, sequence: int, ack: int, flags: int,
                   payload: seq<Byte>)
    ensures var r := Tcp(src, dst, sport, dport, sequence, ack, flags, payload);
            && (r.Some? <==> 0 <= sport < 65536 && 0 <= dport < 65536 && 0 <= sequence < 0x1_0000_0000
                             && 0 <= ack < 0x1_0000_0000 && 0 <= flags < 256 && 20 + |payload| < 65536)
            && (r.Some? ==>
                  var seg := r.value;
                  && |seg| == 20 + |payload|
                  && WordAt(seg, 0) == sport && WordAt(seg, 2) == dport
                  && LongAt(seg, 4) == sequence && LongAt(seg, 8) == ack
                  && seg[12] == 5 * 16 && seg[13] == flags && WordAt(seg, 14) == 64240 && WordAt(seg, 18) == 0
                  && seg[20..] == payload)
  {
    var r := Tcp(src, dst, sport, dport, sequence, ack, flags, payload);
    if r.Some? {
      TcpLayout(src, dst, sport, dport, sequence, ack, flags, payload, r.value);
      TcpHeadCarries(r.value[..12], sport, dport, sequence, ack);
    }
  }

  // ----- IPv4 -----

  /** A packet is produced exactly when length and protocol fit, and carries: version 4 with five header words,
      the total length, the identification, "do not fragment", 64 hops, the protocol and the addresses. */
  lemma Ip4Carries(src: Address, dst: Address, proto: int, payload: seq<Byte>, ident: int)
    ensures var r := Ip4(src, dst, proto, payload, ident);
            && (r.Some? <==> 0 <= proto < 256 && 20 + |payload| < 65536)
            && (r.Some? ==>
                  var pkt := r.value;
                  && |pkt| == 20 + |payload|
                  && pkt[0] == 4 * 16 + 5 && pkt[1] == 0 && WordAt(pkt, 2) == 20 + |payload|
                  && WordAt(pkt, 4) == ident % 65536 && WordAt(pkt, 6) == 0x4000
                  && pkt[8] == 64 && pkt[9] == proto
                  && pkt[12..16] == src && pkt[16..20] == dst && pkt[20..] == payload)
  {
    var r := Ip4(src, dst, proto, payload, ident);
    if r.Some? {
      var total := 20 + |payload|;
      var hdr := Ip4Header(src, dst, proto, total, ident);
      var rest := [64, proto] + U16(0) + src + dst;
      WordWithin(hdr, [0x45, 0], total, U16(ident % 65536) + U16(0x4000) + rest);
      WordWithin(hdr, [0x45, 0] + U16(total), ident % 65536, U16(0x4000) + rest);
      WordWithin(hdr, [0x45, 0] + U16(total) + U16(ident % 65536), 0x4000, rest);
      assert forall i :: 0 <= i < 10 ==> r.value[i] == hdr[i];
      Ip4HeaderChecks(src, dst, proto, payload, ident);
    }
  }
}
