// What an entry of the flow tracker, and the record made of it, say about the packets of
// its conversation: when it began and was last heard of, what was sent each way, and
// which flags were seen (flow.go).
module FlowTiming {
  import opened Basics
  import opened Flow
  import opened FlowConservation

  predicate SameConversation(p: Packet, q: Packet) {
    p.protocol == q.protocol && (SameDirection(p, q) || OppositeDirection(p, q))
  }

  datatype Heard = Heard(packet: Packet, at: int)

  /** The packets of q's conversation since its flow was last dropped. */
  function Burst(run: seq<Step>, q: Packet): seq<Heard> {
    if run == [] then []
    else
      var before := Burst(run[..|run| - 1], q);
      match run[|run| - 1]
      case Arrive(p, now) => if SameConversation(p, q) then before + [Heard(p, now)] else before
      case Drop(order) => if NormalizeKey(q).0 in order then [] else before
  }

  /** The packet goes from the entry's source to its destination. */
  predicate Along(p: Packet, f: Entry) {
    p.srcIP == f.srcIP && p.srcPort == f.srcPort && p.dstIP == f.dstIP && p.dstPort == f.dstPort
  }

  function SentMore(t: Tally, p: Packet, along: bool): Tally {
    if along then t.(bytesOut := t.bytesOut + p.size, packetsOut := t.packetsOut + 1)
    else t.(bytesIn := t.bytesIn + p.size, packetsIn := t.packetsIn + 1)
  }

  /** Bytes and packets along the entry, and against it. */
  function Sent(b: seq<Heard>, f: Entry): Tally {
    if b == [] then Tally(0, 0, 0, 0)
    else
      var p := b[|b| - 1].packet;
      SentMore(Sent(b[..|b| - 1], f), p, Along(p, f))
  }

  function FlagsOf(b: seq<Heard>): set<nat> {
    if b == [] then {} else FlagsOf(b[..|b| - 1]) + b[|b| - 1].packet.flags
  }

  /** The entry has one endpoint of q as its source and the other as its destination. */
  predicate Between(f: Entry, q: Packet) {
    f.protocol == q.protocol &&
    ((f.srcIP == q.srcIP && f.srcPort == q.srcPort && f.dstIP == q.dstIP && f.dstPort == q.dstPort)
     || (f.srcIP == q.dstIP && f.srcPort == q.dstPort && f.dstIP == q.srcIP && f.dstPort == q.srcPort))
  }

  predicate Tells(f: Entry, b: seq<Heard>, q: Packet) {
    && b != [] && Between(f, q)
    && f.start == b[0].at && f.lastSeen == b[|b| - 1].at
    && f.vlan == b[0].packet.vlan && f.flags == FlagsOf(b)
    && f.tally == Wrapped(Sent(b, f))
  }

  predicate TellsFor(flows: Flows, b: seq<Heard>, q: Packet) {
    var key := NormalizeKey(q).0;
    if b == [] then key !in flows else key in flows && Tells(flows[key], b, q)
  }

  lemma SentSnoc(b: seq<Heard>, h: Heard, f: Entry)
    ensures Sent(b + [h], f) == SentMore(Sent(b, f), h.packet, Along(h.packet, f))
    ensures FlagsOf(b + [h]) == FlagsOf(b) + h.packet.flags
  {
    assert (b + [h])[..|b|] == b;
  }

  lemma {:induction false} SentSameEnds(b: seq<Heard>, f: Entry, g: Entry)
    requires f.srcIP == g.srcIP && f.srcPort == g.srcPort && f.dstIP == g.dstIP && f.dstPort == g.dstPort
    ensures Sent(b, f) == Sent(b, g)
  {
    if b != [] {
      SentSameEnds(b[..|b| - 1], f, g);
    }
  }

  /** The direction flag says whether the packet runs along the entry of its key. */
  lemma DirectionIff(p: Packet, f: Entry)
    requires Printed(p) && Between(f, p)
    requires !StringLess(Endpoint(f.dstIP, f.dstPort), Endpoint(f.srcIP, f.srcPort))
    ensures NormalizeKey(p).1 <==> !Along(p, f)
  {
    StringLessTotal(Endpoint(p.srcIP, p.srcPort), Endpoint(p.dstIP, p.dstPort));
    EndpointInjective(p.srcIP, p.srcPort, p.dstIP, p.dstPort);
  }

  lemma BumpedSent(t: Tally, p: Packet, reversed: bool)
    ensures Bumped(Wrapped(t), p, reversed) == Wrapped(SentMore(t, p, !reversed))
  {
    ModAdd64(t.bytesOut, p.size);
    ModAdd64(t.bytesIn, p.size);
    ModAdd32(t.packetsOut, 1);
    ModAdd32(t.packetsIn, 1);
  }

  /** A packet counted into the entry of its conversation. */
  lemma CountedTells(f: Entry, b: seq<Heard>, p: Packet, now: int)
    requires Printed(p) && Between(f, p) && f.flags == FlagsOf(b) && f.tally == Wrapped(Sent(b, f))
    requires !StringLess(Endpoint(f.dstIP, f.dstPort), Endpoint(f.srcIP, f.srcPort))
    requires f.start == (b + [Heard(p, now)])[0].at && f.vlan == (b + [Heard(p, now)])[0].packet.vlan
    ensures Tells(Counted(f, p, NormalizeKey(p).1, now), b + [Heard(p, now)], p)
  {
    DirectionIff(p, f);
    BumpedSent(Sent(b, f), p, NormalizeKey(p).1);
    CountedOnce(f, b, p, now, NormalizeKey(p).1, Counted(f, p, NormalizeKey(p).1, now));
  }

  lemma CountedOnce(f: Entry, b: seq<Heard>, p: Packet, now: int, reversed: bool, g: Entry)
    requires Between(f, p) && f.flags == FlagsOf(b) && (reversed <==> !Along(p, f))
    requires f.start == (b + [Heard(p, now)])[0].at && f.vlan == (b + [Heard(p, now)])[0].packet.vlan
    requires g == f.(tally := Wrapped(SentMore(Sent(b, f), p, !reversed)), flags := f.flags + p.flags, lastSeen := now)
    ensures Tells(g, b + [Heard(p, now)], p)
  {
    SentSnoc(b, Heard(p, now), f);
    SentSameEnds(b + [Heard(p, now)], f, g);
  }

  lemma TellsSame(f: Entry, b: seq<Heard>, p: Packet, q: Packet)
    requires Tells(f, b, p) && SameConversation(p, q)
    ensures Tells(f, b, q)
  {
  }

  lemma OpenedTells(p: Packet, now: int)
    requires Printed(p)
    ensures var f := Opened(p, NormalizeKey(p).1, now);
            && Between(f, p) && !StringLess(Endpoint(f.dstIP, f.dstPort), Endpoint(f.srcIP, f.srcPort))
            && f.flags == FlagsOf([]) && f.tally == Wrapped(Sent([], f)) && f.start == now && f.vlan == p.vlan
  {
    StringLessTotal(Endpoint(p.srcIP, p.srcPort), Endpoint(p.dstIP, p.dstPort));
  }

  lemma ArriveTells(flows: Flows, b: seq<Heard>, p: Packet, now: int, q: Packet)
    requires Canonical(flows) && Printed(p) && Printed(q) && TellsFor(flows, b, q)
    ensures TellsFor(Updated(flows, p, now), if SameConversation(p, q) then b + [Heard(p, now)] else b, q)
  {
    SharedEntryIff(p, q);
    if SameConversation(p, q) {
      var key := NormalizeKey(p).0;
      if key in flows {
        BetweenSame(flows[key], p, q);
        CountedTells(flows[key], b, p, now);
      } else {
        OpenedTells(p, now);
        CountedTells(Opened(p, NormalizeKey(p).1, now), [], p, now);
      }
      TellsSame(Updated(flows, p, now)[key], b + [Heard(p, now)], p, q);
    }
  }

  lemma BetweenSame(f: Entry, p: Packet, q: Packet)
    requires SameConversation(p, q)
    ensures Between(f, p) <==> Between(f, q)
  {
  }

  lemma StepTells(w: World, run: seq<Step>, s: Step, w': World, q: Packet)
    requires StepTo(w, s, w') && Canonical(w.flows) && Printed(q) && TellsFor(w.flows, Burst(run, q), q)
    ensures TellsFor(w'.flows, Burst(run + [s], q), q)
  {
    assert (run + [s])[..|run|] == run;
    if s.Arrive? {
      ArriveTells(w.flows, Burst(run, q), s.packet, s.now, q);
    }
  }

  /** After every run, a conversation has an entry exactly when a packet of it arrived since its flow was last
      dropped; the entry began with the first such packet, was last heard of with the last, has the flags of
      all of them, and counts what went each way, up to the widths of the counters. */
  lemma {:induction false} EntryTellsItsPackets(run: seq<Step>, ws: seq<World>, n: nat, q: Packet)
    requires IsRun(run, ws) && n <= |run| && Printed(q)
    ensures TellsFor(ws[n].flows, Burst(run[..n], q), q)
  {
    if n == 0 {
      assert run[..0] == [];
    } else {
      EntryTellsItsPackets(run, ws, n - 1, q);
      RunBalances(run, ws, n - 1);
      StepTells(ws[n - 1], run[..n - 1], run[n - 1], ws[n], q);
      assert run[..n] == run[..n - 1] + [run[n - 1]];
    }
  }

  /** So an expiry drops a conversation exactly when its last packet came before the timeout, and its record has
      the time of the first packet and the span to the last, in milliseconds. */
  lemma ExpiresIff(run: seq<Step>, ws: seq<World>, n: nat, q: Packet, idleTimeout: int, now: int)
    requires IsRun(run, ws) && n <= |run| && Printed(q)
    ensures var flows, key, b := ws[n].flows, NormalizeKey(q).0, Burst(run[..n], q);
            && (key in flows && flows[key].lastSeen < now - idleTimeout
                <==> b != [] && b[|b| - 1].at + idleTimeout < now)
            && (b != [] ==>
                  key in flows &&
                  var r := Exported(flows[key]);
                  && r.timestamp == b[0].at && r.flags == FlagsOf(b) && r.vlan == b[0].packet.vlan
                  && r.durationMs == (b[|b| - 1].at - b[0].at) / 1_000_000 % 0x1_0000_0000)
  {
    EntryTellsItsPackets(run, ws, n, q);
  }
}
