// Bidirectional flow aggregation of the capture path (flow.go).
module Flow {
  import opened Basics

  const U64 := 0x1_0000_0000_0000_0000
  const U32 := 0x1_0000_0000

  /** One captured packet; addresses are given as net.IP prints them, TCP flags as the set of bits. */
  datatype Packet = Packet(srcIP: string, dstIP: string, srcPort: nat, dstPort: nat, protocol: nat,
                           size: nat, flags: set<nat>, vlan: nat)

  /** Traffic per direction: bytes and packets. */
  datatype Tally = Tally(bytesOut: nat, bytesIn: nat, packetsOut: nat, packetsIn: nat)

  datatype Entry = Entry(srcIP: string, dstIP: string, srcPort: nat, dstPort: nat, protocol: nat,
                         tally: Tally, flags: set<nat>, vlan: nat, start: int, lastSeen: int)

  datatype Record = Record(timestamp: int, srcIP: string, srcPort: nat, dstIP: string, dstPort: nat, protocol: nat,
                           tally: Tally, durationMs: nat, flags: set<nat>, vlan: nat)

  type Flows = map<string, Entry>

  /** What every printed address satisfies. */
  predicate Printed(p: Packet) {
    '|' !in p.srcIP && '|' !in p.dstIP
  }

  function Endpoint(ip: string, port: nat): string {
    ip + ":" + Decimal(port)
  }

  function FlowKey(protocol: nat, a: string, b: string): string {
    Decimal(protocol) + "|" + a + "|" + b
  }

  /** The key shared by both directions, and whether the packet runs against the canonical one. */
  function NormalizeKey(p: Packet): (string, bool) {
    var src, dst := Endpoint(p.srcIP, p.srcPort), Endpoint(p.dstIP, p.dstPort);
    if StringLess(dst, src) then (FlowKey(p.protocol, dst, src), true) else (FlowKey(p.protocol, src, dst), false)
  }

  function Opened(p: Packet, reversed: bool, now: int): Entry {
    if reversed then Entry(p.dstIP, p.srcIP, p.dstPort, p.srcPort, p.protocol, Tally(0, 0, 0, 0), {}, p.vlan, now, now)
    else Entry(p.srcIP, p.dstIP, p.srcPort, p.dstPort, p.protocol, Tally(0, 0, 0, 0), {}, p.vlan, now, now)
  }

  /** What one packet adds, in its direction. */
  function Share(p: Packet, reversed: bool): Tally {
    if reversed then Tally(0, p.size, 0, 1) else Tally(p.size, 0, 1, 0)
  }

  function Plus(a: Tally, b: Tally): Tally {
    Tally(a.bytesOut + b.bytesOut, a.bytesIn + b.bytesIn, a.packetsOut + b.packetsOut, a.packetsIn + b.packetsIn)
  }

  /** uint64 bytes and uint32 packets of the packet's direction, wrapping around. */
  function Bumped(t: Tally, p: Packet, reversed: bool): Tally {
    if reversed then t.(bytesIn := (t.bytesIn + p.size) % U64, packetsIn := (t.packetsIn + 1) % U32)
    else t.(bytesOut := (t.bytesOut + p.size) % U64, packetsOut := (t.packetsOut + 1) % U32)
  }

  function Counted(f: Entry, p: Packet, reversed: bool, now: int): Entry {
    f.(tally := Bumped(f.tally, p, reversed), flags := f.flags + p.flags, lastSeen := now)
  }

  function Updated(flows: Flows, p: Packet, now: int): Flows {
    var (key, reversed) := NormalizeKey(p);
    flows[key := Counted(if key in flows then flows[key] else Opened(p, reversed, now), p, reversed, now)]
  }

  function Exported(f: Entry): Record {
    Record(f.start, f.srcIP, f.srcPort, f.dstIP, f.dstPort, f.protocol, f.tally,
           (f.lastSeen - f.start) / 1_000_000 % U32, f.flags, f.vlan)
  }

  function RecordsOf(flows: Flows, order: seq<string>): seq<Record>
    requires forall k :: k in order ==> k in flows
  {
    if order == [] then []
    else RecordsOf(flows, order[..|order| - 1]) + [Exported(flows[order[|order| - 1]])]
  }

  lemma RecordsSnoc(flows: Flows, order: seq<string>, k: string)
    requires k in flows && forall j :: j in order ==> j in flows
    ensures RecordsOf(flows, order + [k]) == RecordsOf(flows, order) + [Exported(flows[k])]
  {
    assert (order + [k])[..|order|] == order;
  }

  /** What draining one more flow adds to the drained ones. */
  lemma DrainStep(flows: Flows, gone: set<string>, todo: set<string>, order: seq<string>, k: string)
    requires k in todo && todo <= gone && gone <= flows.Keys
    requires NoDuplicates(order) && forall j :: j in order <==> j in gone && j !in todo
    ensures NoDuplicates(order + [k]) && forall j :: j in order + [k] <==> j in gone && j !in todo - {k}
    ensures flows - (gone - todo) - {k} == flows - (gone - (todo - {k}))
  {
    assert k !in order;
  }

  class FlowTracker {
    var flows: Flows
    var handedOver: seq<Record>  // everything given to export, whether or not the channel had room

    constructor ()
      ensures flows == map[] && handedOver == []
    {
      flows, handedOver := map[], [];
    }

    method Update(p: Packet, now: int)
      modifies this`flows
      ensures flows == Updated(old(flows), p, now)
    {
      var (key, reversed) := NormalizeKey(p);
      var f := Entry(p.srcIP, p.dstIP, p.srcPort, p.dstPort, p.protocol, Tally(0, 0, 0, 0), {}, p.vlan, now, now);
      if key in flows {
        f := flows[key];
      } else if reversed {
        f := f.(srcIP := f.dstIP, dstIP := f.srcIP, srcPort := f.dstPort, dstPort := f.srcPort);
      }
      assert f == if key in flows then flows[key] else Opened(p, reversed, now);
      var t := f.tally;
      if !reversed {
        t := t.(bytesOut := (t.bytesOut + p.size) % U64, packetsOut := (t.packetsOut + 1) % U32);
      } else {
        t := t.(bytesIn := (t.bytesIn + p.size) % U64, packetsIn := (t.packetsIn + 1) % U32);
      }
      f := f.(lastSeen := now, flags := f.flags + p.flags, tally := t);
      flows := flows[key := f];
    }

    method Export(f: Entry)
      modifies this`handedOver
      ensures handedOver == old(handedOver) + [Exported(f)]
    {
      var duration := f.lastSeen - f.start;
      var rec := Record(f.start, f.srcIP, f.srcPort, f.dstIP, f.dstPort, f.protocol, f.tally,
                        duration / 1_000_000 % U32, f.flags, f.vlan);
      handedOver := handedOver + [rec];
    }

    /** Exports and drops the given flows, in whatever order the map yields them. */
    method Drain(gone: set<string>) returns (ghost order: seq<string>)
      requires gone <= flows.Keys
      modifies this
      ensures NoDuplicates(order) && forall k :: k in order <==> k in gone
      ensures flows == old(flows) - gone
      ensures handedOver == old(handedOver) + RecordsOf(old(flows), order)
    {
      order := [];
      var todo := gone;
      while todo != {}
        invariant todo <= gone && gone <= old(flows).Keys
        invariant NoDuplicates(order) && forall k :: k in order <==> k in gone && k !in todo
        invariant flows == old(flows) - (gone - todo)
        invariant handedOver == old(handedOver) + RecordsOf(old(flows), order)
        decreases todo
      {
        var k :| k in todo;
        Export(flows[k]);
        flows := flows - {k};
        RecordsSnoc(old(flows), order, k);
        DrainStep(old(flows), gone, todo, order, k);
        order := order + [k];
        todo := todo - {k};
      }
    }

    method Expire(idleTimeout: int, now: int) returns (ghost order: seq<string>)
      modifies this
      ensures NoDuplicates(order)
      ensures forall k :: k in order <==> k in old(flows) && old(flows)[k].lastSeen < now - idleTimeout
      ensures flows == map k | k in old(flows) && !(old(flows)[k].lastSeen < now - idleTimeout) :: old(flows)[k]
      ensures handedOver == old(handedOver) + RecordsOf(old(flows), order)
    {
      var cutoff := now - idleTimeout;
      order := Drain(set k | k in flows && flows[k].lastSeen < cutoff);
    }

    method FlushAll() returns (ghost order: seq<string>)
      modifies this
      ensures NoDuplicates(order) && forall k :: k in order <==> k in old(flows)
      ensures flows == map[]
      ensures handedOver == old(handedOver) + RecordsOf(old(flows), order)
    {
      order := Drain(flows.Keys);
    }
  }

  // ----- keys -----

  lemma EndpointInjective(ip: string, port: nat, ip': string, port': nat)
    ensures Endpoint(ip, port) == Endpoint(ip', port') <==> ip == ip' && port == port'
  {
    if Endpoint(ip, port) == Endpoint(ip', port') {
      NoSeparatorInDecimal(port);
      NoSeparatorInDecimal(port');
      LastSeparator(ip, Decimal(port), ip', Decimal(port'), ':');
      DecimalInjective(port, port');
    }
  }

  lemma NoSeparatorInDecimal(n: nat)
    ensures ':' !in Decimal(n) && '|' !in Decimal(n)
  {
    DecimalRoundTrip(n);
  }

  lemma EndpointPlain(ip: string, port: nat)
    requires '|' !in ip
    ensures '|' !in Endpoint(ip, port)
  {
    NoSeparatorInDecimal(port);
  }

  lemma FlowKeyInjective(protocol: nat, a: string, b: string, protocol': nat, a': string, b': string)
    requires '|' !in a && '|' !in b && '|' !in a' && '|' !in b'
    ensures FlowKey(protocol, a, b) == FlowKey(protocol', a', b') <==> protocol == protocol' && a == a' && b == b'
  {
    if FlowKey(protocol, a, b) == FlowKey(protocol', a', b') {
      LastSeparator(Decimal(protocol) + "|" + a, b, Decimal(protocol') + "|" + a', b', '|');
      LastSeparator(Decimal(protocol), a, Decimal(protocol'), a', '|');
      DecimalInjective(protocol, protocol');
    }
  }

  predicate SameDirection(p: Packet, q: Packet) {
    p.srcIP == q.srcIP && p.srcPort == q.srcPort && p.dstIP == q.dstIP && p.dstPort == q.dstPort
  }

  predicate OppositeDirection(p: Packet, q: Packet) {
    p.srcIP == q.dstIP && p.srcPort == q.dstPort && p.dstIP == q.srcIP && p.dstPort == q.srcPort
  }

  /** Two packets share an entry exactly when they belong to one conversation: same protocol and same
      pair of endpoints, in either direction. */
  lemma SharedEntryIff(p: Packet, q: Packet)
    requires Printed(p) && Printed(q)
    ensures NormalizeKey(p).0 == NormalizeKey(q).0
       <==> p.protocol == q.protocol && (SameDirection(p, q) || OppositeDirection(p, q))
  {
    var ps, pd := Endpoint(p.srcIP, p.srcPort), Endpoint(p.dstIP, p.dstPort);
    var qs, qd := Endpoint(q.srcIP, q.srcPort), Endpoint(q.dstIP, q.dstPort);
    EndpointPlain(p.srcIP, p.srcPort);
    EndpointPlain(p.dstIP, p.dstPort);
    EndpointPlain(q.srcIP, q.srcPort);
    EndpointPlain(q.dstIP, q.dstPort);
    var (pa, pb) := if StringLess(pd, ps) then (pd, ps) else (ps, pd);
    var (qa, qb) := if StringLess(qd, qs) then (qd, qs) else (qs, qd);
    FlowKeyInjective(p.protocol, pa, pb, q.protocol, qa, qb);
    StringLessTotal(ps, pd);
    StringLessTotal(qs, qd);
    EndpointInjective(p.srcIP, p.srcPort, q.srcIP, q.srcPort);
    EndpointInjective(p.dstIP, p.dstPort, q.dstIP, q.dstPort);
    EndpointInjective(p.srcIP, p.srcPort, q.dstIP, q.dstPort);
    EndpointInjective(p.dstIP, p.dstPort, q.srcIP, q.srcPort);
  }
}
