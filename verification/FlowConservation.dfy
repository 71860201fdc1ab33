// No traffic is lost or invented between the wire and the exported records.
module FlowConservation {
  import opened Basics
  import opened Flow

  const ZERO := Tally(0, 0, 0, 0)

  /** A packet arrives, or some flows are exported and dropped (an expiry or a flush). */
  datatype Step = Arrive(packet: Packet, now: int) | Drop(order: seq<string>)

  datatype World = World(flows: Flows, handedOver: seq<Record>)

  predicate Legal(w: World, s: Step) {
    match s
    case Arrive(p, _) => Printed(p)
    case Drop(order) => NoDuplicates(order) && forall k :: k in order ==> k in w.flows
  }

  function Next(w: World, s: Step): World
    requires Legal(w, s)
  {
    match s
    case Arrive(p, now) => w.(flows := Updated(w.flows, p, now))
    case Drop(order) => World(w.flows - (set k | k in order), w.handedOver + RecordsOf(w.flows, order))
  }

  // ----- the three accounts of one conversation -----

  /** What the wire carried. */
  function Seen(run: seq<Step>, key: string): Tally {
    if run == [] then ZERO
    else
      var before, s := Seen(run[..|run| - 1], key), run[|run| - 1];
      if s.Arrive? && NormalizeKey(s.packet).0 == key then Plus(before, Share(s.packet, NormalizeKey(s.packet).1))
      else before
  }

  function Live(flows: Flows, key: string): Tally {
    if key in flows then flows[key].tally else ZERO
  }

  function KeyOfRecord(r: Record): string {
    FlowKey(r.protocol, Endpoint(r.srcIP, r.srcPort), Endpoint(r.dstIP, r.dstPort))
  }

  function Reported(records: seq<Record>, key: string): Tally {
    if records == [] then ZERO
    else
      var before, r := Reported(records[..|records| - 1], key), records[|records| - 1];
      if KeyOfRecord(r) == key then Plus(before, r.tally) else before
  }

  function Wrapped(t: Tally): Tally {
    Tally(t.bytesOut % U64, t.bytesIn % U64, t.packetsOut % U32, t.packetsIn % U32)
  }

  /** Equal up to the wrap-around of the counters. */
  predicate Congruent(a: Tally, b: Tally) {
    Wrapped(a) == Wrapped(b)
  }

  predicate AtMost(a: Tally, b: Tally) {
    a.bytesOut <= b.bytesOut && a.bytesIn <= b.bytesIn && a.packetsOut <= b.packetsOut && a.packetsIn <= b.packetsIn
  }

  predicate Fits(t: Tally) {
    t.bytesOut < U64 && t.bytesIn < U64 && t.packetsOut < U32 && t.packetsIn < U32
  }

  /** Every entry is stored under its own key and in the canonical orientation. */
  predicate Canonical(flows: Flows) {
    forall k :: k in flows ==>
      var f := flows[k];
      var a, b := Endpoint(f.srcIP, f.srcPort), Endpoint(f.dstIP, f.dstPort);
      !StringLess(b, a) && k == FlowKey(f.protocol, a, b)
  }

  ghost predicate Balanced(w: World, run: seq<Step>) {
    forall key :: BalancedFor(w, run, key)
  }

  // ----- arithmetic -----

  lemma ModAdd64(x: int, y: int)
    ensures (x % U64 + y) % U64 == (x + y) % U64
  {
    var k, q := x / U64, (x % U64 + y) / U64;
    assert x + y == U64 * (k + q) + (x % U64 + y) % U64;
  }

  lemma ModAdd32(x: int, y: int)
    ensures (x % U32 + y) % U32 == (x + y) % U32
  {
    var k, q := x / U32, (x % U32 + y) / U32;
    assert x + y == U32 * (k + q) + (x % U32 + y) % U32;
  }

  /** Congruence survives adding the same traffic on both sides. */
  lemma CongruentPlus(a: Tally, b: Tally, c: Tally)
    requires Congruent(a, b)
    ensures Congruent(Plus(a, c), Plus(b, c))
  {
    ModAdd64(a.bytesOut, c.bytesOut);
    ModAdd64(b.bytesOut, c.bytesOut);
    ModAdd64(a.bytesIn, c.bytesIn);
    ModAdd64(b.bytesIn, c.bytesIn);
    ModAdd32(a.packetsOut, c.packetsOut);
    ModAdd32(b.packetsOut, c.packetsOut);
    ModAdd32(a.packetsIn, c.packetsIn);
    ModAdd32(b.packetsIn, c.packetsIn);
  }

  /** Counting a packet adds its share, up to wrap-around. */
  lemma BumpedLaws(t: Tally, p: Packet, reversed: bool)
    ensures Congruent(Bumped(t, p, reversed), Plus(t, Share(p, reversed)))
    ensures AtMost(Bumped(t, p, reversed), Plus(t, Share(p, reversed)))
  {
    var u := Plus(t, Share(p, reversed));
    ModAdd64(u.bytesOut, 0);
    ModAdd64(u.bytesIn, 0);
    ModAdd32(u.packetsOut, 0);
    ModAdd32(u.packetsIn, 0);
  }

  /** Without overflow, equal modulo the counter widths means equal. */
  lemma NoOverflowExact(a: Tally, b: Tally)
    requires Congruent(a, b) && AtMost(a, b) && Fits(b)
    ensures a == b
  {
  }

  // ----- a packet arrives -----

  lemma ArriveCanonical(flows: Flows, p: Packet, now: int)
    requires Canonical(flows)
    ensures Canonical(Updated(flows, p, now))
  {
    StringLessTotal(Endpoint(p.srcIP, p.srcPort), Endpoint(p.dstIP, p.dstPort));
  }

  lemma ArriveBalances(live: Tally, p: Packet, reversed: bool, reported: Tally, seen: Tally)
    requires Congruent(Plus(live, reported), seen) && AtMost(Plus(live, reported), seen)
    ensures Congruent(Plus(Bumped(live, p, reversed), reported), Plus(seen, Share(p, reversed)))
    ensures AtMost(Plus(Bumped(live, p, reversed), reported), Plus(seen, Share(p, reversed)))
  {
    var share := Share(p, reversed);
    BumpedLaws(live, p, reversed);
    CongruentPlus(Bumped(live, p, reversed), Plus(live, share), reported);
    CongruentPlus(Plus(live, reported), seen, share);
    assert Plus(Plus(live, share), reported) == Plus(Plus(live, reported), share);
  }

  // ----- flows are handed over -----

  lemma ReportedSnoc(records: seq<Record>, r: Record, key: string)
    ensures Reported(records + [r], key) ==
              if KeyOfRecord(r) == key then Plus(Reported(records, key), r.tally) else Reported(records, key)
  {
    assert (records + [r])[..|records|] == records;
  }

  /** Each dropped flow adds its tally to the report of its own conversation, once. */
  lemma {:induction false} DropReports(flows: Flows, records: seq<Record>, order: seq<string>, key: string)
    requires Canonical(flows) && NoDuplicates(order) && forall k :: k in order ==> k in flows
    ensures Reported(records + RecordsOf(flows, order), key) ==
            if key in order then Plus(Reported(records, key), flows[key].tally) else Reported(records, key)
  {
    if order == [] {
      assert records + RecordsOf(flows, order) == records;
    } else {
      var n := |order| - 1;
      var k := order[n];
      assert order == order[..n] + [k];
      DropReports(flows, records, order[..n], key);
      var r := Exported(flows[k]);
      assert records + RecordsOf(flows, order) == (records + RecordsOf(flows, order[..n])) + [r];
      ReportedSnoc(records + RecordsOf(flows, order[..n]), r, key);
      assert KeyOfRecord(r) == k;
      assert k !in order[..n];
    }
  }

  /** What the tracker and its records hold together for a conversation. */
  function Held(w: World, key: string): Tally {
    Plus(Live(w.flows, key), Reported(w.handedOver, key))
  }

  predicate BalancedFor(w: World, run: seq<Step>, key: string) {
    Congruent(Held(w, key), Seen(run, key)) && AtMost(Held(w, key), Seen(run, key))
  }

  lemma SeenSnoc(run: seq<Step>, s: Step, key: string)
    ensures Seen(run + [s], key) ==
            if s.Arrive? && NormalizeKey(s.packet).0 == key
                then Plus(Seen(run, key), Share(s.packet, NormalizeKey(s.packet).1))
            else Seen(run, key)
  {
    assert (run + [s])[..|run|] == run;
  }

  lemma ArriveKeeps(w: World, run: seq<Step>, p: Packet, now: int, key: string)
    requires BalancedFor(w, run, key)
    ensures BalancedFor(w.(flows := Updated(w.flows, p, now)), run + [Arrive(p, now)], key)
  {
    SeenSnoc(run, Arrive(p, now), key);
    var (k, reversed) := NormalizeKey(p);
    var live' := Live(Updated(w.flows, p, now), key);
    if key == k {
      assert live' == Bumped(Live(w.flows, key), p, reversed);
      ArriveBalances(Live(w.flows, key), p, reversed, Reported(w.handedOver, key), Seen(run, key));
    } else {
      assert live' == Live(w.flows, key);
    }
  }

  lemma DropKeeps(w: World, run: seq<Step>, order: seq<string>, key: string)
    requires Canonical(w.flows) && NoDuplicates(order) && forall k :: k in order ==> k in w.flows
    requires BalancedFor(w, run, key)
    ensures BalancedFor(World(w.flows - (set k | k in order), w.handedOver + RecordsOf(w.flows, order)),
              run + [Drop(order)], key)
  {
    SeenSnoc(run, Drop(order), key);
    DropHeld(w, order, key);
  }

  lemma DropHeld(w: World, order: seq<string>, key: string)
    requires Canonical(w.flows) && NoDuplicates(order) && forall k :: k in order ==> k in w.flows
    ensures Held(World(w.flows - (set k | k in order), w.handedOver + RecordsOf(w.flows, order)), key) == Held(w, key)
  {
    DropReports(w.flows, w.handedOver, order, key);
    var gone := set k | k in order;
    assert key in gone <==> key in order;
    assert Live(w.flows - gone, key) == if key in order then ZERO else Live(w.flows, key);
    PlusCommutes(Reported(w.handedOver, key), Live(w.flows, key));
  }

  lemma PlusCommutes(a: Tally, b: Tally)
    ensures Plus(ZERO, Plus(a, b)) == Plus(b, a)
  {
  }

  lemma StepBalances(w: World, run: seq<Step>, s: Step)
    requires Legal(w, s) && Canonical(w.flows) && Balanced(w, run)
    ensures Canonical(Next(w, s).flows) && Balanced(Next(w, s), run + [s])
  {
    forall key
      ensures BalancedFor(Next(w, s), run + [s], key)
    {
      assert BalancedFor(w, run, key);
      match s
      case Arrive(p, now) => ArriveKeeps(w, run, p, now, key);
      case Drop(order) => DropKeeps(w, run, order, key);
    }
    if s.Arrive? {
      ArriveCanonical(w.flows, s.packet, s.now);
    }
  }

  predicate StepTo(w: World, s: Step, w': World) {
    Legal(w, s) && w' == Next(w, s)
  }

  /** The states of a run that starts with an empty tracker. */
  ghost predicate IsRun(run: seq<Step>, ws: seq<World>) {
    && |ws| == |run| + 1 && ws[0] == World(map[], [])
    && forall i :: 0 <= i < |run| ==> StepTo(ws[i], run[i], ws[i + 1])
  }

  lemma StartBalances()
    ensures Canonical(map[]) && Balanced(World(map[], []), [])
  {
    forall key
      ensures BalancedFor(World(map[], []), [], key)
    {
      StartHeld(key);
      EqualIsBalanced(World(map[], []), [], key);
    }
  }

  lemma StartHeld(key: string)
    ensures Held(World(map[], []), key) == Seen([], key)
  {
    assert Seen([], key) == ZERO;
    assert Reported([], key) == ZERO;
  }

  lemma EqualIsBalanced(w: World, run: seq<Step>, key: string)
    requires Held(w, key) == Seen(run, key)
    ensures BalancedFor(w, run, key)
  {
  }

  lemma StepToBalances(w: World, run: seq<Step>, s: Step, w': World)
    requires StepTo(w, s, w') && Canonical(w.flows) && Balanced(w, run)
    ensures Canonical(w'.flows) && Balanced(w', run + [s])
  {
    StepBalances(w, run, s);
  }

  lemma {:induction false} RunBalances(run: seq<Step>, ws: seq<World>, n: nat)
    requires IsRun(run, ws) && n <= |run|
    ensures Canonical(ws[n].flows) && Balanced(ws[n], run[..n])
  {
    if n == 0 {
      StartBalances();
      assert run[..0] == [];
    } else {
      RunBalances(run, ws, n - 1);
      StepToBalances(ws[n - 1], run[..n - 1], run[n - 1], ws[n]);
      assert run[..n] == run[..n - 1] + [run[n - 1]];
    }
  }

  /** After any run of updates, expiries and flushes, what the wire carried for a conversation in each
      direction is what its live entry and the records handed over hold together: always modulo the
      counter widths, and exactly as long as the totals fit the counters. */
  lemma Conservation(run: seq<Step>, ws: seq<World>, key: string)
    requires IsRun(run, ws)
    ensures var held := Held(ws[|run|], key);
            && Congruent(held, Seen(run, key))
            && (Fits(Seen(run, key)) ==> held == Seen(run, key))
  {
    RunBalances(run, ws, |run|);
    assert run[..|run|] == run;
    BalancedAt(ws[|run|], run, key);
  }

  lemma BalancedAt(w: World, run: seq<Step>, key: string)
    requires Balanced(w, run)
    ensures var held := Held(w, key);
            Congruent(held, Seen(run, key)) && (Fits(Seen(run, key)) ==> held == Seen(run, key))
  {
    var held := Held(w, key);
    assert BalancedFor(w, run, key);
    if Fits(Seen(run, key)) {
      NoOverflowExact(held, Seen(run, key));
    }
  }
}
