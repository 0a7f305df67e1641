/** Laws of the flow meter over whole runs, and of the periodic meter it is compared with. */
module FlowMeterRuns {
  import opened FlowRecords
  import opened FlowMeterSpec
  import opened FlowMeterInvariants

  /** The two things that happen to an indirect block; the clock reading is part of the event. */
  datatype Event = Arrival(p: Packet, now: nat) | Tick(now: nat)

  function Arrivals(events: seq<Event>): seq<Packet> {
    if events == [] then []
    else if events[0].Arrival? then [events[0].p] + Arrivals(events[1..])
    else Arrivals(events[1..])
  }

  /** With a clock that never goes back, `events` take meter `m` to `m'` without a throw or an endless pass. */
  ghost predicate RunsTo(c: Config, m: Meter, clock: nat, events: seq<Event>, m': Meter, clock': nat)
    decreases |events|
  {
    if events == [] then m' == m && clock' == clock
    else
      && clock <= events[0].now < U64
      && match events[0]
         case Arrival(p, now) =>
           ReceiveStep(c, m, p, now).Ok? && RunsTo(c, ReceiveStep(c, m, p, now).meter, now, events[1..], m', clock')
         case Tick(now) =>
           && Consistent(m) && PassWillEnd(c, m.table, now)
           && RunsTo(c, TimerStep(c, m, now), now, events[1..], m', clock')
  }

  lemma ReceiveKeepsInv(c: Config, m: Meter, p: Packet, clock: nat, now: nat)
    requires Inv(c, m, clock) && clock <= now < U64 && ReceiveStep(c, m, p, now).Ok?
    ensures Inv(c, ReceiveStep(c, m, p, now).meter, now)
  {
    if p.key in m.table {
      UpdateKeepsInv(c, m, p, clock, now);
    } else {
      InsertKeepsInv(c, m, p, clock, now);
    }
  }

  lemma ReceiveKeepsBalance(c: Config, m: Meter, p: Packet, now: nat, ps: seq<Packet>)
    requires Balanced(m.exported, m.table, ps, c.store) && KeyedByKey(m.table)
    ensures var m' := ReceiveStep(c, m, p, now).meter;
            Balanced(m'.exported, m'.table, ps + [p], c.store)
  {
    if p.key in m.table && ActiveTimeout(c, m.table[p.key], now) {
      var r := m.table[p.key];
      var reset := m.table[p.key := Blank(p.key)];
      ExportKeepsBalance(m.exported, m.table, ps, c.store, p.key, Expand(r, now), reset);
      AbsorbKeepsBalance(m.exported + [Expand(r, now)], reset, ps, c.store, p, now);
      assert reset[p.key := Absorb(Blank(p.key), p, now, c.store)]
          == m.table[p.key := Absorb(Blank(p.key), p, now, c.store)];
    } else {
      AbsorbKeepsBalance(m.exported, m.table, ps, c.store, p, now);
    }
  }

  lemma {:induction false} PassKeepsBalance(c: Config, table: map<FlowKey, Record>, todo: seq<Slot>, done: seq<Slot>,
                                            exported: seq<Record>, now: nat, ps: seq<Packet>)
    requires forall i :: 0 <= i < |todo| ==> todo[i].key in table
    requires DistinctKeys(todo) && KeyedByKey(table)
    requires Balanced(exported, table, ps, c.store)
    ensures var m := Pass(c, table, todo, done, exported, now); Balanced(m.exported, m.table, ps, c.store)
    decreases |todo|
  {
    if todo != [] {
      var k := todo[0].key;
      if table[k].etime < Limit(c, now) {
        ExportKeepsBalance(exported, table, ps, c.store, k, table[k], table - {k});
        PassKeepsBalance(c, table - {k}, todo[1..], done, exported + [table[k]], now, ps);
      } else if todo[0].lastChecked <= Limit(c, now) {
        PassKeepsBalance(c, table, todo[1..], done + [Slot(k, now)], exported, now, ps);
      }
    }
  }

  lemma {:induction false} RunKeepsLaws(c: Config, m: Meter, clock: nat, events: seq<Event>, m': Meter, clock': nat,
                                        ps: seq<Packet>)
    requires c.idle < U64 && RunsTo(c, m, clock, events, m', clock')
    requires Inv(c, m, clock) && Balanced(m.exported, m.table, ps, c.store)
    ensures Inv(c, m', clock') && Balanced(m'.exported, m'.table, ps + Arrivals(events), c.store)
    decreases |events|
  {
    if events == [] {
      assert ps + [] == ps;
    } else {
      var now := events[0].now;
      if events[0].Arrival? {
        var p := events[0].p;
        ReceiveKeepsInv(c, m, p, clock, now);
        ReceiveKeepsBalance(c, m, p, now, ps);
        RunKeepsLaws(c, ReceiveStep(c, m, p, now).meter, now, events[1..], m', clock', ps + [p]);
        assert ps + [p] + Arrivals(events[1..]) == ps + Arrivals(events);
      } else {
        TimerKeepsInv(c, m, clock, now);
        PassKeepsBalance(c, m.table, m.queue, [], m.exported, now, ps);
        RunKeepsLaws(c, TimerStep(c, m, now), now, events[1..], m', clock', ps);
      }
    }
  }

  // ---------------------------------------------------------------------------------------------
  // The laws
  // ---------------------------------------------------------------------------------------------

  /** In every reachable state: table/queue bijection, sorted queue, time bounds, and the books balance. */
  lemma RunLaws(c: Config, events: seq<Event>, m: Meter, clock: nat)
    requires c.idle < U64 && RunsTo(c, EMPTY, 0, events, m, clock)
    ensures Inv(c, m, clock) && Balanced(m.exported, m.table, Arrivals(events), c.store)
  {
    RunKeepsLaws(c, EMPTY, 0, events, m, clock, []);
    assert [] + Arrivals(events) == Arrivals(events);
  }

  /** After a timer pass at `now`, every flow in the table was last seen after `now - 2 * idle`. */
  lemma TimerLeavesNoStaleFlow(c: Config, events: seq<Event>, m: Meter, clock: nat, now: nat)
    requires c.idle < U64 && RunsTo(c, EMPTY, 0, events, m, clock) && clock <= now
    requires PassWillEnd(c, m.table, now)
    ensures Consistent(m)
    ensures forall k :: k in TimerStep(c, m, now).table ==> now < TimerStep(c, m, now).table[k].etime + 2 * c.idle
  {
    RunLaws(c, events, m, clock);
    TimerKeepsInv(c, m, clock, now);
  }

  lemma {:induction false} PassOnlyAddsExports(c: Config, table: map<FlowKey, Record>, todo: seq<Slot>, done: seq<Slot>,
                                               exported: seq<Record>, now: nat)
    requires forall i :: 0 <= i < |todo| ==> todo[i].key in table
    requires DistinctKeys(todo)
    ensures exported <= Pass(c, table, todo, done, exported, now).exported
    decreases |todo|
  {
    if todo != [] {
      var k := todo[0].key;
      if table[k].etime < Limit(c, now) {
        PassOnlyAddsExports(c, table - {k}, todo[1..], done, exported + [table[k]], now);
      } else if todo[0].lastChecked <= Limit(c, now) {
        PassOnlyAddsExports(c, table, todo[1..], done + [Slot(k, now)], exported, now);
      }
    }
  }

  /** What was exported stays exported, with the contents it had. */
  lemma {:induction false} ExportsAreFinal(c: Config, m: Meter, clock: nat, events: seq<Event>, m': Meter, clock': nat)
    requires RunsTo(c, m, clock, events, m', clock')
    ensures m.exported <= m'.exported
    decreases |events|
  {
    if events != [] {
      var now := events[0].now;
      if events[0].Arrival? {
        ExportsAreFinal(c, ReceiveStep(c, m, events[0].p, now).meter, now, events[1..], m', clock');
      } else {
        PassOnlyAddsExports(c, m.table, m.queue, [], m.exported, now);
        ExportsAreFinal(c, TimerStep(c, m, now), now, events[1..], m', clock');
      }
    }
  }

  lemma {:induction false} KeysCount(table: map<FlowKey, Record>, queue: seq<Slot>)
    requires DistinctKeys(queue) && SameKeys(table, queue)
    ensures |table| == |queue|
    decreases |queue|
  {
    if queue == [] {
      assert table == map[] by {
        if k :| k in table {
          assert false;
        }
      }
    } else {
      DropHead(table, queue);
      KeysCount(table - {queue[0].key}, queue[1..]);
      assert (table - {queue[0].key}).Keys == table.Keys - {queue[0].key};
    }
  }

  /** A packet makes the meter throw exactly when it starts a flow and Q_SIZE - 1 flows are live. */
  lemma ThrowsExactlyWhenFull(c: Config, events: seq<Event>, m: Meter, clock: nat, p: Packet, now: nat)
    requires c.idle < U64 && RunsTo(c, EMPTY, 0, events, m, clock) && clock <= now < U64
    ensures ReceiveStep(c, m, p, now).QueueFull? <==> p.key !in m.table && |m.table| == 131071
    ensures |m.table| <= 131071
  {
    RunLaws(c, events, m, clock);
    KeysCount(m.table, m.queue);
  }

  // ---------------------------------------------------------------------------------------------
  // What exactly a packet and a pass do
  // ---------------------------------------------------------------------------------------------

  /** A packet that starts a flow, in any run: a record of that packet alone, checked now. */
  lemma FirstPacketOfFlow(c: Config, events: seq<Event>, m: Meter, clock: nat, p: Packet, now: nat)
    requires c.idle < U64 && RunsTo(c, EMPTY, 0, events, m, clock) && clock <= now < U64 && p.key !in m.table
    ensures var m' := ReceiveStep(c, m, p, now).meter;
            && m'.table == m.table[p.key := Record(p.key, now, now, p.length % 0x1_0000_0000_0000_0000, 1,
                                                   if c.store then [p] else [])]
            && m'.exported == m.exported
            && (|m.table| < 131071 ==> m'.queue == m.queue + [Slot(p.key, now)])
  {
    RunLaws(c, events, m, clock);
    KeysCount(m.table, m.queue);
    assert [] + [p] == [p];
  }

  /**
   A packet of a live flow, in any run, with the active timeout on the numbers: the flow is exported
   exactly when it started at least `activeMs + 1` milliseconds ago. The export has the old start time
   and counters and ends now, and the packet starts a new record; otherwise the old record goes on with
   one packet more. (A start time of zero counts as not set.)
   */
  lemma NextPacketOfFlow(c: Config, events: seq<Event>, m: Meter, clock: nat, p: Packet, now: nat)
    requires c.idle < U64 && RunsTo(c, EMPTY, 0, events, m, clock) && clock <= now < U64 && p.key in m.table
    ensures var r, m' := m.table[p.key], ReceiveStep(c, m, p, now).meter;
            var stime := if r.stime == 0 then now else r.stime;
            && ReceiveStep(c, m, p, now).Ok? && m'.queue == m.queue
            && (m'.exported != m.exported <==> r.stime + (c.activeMs + 1) * 1000 <= now)
            && if r.stime + (c.activeMs + 1) * 1000 <= now then
                 && m'.exported == m.exported + [Record(p.key, stime, now, r.bytes, r.packets, r.kept)]
                 && m'.table == m.table[p.key := Record(p.key, now, now, p.length % 0x1_0000_0000_0000_0000, 1,
                                                        if c.store then [p] else [])]
               else
                 && m'.exported == m.exported
                 && m'.table == m.table[p.key := Record(p.key, stime, now, (r.bytes + p.length) % 0x1_0000_0000_0000_0000,
                                                        (r.packets + 1) % 0x1_0000_0000_0000_0000,
                                                        if c.store then r.kept + [p] else r.kept)]
  {
    RunLaws(c, events, m, clock);
    var r := m.table[p.key];
    assert RecordTimes(c, r, clock);
    assert [] + [p] == [p];
    assert m.exported + [Expand(r, now)] != m.exported;
    WholeMilliseconds(now - r.stime, c.activeMs);
  }

  lemma WholeMilliseconds(us: nat, ms: nat)
    ensures us / 1000 > ms <==> (ms + 1) * 1000 <= us
  {
  }

  /** Not seen for longer than the idle timeout; while the clock is below the timeout, every flow counts as idle. */
  predicate Idle(c: Config, r: Record, now: nat) { now < c.idle || r.etime + c.idle < now }

  /** Flow `k` either stays as it is, or is idle and leaves for the exports. */
  ghost predicate LeavesOnlyIdle(c: Config, table: map<FlowKey, Record>, before: seq<Record>, m: Meter, now: nat) {
    && before <= m.exported
    && (forall k :: k in m.table ==> k in table && m.table[k] == table[k])
    && (forall k :: k in table && k !in m.table ==> Idle(c, table[k], now) && table[k] in m.exported[|before|..])
    && (forall i :: |before| <= i < |m.exported| ==>
          var r := m.exported[i]; r.key in table && table[r.key] == r && r.key !in m.table)
  }

  lemma ExpireOne(c: Config, table: map<FlowKey, Record>, k: FlowKey, before: seq<Record>, m: Meter, now: nat)
    requires k in table && KeyedByKey(table) && Idle(c, table[k], now)
    requires LeavesOnlyIdle(c, table - {k}, before + [table[k]], m, now)
    ensures LeavesOnlyIdle(c, table, before, m, now)
  {
    assert m.exported[|before|] == table[k];
    forall k' | k' in table && k' !in m.table
      ensures Idle(c, table[k'], now) && table[k'] in m.exported[|before|..]
    {
      if k' == k {
        assert m.exported[|before|..][0] == table[k];
      } else {
        assert table[k'] in m.exported[|before| + 1..];
        assert m.exported[|before| + 1..] == m.exported[|before|..][1..];
      }
    }
    forall i | |before| <= i < |m.exported|
      ensures m.exported[i].key in table && table[m.exported[i].key] == m.exported[i] && m.exported[i].key !in m.table
    {
      if i > |before| {
        assert |before + [table[k]]| <= i;
      }
    }
  }

  lemma {:induction false} PassLeavesOnlyIdle(c: Config, table: map<FlowKey, Record>, todo: seq<Slot>, done: seq<Slot>,
                                              exported: seq<Record>, now: nat)
    requires forall i :: 0 <= i < |todo| ==> todo[i].key in table
    requires DistinctKeys(todo) && KeyedByKey(table) && c.idle < U64
    requires forall k :: k in table ==> table[k].etime <= now
    ensures LeavesOnlyIdle(c, table, exported, Pass(c, table, todo, done, exported, now), now)
    decreases |todo|
  {
    if todo != [] {
      var k := todo[0].key;
      NotExpired(c, table[k].etime, now);
      if table[k].etime < Limit(c, now) {
        PassLeavesOnlyIdle(c, table - {k}, todo[1..], done, exported + [table[k]], now);
        ExpireOne(c, table, k, exported, Pass(c, table, todo, done, exported, now), now);
      } else if todo[0].lastChecked <= Limit(c, now) {
        PassLeavesOnlyIdle(c, table, todo[1..], done + [Slot(k, now)], exported, now);
      }
    }
  }

  /**
   A timer pass in any run exports nothing too early: each record it exports is the live record of a
   flow that was not seen within the idle timeout, which thereby leaves the table; every other live
   record stays as it is.
   */
  lemma PassExportsOnlyIdleFlows(c: Config, events: seq<Event>, m: Meter, clock: nat, now: nat)
    requires c.idle < U64 && RunsTo(c, EMPTY, 0, events, m, clock) && clock <= now
    ensures Consistent(m) && LeavesOnlyIdle(c, m.table, m.exported, TimerStep(c, m, now), now)
  {
    RunLaws(c, events, m, clock);
    PassLeavesOnlyIdle(c, m.table, m.queue, [], m.exported, now);
  }

  // ---------------------------------------------------------------------------------------------
  // When the timer pass ends
  // ---------------------------------------------------------------------------------------------

  ghost predicate CheckedBy(queue: seq<Slot>, now: nat) {
    forall i :: 0 <= i < |queue| ==> queue[i].lastChecked <= now
  }

  lemma ZeroIdleStep(c: Config, m: Meter, now: nat, k: FlowKey) returns (next: Meter)
    requires c.idle == 0 && Consistent(m) && k in m.table && now <= m.table[k].etime && CheckedBy(m.queue, now)
    ensures Iterate(c, m, now) == Running(next)
    ensures k in next.table && next.table[k] == m.table[k] && CheckedBy(next.queue, now)
  {
    var i :| 0 <= i < |m.queue| && m.queue[i].key == k;
    assert m.queue[0].lastChecked <= now;
    next := Iterate(c, m, now).meter;
  }

  /** With a zero idle timeout, a flow seen at the very time of the pass keeps the loop going. */
  lemma {:induction false} ZeroIdleLoops(c: Config, m: Meter, now: nat, k: FlowKey, n: nat, target: Meter)
    requires c.idle == 0 && Consistent(m) && k in m.table && now <= m.table[k].etime && CheckedBy(m.queue, now)
    ensures !EndsIn(c, m, now, n, target)
    decreases n
  {
    if EndsIn(c, m, now, n, target) {
      var next := ZeroIdleStep(c, m, now, k);
      IterateKeepsConsistent(c, m, now);
      ZeroIdleLoops(c, next, now, k, n - 1, target);
    }
  }

  /** Such a state is one packet away: a flow starts and the timer fires before the clock moves on. */
  lemma ZeroIdleIsReached(c: Config, p: Packet, now: nat) returns (m: Meter)
    requires c.idle == 0 && now < U64
    ensures RunsTo(c, EMPTY, 0, [Arrival(p, now)], m, now) && !Ends(c, m, now)
  {
    m := ReceiveStep(c, EMPTY, p, now).meter;
    assert [Arrival(p, now)][1..] == [];
    InsertKeepsInv(c, EMPTY, p, 0, now);
    forall n, target ensures !EndsIn(c, m, now, n, target) {
      ZeroIdleLoops(c, m, now, p.key, n, target);
    }
  }

  /** The timer loop started in `m` ends at all. */
  ghost predicate Ends(c: Config, m: Meter, now: nat) {
    exists n, target :: EndsIn(c, m, now, n, target)
  }

  /**
   The unbounded loop of the timer pass ends exactly when the idle timeout is positive or no live flow
   has been seen at the time of the pass.
   */
  lemma PassEndsExactlyWhen(c: Config, m: Meter, clock: nat, now: nat)
    requires c.idle < U64 && Inv(c, m, clock) && clock <= now
    ensures Ends(c, m, now) <==> 0 < c.idle || SeenBefore(m.table, now)
  {
    if PassWillEnd(c, m.table, now) {
      TimerTerminates(c, m, clock, now);
      assert EndsIn(c, m, now, |m.queue| + 1, TimerStep(c, m, now));
    } else {
      var k :| k in m.table && now <= m.table[k].etime;
      forall n, target ensures !EndsIn(c, m, now, n, target) {
        ZeroIdleLoops(c, m, now, k, n, target);
      }
    }
  }

  // ---------------------------------------------------------------------------------------------
  // The periodic meter
  // ---------------------------------------------------------------------------------------------

  datatype PeriodMeter = PeriodMeter(table: map<FlowKey, Record>, exported: seq<Record>)

  /** `Flush` carries the order in which the hash table enumerates its entries. */
  datatype PeriodEvent = PeriodArrival(p: Packet, now: nat) | Flush(order: seq<FlowKey>)

  function PeriodReceive(m: PeriodMeter, p: Packet, now: nat): PeriodMeter {
    m.(table := m.table[p.key := Absorb(if p.key in m.table then m.table[p.key] else Blank(p.key), p, now, false)])
  }

  ghost predicate Enumerates(order: seq<FlowKey>, table: map<FlowKey, Record>) {
    && (forall i, j :: 0 <= i < j < |order| ==> order[i] != order[j])
    && (forall k :: k in table <==> k in order)
  }

  function FlushInOrder(table: map<FlowKey, Record>, order: seq<FlowKey>, exported: seq<Record>): seq<Record>
    requires forall i :: 0 <= i < |order| ==> order[i] in table
  {
    if order == [] then exported else FlushInOrder(table, order[1..], exported + [table[order[0]]])
  }

  function PeriodArrivals(events: seq<PeriodEvent>): seq<Packet> {
    if events == [] then []
    else if events[0].PeriodArrival? then [events[0].p] + PeriodArrivals(events[1..])
    else PeriodArrivals(events[1..])
  }

  ghost predicate PeriodRunsTo(m: PeriodMeter, events: seq<PeriodEvent>, m': PeriodMeter)
    decreases |events|
  {
    if events == [] then m' == m
    else match events[0]
      case PeriodArrival(p, now) => PeriodRunsTo(PeriodReceive(m, p, now), events[1..], m')
      case Flush(order) =>
        && Enumerates(order, m.table)
        && PeriodRunsTo(PeriodMeter(map[], FlushInOrder(m.table, order, m.exported)), events[1..], m')
  }

  lemma {:induction false} FlushKeepsBalance(table: map<FlowKey, Record>, order: seq<FlowKey>, exported: seq<Record>,
                                             ps: seq<Packet>)
    requires Enumerates(order, table) && KeyedByKey(table) && Balanced(exported, table, ps, false)
    ensures Balanced(FlushInOrder(table, order, exported), map[], ps, false)
    decreases |order|
  {
    if order == [] {
      assert table == map[];
    } else {
      var k := order[0];
      ExportKeepsBalance(exported, table, ps, false, k, table[k], table - {k});
      assert forall k' :: k' in table - {k} <==> k' in order[1..];
      FlushOfSmallerTable(table, table - {k}, order[1..], exported + [table[k]]);
      FlushKeepsBalance(table - {k}, order[1..], exported + [table[k]], ps);
    }
  }

  lemma {:induction false} FlushOfSmallerTable(table: map<FlowKey, Record>, table': map<FlowKey, Record>,
                                               order: seq<FlowKey>, exported: seq<Record>)
    requires forall i :: 0 <= i < |order| ==>
               order[i] in table && order[i] in table' && table[order[i]] == table'[order[i]]
    ensures FlushInOrder(table, order, exported) == FlushInOrder(table', order, exported)
    decreases |order|
  {
    if order != [] {
      FlushOfSmallerTable(table, table', order[1..], exported + [table[order[0]]]);
    }
  }

  lemma {:induction false} PeriodRunKeepsBalance(m: PeriodMeter, events: seq<PeriodEvent>, m': PeriodMeter,
                                                 ps: seq<Packet>)
    requires PeriodRunsTo(m, events, m') && KeyedByKey(m.table) && Balanced(m.exported, m.table, ps, false)
    ensures Balanced(m'.exported, m'.table, ps + PeriodArrivals(events), false)
    decreases |events|
  {
    if events == [] {
      assert ps + [] == ps;
    } else if events[0].PeriodArrival? {
      var p := events[0].p;
      AbsorbKeepsBalance(m.exported, m.table, ps, false, p, events[0].now);
      PeriodRunKeepsBalance(PeriodReceive(m, p, events[0].now), events[1..], m', ps + [p]);
      assert ps + [p] + PeriodArrivals(events[1..]) == ps + PeriodArrivals(events);
    } else {
      FlushKeepsBalance(m.table, events[0].order, m.exported, ps);
      PeriodRunKeepsBalance(PeriodMeter(map[], FlushInOrder(m.table, events[0].order, m.exported)), events[1..], m', ps);
    }
  }

  /** On the same packets the two meters account for the same packets and bytes per flow key. */
  lemma MetersAgree(c: Config, events: seq<Event>, m: Meter, clock: nat,
                    periodEvents: seq<PeriodEvent>, pm: PeriodMeter, k: FlowKey, f: Counter)
    requires c.idle < U64 && RunsTo(c, EMPTY, 0, events, m, clock)
    requires PeriodRunsTo(PeriodMeter(map[], []), periodEvents, pm)
    requires Arrivals(events) == PeriodArrivals(periodEvents)
    ensures var held, held' := Exported(m.exported, k, f) + Live(m.table, k, f),
                               Exported(pm.exported, k, f) + Live(pm.table, k, f);
            && held % U64 == held' % U64
            && (Received(Arrivals(events), k, f) < U64 ==> held == held' == Received(Arrivals(events), k, f))
  {
    RunBalancedAt(c, events, m, clock, k, f);
    PeriodBalancedAt(periodEvents, pm, k, f);
  }

  lemma RunBalancedAt(c: Config, events: seq<Event>, m: Meter, clock: nat, k: FlowKey, f: Counter)
    requires c.idle < U64 && RunsTo(c, EMPTY, 0, events, m, clock)
    ensures BalancedFor(m.exported, m.table, Arrivals(events), k, f)
  {
    RunLaws(c, events, m, clock);
  }

  lemma PeriodBalancedAt(events: seq<PeriodEvent>, m: PeriodMeter, k: FlowKey, f: Counter)
    requires PeriodRunsTo(PeriodMeter(map[], []), events, m)
    ensures BalancedFor(m.exported, m.table, PeriodArrivals(events), k, f)
  {
    PeriodRunKeepsBalance(PeriodMeter(map[], []), events, m, []);
    assert [] + PeriodArrivals(events) == PeriodArrivals(events);
  }

  // ---------------------------------------------------------------------------------------------
  // Start and end times in the periodic meter
  // ---------------------------------------------------------------------------------------------

  /** Arrival times of packets of flow `k` since the last flush, oldest first. */
  function TimesSinceFlush(events: seq<PeriodEvent>, k: FlowKey): (times: seq<nat>)
    decreases |events|
  {
    if events == [] then []
    else
      var last := events[|events| - 1];
      if last.Flush? then []
      else if last.p.key == k then TimesSinceFlush(events[..|events| - 1], k) + [last.now]
      else TimesSinceFlush(events[..|events| - 1], k)
  }

  /** A record starts at the earliest and ends at the latest of these times. */
  predicate Spans(r: Record, times: seq<nat>) {
    && r.stime in times && r.etime in times
    && (forall i :: 0 <= i < |times| ==> 0 < r.stime <= times[i] <= r.etime)
  }

  ghost predicate SpansEachFlow(table: map<FlowKey, Record>, events: seq<PeriodEvent>) {
    forall k :: if k in table then Spans(table[k], TimesSinceFlush(events, k)) else TimesSinceFlush(events, k) == []
  }

  /** Time zero reads as "no start time yet". */
  predicate PositiveTimes(events: seq<PeriodEvent>) {
    forall i :: 0 <= i < |events| && events[i].PeriodArrival? ==> 0 < events[i].now
  }

  lemma AbsorbSpans(r: Record, p: Packet, now: nat, times: seq<nat>)
    requires 0 < now
    requires Spans(r, times) || (r == Blank(p.key) && times == [])
    ensures Spans(Absorb(r, p, now, false), times + [now])
  {
    var r', times' := Absorb(r, p, now, false), times + [now];
    assert times'[|times|] == now;
    assert times'[..|times|] == times;
    if times != [] {
      assert times[0] == times'[0];
      assert forall t :: t in times ==> t in times';
    }
  }

  lemma {:induction false} PeriodRunSpans(done: seq<PeriodEvent>, m: PeriodMeter, events: seq<PeriodEvent>, m': PeriodMeter)
    requires PeriodRunsTo(m, events, m') && PositiveTimes(events) && SpansEachFlow(m.table, done)
    ensures SpansEachFlow(m'.table, done + events)
    decreases |events|
  {
    if events == [] {
      assert done + events == done;
    } else {
      var e, next := events[0], done + [events[0]];
      assert next[..|next| - 1] == done;
      assert next + events[1..] == done + events;
      assert forall i :: 0 <= i < |events[1..]| ==> events[1..][i] == events[i + 1];
      var m1: PeriodMeter;
      match e {
        case PeriodArrival(p, now) =>
          AbsorbSpans(if p.key in m.table then m.table[p.key] else Blank(p.key), p, now, TimesSinceFlush(done, p.key));
          m1 := PeriodReceive(m, p, now);
        case Flush(order) =>
          m1 := PeriodMeter(map[], FlushInOrder(m.table, order, m.exported));
      }
      PeriodRunSpans(next, m1, events[1..], m');
    }
  }

  /** In every run a flow is live if and only if it was seen since the last flush, and its record spans what was seen. */
  lemma PeriodRecordsSpanTheirPackets(events: seq<PeriodEvent>, m: PeriodMeter, k: FlowKey)
    requires PeriodRunsTo(PeriodMeter(map[], []), events, m) && PositiveTimes(events)
    ensures k in m.table <==> TimesSinceFlush(events, k) != []
    ensures k in m.table ==> Spans(m.table[k], TimesSinceFlush(events, k))
  {
    PeriodRunSpans([], PeriodMeter(map[], []), events, m);
    assert [] + events == events;
  }

  /** The clock does not run backwards. */
  predicate InOrder(events: seq<PeriodEvent>) {
    forall i, j :: 0 <= i < j < |events| && events[i].PeriodArrival? && events[j].PeriodArrival? ==>
      events[i].now <= events[j].now
  }

  lemma {:induction false} TimesBounded(events: seq<PeriodEvent>, k: FlowKey, bound: nat)
    requires forall i :: 0 <= i < |events| && events[i].PeriodArrival? ==> events[i].now <= bound
    ensures forall i :: 0 <= i < |TimesSinceFlush(events, k)| ==> TimesSinceFlush(events, k)[i] <= bound
    decreases |events|
  {
    if events != [] {
      TimesBounded(events[..|events| - 1], k, bound);
    }
  }

  predicate NonDecreasing(times: seq<nat>) {
    forall i, j :: 0 <= i < j < |times| ==> times[i] <= times[j]
  }

  lemma {:induction false} TimesInOrder(events: seq<PeriodEvent>, k: FlowKey)
    requires InOrder(events)
    ensures NonDecreasing(TimesSinceFlush(events, k))
    decreases |events|
  {
    if events != [] {
      var n := |events| - 1;
      TimesInOrder(events[..n], k);
      if events[n].PeriodArrival? {
        TimesBounded(events[..n], k, events[n].now);
      }
    }
  }

  /** Under a clock that does not run backwards, a record starts with its first and ends with its last packet. */
  lemma PeriodRecordsStartFirstEndLast(events: seq<PeriodEvent>, m: PeriodMeter, k: FlowKey)
    requires PeriodRunsTo(PeriodMeter(map[], []), events, m) && PositiveTimes(events) && InOrder(events)
    requires k in m.table
    ensures var times := TimesSinceFlush(events, k);
            times != [] && m.table[k].stime == times[0] && m.table[k].etime == times[|times| - 1]
  {
    PeriodRecordsSpanTheirPackets(events, m, k);
    TimesInOrder(events, k);
  }

  /** A flush sends every record as it stands, in the order of enumeration. */
  lemma {:induction false} FlushSendsRecords(table: map<FlowKey, Record>, order: seq<FlowKey>, exported: seq<Record>)
    requires forall i :: 0 <= i < |order| ==> order[i] in table
    ensures var sent := FlushInOrder(table, order, exported);
            && |sent| == |exported| + |order| && sent[..|exported|] == exported
            && (forall i :: 0 <= i < |order| ==> sent[|exported| + i] == table[order[i]])
    decreases |order|
  {
    if order != [] {
      var exported' := exported + [table[order[0]]];
      FlushSendsRecords(table, order[1..], exported');
      var sent := FlushInOrder(table, order, exported);
      assert sent[..|exported|] == sent[..|exported'|][..|exported|];
      assert sent[|exported|] == sent[..|exported'|][|exported|];
      forall i | 0 < i < |order| ensures sent[|exported| + i] == table[order[i]] {
        assert order[i] == order[1..][i - 1];
      }
    }
  }
}
