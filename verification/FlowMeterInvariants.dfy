/** What every packet and every timer pass keeps, and what a timer pass achieves. */
module FlowMeterInvariants {
  import opened FlowRecords
  import opened FlowMeterSpec

  // ---------------------------------------------------------------------------------------------
  // The two queue operations and the table
  // ---------------------------------------------------------------------------------------------

  lemma DropHead(table: map<FlowKey, Record>, queue: seq<Slot>)
    requires queue != [] && DistinctKeys(queue) && SameKeys(table, queue)
    ensures DistinctKeys(queue[1..]) && SameKeys(table - {queue[0].key}, queue[1..])
  {
    var table' := table - {queue[0].key};
    forall k | k in table' ensures exists i :: 0 <= i < |queue[1..]| && queue[1..][i].key == k {
      var i :| 0 <= i < |queue| && queue[i].key == k;
      assert queue[1..][i - 1].key == k;
    }
  }

  lemma RequeueHead(table: map<FlowKey, Record>, queue: seq<Slot>, now: nat)
    requires queue != [] && DistinctKeys(queue) && SameKeys(table, queue)
    ensures var queue' := queue[1..] + [Slot(queue[0].key, now)];
            DistinctKeys(queue') && SameKeys(table, queue')
  {
    var queue' := queue[1..] + [Slot(queue[0].key, now)];
    forall k | k in table ensures exists i :: 0 <= i < |queue'| && queue'[i].key == k {
      var i :| 0 <= i < |queue| && queue[i].key == k;
      assert queue'[if i == 0 then |queue'| - 1 else i - 1].key == k;
    }
  }

  lemma AppendKey(table: map<FlowKey, Record>, queue: seq<Slot>, k: FlowKey, r: Record, now: nat)
    requires DistinctKeys(queue) && SameKeys(table, queue) && k !in table
    ensures DistinctKeys(queue + [Slot(k, now)]) && SameKeys(table[k := r], queue + [Slot(k, now)])
  {
    var queue', table' := queue + [Slot(k, now)], table[k := r];
    forall k' | k' in table' ensures exists i :: 0 <= i < |queue'| && queue'[i].key == k' {
      if k' == k {
        assert queue'[|queue|].key == k;
      } else {
        var i :| 0 <= i < |queue| && queue[i].key == k';
        assert queue'[i].key == k';
      }
    }
  }

  lemma UpdateKey(table: map<FlowKey, Record>, queue: seq<Slot>, k: FlowKey, r: Record)
    requires SameKeys(table, queue) && k in table
    ensures SameKeys(table[k := r], queue)
  {
  }

  // ---------------------------------------------------------------------------------------------
  // Receiving
  // ---------------------------------------------------------------------------------------------

  lemma AbsorbTimes(c: Config, r: Record, p: Packet, clock: nat, now: nat)
    requires r.stime <= r.etime <= clock <= now < U64 && !ActiveTimeout(c, r, now)
    ensures RecordTimes(c, Absorb(r, p, now, c.store), now) && Absorb(r, p, now, c.store).etime == now
  {
    ExpandEndsNow(r, now);
    assert now - r.stime < (c.activeMs + 1) * 1000;
  }

  lemma BlankTimes(c: Config, k: FlowKey, p: Packet, now: nat)
    ensures RecordTimes(c, Absorb(Blank(k), p, now, c.store), now) && Absorb(Blank(k), p, now, c.store).etime == now
  {
    ExpandEndsNow(Blank(k), now);
  }

  /** A packet of a new flow: the insert throws exactly when Q_SIZE - 1 flows are live. */
  lemma InsertKeepsInv(c: Config, m: Meter, p: Packet, clock: nat, now: nat)
    requires Inv(c, m, clock) && clock <= now < U64 && p.key !in m.table
    ensures ReceiveStep(c, m, p, now).QueueFull? <==> |m.queue| == Q_SIZE - 1
    ensures ReceiveStep(c, m, p, now).Ok? ==> Inv(c, ReceiveStep(c, m, p, now).meter, now)
  {
    BlankTimes(c, p.key, p, now);
    if |m.queue| < Q_SIZE - 1 {
      AppendSettles(c, m.table, m.queue, p.key, Absorb(Blank(p.key), p, now, c.store), clock, now);
    }
  }

  lemma AppendSettles(c: Config, table: map<FlowKey, Record>, queue: seq<Slot>, k: FlowKey, r: Record,
                      clock: nat, now: nat)
    requires Settled(c, table, queue, clock) && clock <= now && k !in table && |queue| < Q_SIZE - 1
    requires r.key == k && RecordTimes(c, r, now) && r.etime == now
    ensures Settled(c, table[k := r], queue + [Slot(k, now)], now)
  {
    AppendKey(table, queue, k, r, now);
    var queue', table' := queue + [Slot(k, now)], table[k := r];
    forall i | 0 <= i < |queue'| ensures queue'[i].key in table' && SlotTimes(c, table', queue'[i], now) {
      if i < |queue| {
        assert SlotTimes(c, table, queue[i], clock) && queue[i].key != k;
      }
    }
  }

  /** A packet of a known flow never throws; its record ends now and stays within the active timeout. */
  lemma UpdateKeepsInv(c: Config, m: Meter, p: Packet, clock: nat, now: nat)
    requires Inv(c, m, clock) && clock <= now < U64 && p.key in m.table
    ensures ReceiveStep(c, m, p, now).Ok? && Inv(c, ReceiveStep(c, m, p, now).meter, now)
  {
    var r := m.table[p.key];
    var m' := ReceiveStep(c, m, p, now).meter;
    assert RecordTimes(c, r, clock);
    BlankTimes(c, p.key, p, now);
    if !ActiveTimeout(c, r, now) {
      AbsorbTimes(c, r, p, clock, now);
    }
    UpdateKey(m.table, m.queue, p.key, m'.table[p.key]);
    forall i | 0 <= i < |m'.queue| ensures SlotTimes(c, m'.table, m'.queue[i], now) {
      assert SlotTimes(c, m.table, m.queue[i], clock);
    }
  }

  // ---------------------------------------------------------------------------------------------
  // The timer pass
  // ---------------------------------------------------------------------------------------------

  /** A flow that is not expired was seen no longer than `idle` ago, and the subtraction did not wrap. */
  lemma NotExpired(c: Config, etime: nat, now: nat)
    requires c.idle < U64 && etime <= now
    ensures etime < Limit(c, now) <==> now < c.idle || etime + c.idle < now
    ensures !(etime < Limit(c, now)) ==> Limit(c, now) == now - c.idle
  {
  }

  ghost predicate DoneTimes(c: Config, table: map<FlowKey, Record>, done: seq<Slot>, now: nat) {
    forall i :: 0 <= i < |done| ==>
      done[i].key in table && done[i].lastChecked == now && SlotTimes(c, table, done[i], now)
  }

  /** Loop invariant of the pass: `todo` is still to be looked at, `done` was moved to the back. */
  ghost predicate PassInv(c: Config, table: map<FlowKey, Record>, todo: seq<Slot>, done: seq<Slot>, now: nat) {
    && 0 < c.idle < U64
    && DistinctKeys(todo + done) && SameKeys(table, todo + done) && |todo + done| < Q_SIZE
    && KeyedByKey(table) && TableTimes(c, table, now)
    && Sorted(todo) && QueueTimes(c, table, todo, now) && DoneTimes(c, table, done, now)
    && (done != [] ==> c.idle <= now)
  }

  lemma PassStepExpire(c: Config, table: map<FlowKey, Record>, todo: seq<Slot>, done: seq<Slot>, now: nat)
    requires PassInv(c, table, todo, done, now) && todo != []
    ensures PassInv(c, table - {todo[0].key}, todo[1..], done, now)
  {
    assert (todo + done)[1..] == todo[1..] + done;
    DropHead(table, todo + done);
    HeadKeyIsUnique(todo, done);
    DropTimes(c, table, todo[1..], done, todo[0].key, now);
  }

  lemma HeadKeyIsUnique(todo: seq<Slot>, done: seq<Slot>)
    requires todo != [] && DistinctKeys(todo + done)
    ensures forall i :: 0 <= i < |done| ==> done[i].key != todo[0].key
    ensures forall i :: 0 <= i < |todo[1..]| ==> todo[1..][i].key != todo[0].key
  {
    assert (todo + done)[0] == todo[0];
    forall i | 0 <= i < |done| ensures done[i].key != todo[0].key {
      assert (todo + done)[|todo| + i] == done[i];
    }
    forall i | 0 <= i < |todo[1..]| ensures todo[1..][i].key != todo[0].key {
      assert (todo + done)[i + 1] == todo[1..][i];
    }
  }

  lemma DropTimes(c: Config, table: map<FlowKey, Record>, todo: seq<Slot>, done: seq<Slot>, k: FlowKey, now: nat)
    requires QueueTimes(c, table, todo, now) && DoneTimes(c, table, done, now)
    requires forall i :: 0 <= i < |todo| ==> todo[i].key != k
    requires forall i :: 0 <= i < |done| ==> done[i].key != k
    ensures QueueTimes(c, table - {k}, todo, now) && DoneTimes(c, table - {k}, done, now)
  {
  }

  lemma PassStepRequeue(c: Config, table: map<FlowKey, Record>, todo: seq<Slot>, done: seq<Slot>, now: nat)
    requires PassInv(c, table, todo, done, now) && todo != [] && c.idle <= now <= table[todo[0].key].etime + c.idle
    ensures PassInv(c, table, todo[1..], done + [Slot(todo[0].key, now)], now)
  {
    assert (todo + done)[1..] + [Slot(todo[0].key, now)] == todo[1..] + (done + [Slot(todo[0].key, now)]);
    RequeueHead(table, todo + done, now);
  }

  lemma PassInvKeys(c: Config, table: map<FlowKey, Record>, todo: seq<Slot>, done: seq<Slot>, now: nat)
    requires PassInv(c, table, todo, done, now)
    ensures forall i, j :: 0 <= i < j < |todo| ==> todo[i].key != todo[j].key
  {
    forall i, j | 0 <= i < j < |todo| ensures todo[i].key != todo[j].key {
      assert (todo + done)[i] == todo[i] && (todo + done)[j] == todo[j];
    }
  }

  /** Every live flow was seen later than twice the idle timeout ago. */
  ghost predicate NoStaleFlow(c: Config, table: map<FlowKey, Record>, now: nat) {
    forall k :: k in table ==> now < table[k].etime + 2 * c.idle
  }

  /** When the pass stops early, the slots it did not look at were all checked recently. */
  lemma PassStops(c: Config, table: map<FlowKey, Record>, todo: seq<Slot>, done: seq<Slot>, now: nat)
    requires PassInv(c, table, todo, done, now) && todo != []
    requires c.idle <= now <= table[todo[0].key].etime + c.idle && now - c.idle < todo[0].lastChecked
    ensures NoStaleFlow(c, table, now)
    ensures Settled(c, table, todo[1..] + done + [Slot(todo[0].key, now)], now)
  {
    PassStepRequeue(c, table, todo, done, now);
    var done' := done + [Slot(todo[0].key, now)];
    assert todo[1..] + done + [Slot(todo[0].key, now)] == todo[1..] + done';
    PassSettles(c, table, todo[1..], done', now);
    forall k | k in table ensures now < table[k].etime + 2 * c.idle {
      var i :| 0 <= i < |todo + done| && (todo + done)[i].key == k;
      if i < |todo| {
        assert todo[0].lastChecked <= todo[i].lastChecked;
      } else {
        assert (todo + done)[i] == done[i - |todo|];
      }
    }
  }

  /** The queue `todo + done` satisfies the invariant that holds between events. */
  lemma PassSettles(c: Config, table: map<FlowKey, Record>, todo: seq<Slot>, done: seq<Slot>, now: nat)
    requires PassInv(c, table, todo, done, now)
    ensures Settled(c, table, todo + done, now)
  {
  }

  /** Slots that were all moved to the back are sorted, so they can be walked again. */
  lemma DoneAsTodo(c: Config, table: map<FlowKey, Record>, done: seq<Slot>, now: nat)
    requires PassInv(c, table, [], done, now)
    ensures PassInv(c, table, done, [], now)
  {
    assert [] + done == done + [];
  }

  /** The pass reached the end of the queue and moves the first survivor once more. */
  lemma PassEnds(c: Config, table: map<FlowKey, Record>, done: seq<Slot>, now: nat)
    requires PassInv(c, table, [], done, now)
    ensures NoStaleFlow(c, table, now)
    ensures Settled(c, table, if done == [] then [] else done[1..] + [done[0]], now)
  {
    assert [] + done == done;
    DoneAreFresh(c, table, done, now);
    DoneAsTodo(c, table, done, now);
    if done == [] {
      PassSettles(c, table, [], done, now);
    } else {
      PassStepRequeue(c, table, done, [], now);
      assert [] + [Slot(done[0].key, now)] == [done[0]];
      PassSettles(c, table, done[1..], [done[0]], now);
    }
  }

  lemma DoneAreFresh(c: Config, table: map<FlowKey, Record>, done: seq<Slot>, now: nat)
    requires 0 < c.idle && SameKeys(table, done) && DoneTimes(c, table, done, now)
    ensures NoStaleFlow(c, table, now)
  {
    forall k | k in table ensures now < table[k].etime + 2 * c.idle {
      var i :| 0 <= i < |done| && done[i].key == k;
    }
  }

  /** The main lemma about a pass: the invariant survives and no live flow is stale. */
  lemma {:induction false} PassKeepsInv(c: Config, table: map<FlowKey, Record>, todo: seq<Slot>, done: seq<Slot>,
                                        exported: seq<Record>, now: nat)
    requires PassInv(c, table, todo, done, now) && DistinctKeys(todo)
    ensures var m := Pass(c, table, todo, done, exported, now);
            Settled(c, m.table, m.queue, now) && NoStaleFlow(c, m.table, now)
    decreases |todo|
  {
    if todo == [] {
      PassEnds(c, table, done, now);
    } else {
      NotExpired(c, table[todo[0].key].etime, now);
      PassInvKeys(c, table, todo, done, now);
      if table[todo[0].key].etime < Limit(c, now) {
        PassStepExpire(c, table, todo, done, now);
        PassKeepsInv(c, table - {todo[0].key}, todo[1..], done, exported + [table[todo[0].key]], now);
      } else if todo[0].lastChecked > Limit(c, now) {
        PassStops(c, table, todo, done, now);
      } else {
        PassStepRequeue(c, table, todo, done, now);
        PassKeepsInv(c, table, todo[1..], done + [Slot(todo[0].key, now)], exported, now);
      }
    }
  }

  // ---------------------------------------------------------------------------------------------
  // The loop that computes the pass
  // ---------------------------------------------------------------------------------------------

  /** The loop, started in `m`, ends within `n` iterations and leaves `target` behind. */
  ghost predicate EndsIn(c: Config, m: Meter, now: nat, n: nat, target: Meter)
    decreases n
  {
    && 0 < n && Consistent(m)
    && match Iterate(c, m, now)
       case Done(m') => m' == target
       case Running(m') => EndsIn(c, m', now, n - 1, target)
  }

  lemma IterateKeepsConsistent(c: Config, m: Meter, now: nat)
    requires Consistent(m)
    ensures Consistent(Iterate(c, m, now).meter)
  {
    if m.queue != [] {
      DropHead(m.table, m.queue);
      RequeueHead(m.table, m.queue, now);
    }
  }

  /** The iteration that looks at the slot of an empty `todo`: the rotation that ends the pass. */
  lemma LastIteration(c: Config, table: map<FlowKey, Record>, done: seq<Slot>, exported: seq<Record>, now: nat)
    requires PassInv(c, table, [], done, now)
    ensures SameKeys(table, done)
    ensures Iterate(c, Meter(table, done, exported), now) == Done(Pass(c, table, [], done, exported, now))
  {
    assert [] + done == done;
    if done != [] {
      assert SlotTimes(c, table, done[0], now) && RecordTimes(c, table[done[0].key], now);
      NotExpired(c, table[done[0].key].etime, now);
      assert Slot(done[0].key, now) == done[0];
    }
  }

  lemma IterationFirst(c: Config, m: Meter, m': Meter, now: nat, n: nat, target: Meter)
    requires Consistent(m) && Iterate(c, m, now) == Running(m') && EndsIn(c, m', now, n, target)
    ensures EndsIn(c, m, now, n + 1, target)
  {
  }

  lemma IterationLast(c: Config, m: Meter, now: nat, target: Meter, n: nat)
    requires 0 < n && Consistent(m) && Iterate(c, m, now) == Done(target)
    ensures EndsIn(c, m, now, n, target)
  {
  }

  ghost predicate TraceStep(c: Config, now: nat, trace: seq<Meter>, i: nat)
    requires i + 1 < |trace|
  {
    && Consistent(trace[i])
    && Iterate(c, trace[i], now) == if i == |trace| - 2 then Done(trace[i + 1]) else Running(trace[i + 1])
  }

  /** The states a terminating loop goes through, from its start to the state it returns in. */
  ghost predicate IsTrace(c: Config, now: nat, trace: seq<Meter>) {
    && 2 <= |trace|
    && forall i :: 0 <= i < |trace| - 1 ==> TraceStep(c, now, trace, i)
  }

  lemma ExtendTrace(c: Config, m: Meter, now: nat, rest: seq<Meter>)
    requires Consistent(m) && IsTrace(c, now, rest) && Iterate(c, m, now) == Running(rest[0])
    ensures IsTrace(c, now, [m] + rest)
  {
    var trace := [m] + rest;
    forall i | 0 <= i < |trace| - 1 ensures TraceStep(c, now, trace, i) {
      if i > 0 {
        assert TraceStep(c, now, rest, i - 1);
      }
    }
  }

  lemma ShortTrace(c: Config, m: Meter, now: nat, target: Meter)
    requires Consistent(m) && Iterate(c, m, now) == Done(target)
    ensures IsTrace(c, now, [m, target])
  {
  }

  lemma {:induction false} LoopTrace(c: Config, m: Meter, now: nat, n: nat, target: Meter) returns (trace: seq<Meter>)
    requires EndsIn(c, m, now, n, target)
    ensures IsTrace(c, now, trace) && trace[0] == m && trace[|trace| - 1] == target
    decreases n
  {
    var next := Iterate(c, m, now);
    if next.Done? {
      ShortTrace(c, m, now, target);
      trace := [m, target];
    } else {
      var rest := LoopTrace(c, next.meter, now, n - 1, target);
      ExtendTrace(c, m, now, rest);
      trace := [m] + rest;
    }
  }

  /** What one iteration does to the first slot of `todo`. */
  lemma HeadIteration(c: Config, table: map<FlowKey, Record>, todo: seq<Slot>, done: seq<Slot>,
                      exported: seq<Record>, now: nat)
    requires PassInv(c, table, todo, done, now) && todo != []
    ensures Consistent(Meter(table, todo + done, exported))
    ensures var k := todo[0].key;
            Iterate(c, Meter(table, todo + done, exported), now)
            == if table[k].etime < Limit(c, now)
               then Running(Meter(table - {k}, todo[1..] + done, exported + [table[k]]))
               else if todo[0].lastChecked > Limit(c, now)
               then Done(Meter(table, todo[1..] + done + [Slot(k, now)], exported))
               else Running(Meter(table, todo[1..] + (done + [Slot(k, now)]), exported))
  {
    var k := todo[0].key;
    assert (todo + done)[0] == todo[0] && (todo + done)[1..] == todo[1..] + done;
    assert todo[1..] + done + [Slot(k, now)] == todo[1..] + (done + [Slot(k, now)]);
  }

  ghost predicate LoopIsPass(c: Config, table: map<FlowKey, Record>, todo: seq<Slot>, done: seq<Slot>,
                             exported: seq<Record>, now: nat) {
    && (forall i :: 0 <= i < |todo| ==> todo[i].key in table) && DistinctKeys(todo)
    && EndsIn(c, Meter(table, todo + done, exported), now, |todo| + 1, Pass(c, table, todo, done, exported, now))
  }

  lemma LoopExpireCase(c: Config, table: map<FlowKey, Record>, todo: seq<Slot>, done: seq<Slot>,
                       exported: seq<Record>, now: nat)
    requires PassInv(c, table, todo, done, now) && todo != [] && table[todo[0].key].etime < Limit(c, now)
    requires LoopIsPass(c, table - {todo[0].key}, todo[1..], done, exported + [table[todo[0].key]], now)
    ensures LoopIsPass(c, table, todo, done, exported, now)
  {
    var k := todo[0].key;
    HeadIteration(c, table, todo, done, exported, now);
    PassInvKeys(c, table, todo, done, now);
    IterationFirst(c, Meter(table, todo + done, exported),
                   Meter(table - {k}, todo[1..] + done, exported + [table[k]]), now, |todo|,
                   Pass(c, table, todo, done, exported, now));
  }

  lemma LoopStopCase(c: Config, table: map<FlowKey, Record>, todo: seq<Slot>, done: seq<Slot>,
                     exported: seq<Record>, now: nat)
    requires PassInv(c, table, todo, done, now) && todo != [] && !(table[todo[0].key].etime < Limit(c, now))
    requires todo[0].lastChecked > Limit(c, now)
    ensures LoopIsPass(c, table, todo, done, exported, now)
  {
    HeadIteration(c, table, todo, done, exported, now);
    PassInvKeys(c, table, todo, done, now);
    IterationLast(c, Meter(table, todo + done, exported), now,
                  Meter(table, todo[1..] + done + [Slot(todo[0].key, now)], exported), |todo| + 1);
  }

  lemma LoopRequeueCase(c: Config, table: map<FlowKey, Record>, todo: seq<Slot>, done: seq<Slot>,
                        exported: seq<Record>, now: nat)
    requires PassInv(c, table, todo, done, now) && todo != [] && !(table[todo[0].key].etime < Limit(c, now))
    requires todo[0].lastChecked <= Limit(c, now)
    requires LoopIsPass(c, table, todo[1..], done + [Slot(todo[0].key, now)], exported, now)
    ensures LoopIsPass(c, table, todo, done, exported, now)
  {
    HeadIteration(c, table, todo, done, exported, now);
    PassInvKeys(c, table, todo, done, now);
    IterationFirst(c, Meter(table, todo + done, exported),
                   Meter(table, todo[1..] + (done + [Slot(todo[0].key, now)]), exported), now, |todo|,
                   Pass(c, table, todo, done, exported, now));
  }

  /** With a positive idle timeout the loop ends after at most one pop more than there are slots. */
  lemma {:induction false} LoopComputesPass(c: Config, table: map<FlowKey, Record>, todo: seq<Slot>, done: seq<Slot>,
                                            exported: seq<Record>, now: nat)
    requires PassInv(c, table, todo, done, now)
    ensures LoopIsPass(c, table, todo, done, exported, now)
    decreases |todo|
  {
    if todo == [] {
      assert todo + done == done;
      LastIteration(c, table, done, exported, now);
      IterationLast(c, Meter(table, done, exported), now, Pass(c, table, [], done, exported, now), 1);
    } else {
      var k := todo[0].key;
      NotExpired(c, table[k].etime, now);
      if table[k].etime < Limit(c, now) {
        PassStepExpire(c, table, todo, done, now);
        LoopComputesPass(c, table - {k}, todo[1..], done, exported + [table[k]], now);
        LoopExpireCase(c, table, todo, done, exported, now);
      } else if todo[0].lastChecked > Limit(c, now) {
        LoopStopCase(c, table, todo, done, exported, now);
      } else {
        PassStepRequeue(c, table, todo, done, now);
        LoopComputesPass(c, table, todo[1..], done + [Slot(k, now)], exported, now);
        LoopRequeueCase(c, table, todo, done, exported, now);
      }
    }
  }

  lemma HeadExpires(c: Config, table: map<FlowKey, Record>, todo: seq<Slot>, exported: seq<Record>, now: nat)
    requires c.idle == 0 && todo != [] && SeenBefore(table, now)
    requires DistinctKeys(todo) && SameKeys(table, todo) && KeyedByKey(table)
    ensures var k := todo[0].key;
            && Consistent(Meter(table, todo, exported)) && KeyedByKey(table - {k}) && SameKeys(table - {k}, todo[1..])
            && DistinctKeys(todo[1..]) && SeenBefore(table - {k}, now)
            && Iterate(c, Meter(table, todo, exported), now)
               == Running(Meter(table - {k}, todo[1..], exported + [table[k]]))
            && Pass(c, table, todo, [], exported, now)
               == Pass(c, table - {k}, todo[1..], [], exported + [table[k]], now)
  {
    DropHead(table, todo);
  }

  /** With a zero idle timeout and no flow seen at the time of the pass, everything expires. */
  lemma {:induction false} ZeroIdleExpiresAll(c: Config, table: map<FlowKey, Record>, todo: seq<Slot>,
                                              exported: seq<Record>, now: nat)
    requires c.idle == 0 && DistinctKeys(todo) && SameKeys(table, todo) && KeyedByKey(table) && SeenBefore(table, now)
    ensures var m := Pass(c, table, todo, [], exported, now);
            m.table == map[] && m.queue == [] && EndsIn(c, Meter(table, todo, exported), now, |todo| + 1, m)
    decreases |todo|
  {
    var m := Meter(table, todo, exported);
    if todo == [] {
      assert table == map[];
      IterationLast(c, m, now, m, 1);
    } else {
      var k := todo[0].key;
      HeadExpires(c, table, todo, exported, now);
      ZeroIdleExpiresAll(c, table - {k}, todo[1..], exported + [table[k]], now);
      assert |todo[1..]| + 1 == |todo|;
      IterationFirst(c, m, Meter(table - {k}, todo[1..], exported + [table[k]]), now, |todo|,
                     Pass(c, table - {k}, todo[1..], [], exported + [table[k]], now));
    }
  }

  lemma TimerKeepsInv(c: Config, m: Meter, clock: nat, now: nat)
    requires c.idle < U64 && Inv(c, m, clock) && clock <= now && PassWillEnd(c, m.table, now)
    ensures Inv(c, TimerStep(c, m, now), now) && NoStaleFlow(c, TimerStep(c, m, now).table, now)
  {
    if 0 < c.idle {
      assert m.queue + [] == m.queue;
      PassKeepsInv(c, m.table, m.queue, [], m.exported, now);
    } else {
      ZeroIdleExpiresAll(c, m.table, m.queue, m.exported, now);
    }
  }

  lemma TimerTerminates(c: Config, m: Meter, clock: nat, now: nat)
    requires c.idle < U64 && Inv(c, m, clock) && clock <= now && PassWillEnd(c, m.table, now)
    ensures EndsIn(c, m, now, |m.queue| + 1, TimerStep(c, m, now))
  {
    if 0 < c.idle {
      assert m.queue + [] == m.queue;
      LoopComputesPass(c, m.table, m.queue, [], m.exported, now);
    } else {
      ZeroIdleExpiresAll(c, m.table, m.queue, m.exported, now);
    }
  }

  /** The states the loop of a timer pass goes through. */
  lemma TimerTrace(c: Config, m: Meter, clock: nat, now: nat) returns (trace: seq<Meter>)
    requires c.idle < U64 && Inv(c, m, clock) && clock <= now && PassWillEnd(c, m.table, now)
    ensures IsTrace(c, now, trace) && trace[0] == m && trace[|trace| - 1] == TimerStep(c, m, now)
  {
    TimerTerminates(c, m, clock, now);
    trace := LoopTrace(c, m, now, |m.queue| + 1, TimerStep(c, m, now));
  }
}
