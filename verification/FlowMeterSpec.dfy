/**
 The flow meter on values: a table of live records and the expiry queue, as they change with every
 packet received and every idle-timer pass.
 */
module FlowMeterSpec {
  import opened FlowRecords

  /** Capacity of the circular expiry queue; one slot always stays free. */
  const Q_SIZE: nat := 131072

  datatype Config = Config(idle: nat, activeMs: nat, store: bool)   // idle in microseconds

  datatype Slot = Slot(key: FlowKey, lastChecked: nat)

  datatype Meter = Meter(table: map<FlowKey, Record>, queue: seq<Slot>, exported: seq<Record>)

  datatype Outcome = Ok(meter: Meter) | QueueFull(meter: Meter)

  const EMPTY: Meter := Meter(map[], [], [])

  // ---------------------------------------------------------------------------------------------
  // Receiving a packet
  // ---------------------------------------------------------------------------------------------

  predicate ActiveTimeout(c: Config, r: Record, now: nat) {
    Sub64(now, r.stime) / 1000 > c.activeMs
  }

  /** `_receive_msg`; on a full queue the table entry has already been made when it throws. */
  function ReceiveStep(c: Config, m: Meter, p: Packet, now: nat): Outcome {
    if p.key !in m.table then
      var table := m.table[p.key := Absorb(Blank(p.key), p, now, c.store)];
      if |m.queue| == Q_SIZE - 1 then QueueFull(m.(table := table))
      else Ok(m.(table := table, queue := m.queue + [Slot(p.key, now)]))
    else
      var r := m.table[p.key];
      if ActiveTimeout(c, r, now) then
        Ok(m.(table := m.table[p.key := Absorb(Blank(p.key), p, now, c.store)],
              exported := m.exported + [Expand(r, now)]))
      else
        Ok(m.(table := m.table[p.key := Absorb(r, p, now, c.store)]))
  }

  // ---------------------------------------------------------------------------------------------
  // The idle-timer pass
  // ---------------------------------------------------------------------------------------------

  function Limit(c: Config, now: nat): int { Sub64(now, c.idle) }

  /** Loop state of the pass after some iterations. */
  datatype Loop = Running(meter: Meter) | Done(meter: Meter)

  /** One iteration of the loop in `_handle_timer`. */
  function Iterate(c: Config, m: Meter, now: nat): Loop
    requires forall i :: 0 <= i < |m.queue| ==> m.queue[i].key in m.table
  {
    if m.queue == [] then Done(m)
    else
      var slot, rest := m.queue[0], m.queue[1..];
      if m.table[slot.key].etime < Limit(c, now) then
        Running(Meter(m.table - {slot.key}, rest, m.exported + [m.table[slot.key]]))
      else
        var m' := m.(queue := rest + [Slot(slot.key, now)]);
        if slot.lastChecked > Limit(c, now) then Done(m') else Running(m')
  }

  /**
   What a pass leaves behind: it walks the slots `todo` from the front, exports the expired flows,
   moves the others to the back and stops behind the first slot that was checked recently. If it gets
   to the end, the first slot it moved is moved once more.
   */
  function Pass(c: Config, table: map<FlowKey, Record>, todo: seq<Slot>, done: seq<Slot>,
                exported: seq<Record>, now: nat): Meter
    requires forall i :: 0 <= i < |todo| ==> todo[i].key in table
    requires forall i, j :: 0 <= i < j < |todo| ==> todo[i].key != todo[j].key
  {
    if todo == [] then
      Meter(table, if done == [] then [] else done[1..] + [done[0]], exported)
    else
      var k := todo[0].key;
      if table[k].etime < Limit(c, now) then
        Pass(c, table - {k}, todo[1..], done, exported + [table[k]], now)
      else if todo[0].lastChecked > Limit(c, now) then
        Meter(table, todo[1..] + done + [Slot(k, now)], exported)
      else
        Pass(c, table, todo[1..], done + [Slot(k, now)], exported, now)
  }

  /** No live flow has been seen as late as `now`. */
  ghost predicate SeenBefore(table: map<FlowKey, Record>, now: nat) {
    forall k :: k in table ==> table[k].etime < now
  }

  /** The condition under which the loop of a pass ends. */
  ghost predicate PassWillEnd(c: Config, table: map<FlowKey, Record>, now: nat) {
    0 < c.idle || SeenBefore(table, now)
  }

  function TimerStep(c: Config, m: Meter, now: nat): Meter
    requires Consistent(m)
  {
    Pass(c, m.table, m.queue, [], m.exported, now)
  }

  // ---------------------------------------------------------------------------------------------
  // Invariants
  // ---------------------------------------------------------------------------------------------

  predicate DistinctKeys(queue: seq<Slot>) {
    forall i, j :: 0 <= i < j < |queue| ==> queue[i].key != queue[j].key
  }

  ghost predicate SameKeys(table: map<FlowKey, Record>, queue: seq<Slot>) {
    && (forall i :: 0 <= i < |queue| ==> queue[i].key in table)
    && (forall k :: k in table ==> exists i :: 0 <= i < |queue| && queue[i].key == k)
  }

  /** Table entries and queue slots correspond one to one. */
  ghost predicate Consistent(m: Meter) {
    && DistinctKeys(m.queue) && SameKeys(m.table, m.queue)
    && KeyedByKey(m.table)
  }

  ghost predicate KeyedByKey(table: map<FlowKey, Record>) {
    forall k :: k in table ==> table[k].key == k
  }

  predicate Sorted(queue: seq<Slot>) {
    forall i, j :: 0 <= i < j < |queue| ==> queue[i].lastChecked <= queue[j].lastChecked
  }

  predicate RecordTimes(c: Config, r: Record, clock: nat) {
    && r.stime <= r.etime <= clock
    && r.etime - r.stime < (c.activeMs + 1) * 1000
  }

  predicate SlotTimes(c: Config, table: map<FlowKey, Record>, slot: Slot, clock: nat)
    requires slot.key in table
  {
    slot.lastChecked <= clock && slot.lastChecked <= table[slot.key].etime + c.idle
  }

  predicate QueueTimes(c: Config, table: map<FlowKey, Record>, queue: seq<Slot>, clock: nat) {
    forall i :: 0 <= i < |queue| ==> queue[i].key in table && SlotTimes(c, table, queue[i], clock)
  }

  ghost predicate TableTimes(c: Config, table: map<FlowKey, Record>, clock: nat) {
    forall k :: k in table ==> RecordTimes(c, table[k], clock)
  }

  ghost predicate Settled(c: Config, table: map<FlowKey, Record>, queue: seq<Slot>, clock: nat) {
    && DistinctKeys(queue) && SameKeys(table, queue) && KeyedByKey(table)
    && |queue| < Q_SIZE && Sorted(queue)
    && TableTimes(c, table, clock) && QueueTimes(c, table, queue, clock)
  }

  /** Everything the meter maintains between two events, `clock` being the time of the last one. */
  ghost predicate Inv(c: Config, m: Meter, clock: nat) { Settled(c, m.table, m.queue, clock) }
}
