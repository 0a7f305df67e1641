/**
 The flow meter as an object: a table and a circular queue that share the same mutable `Flow` objects.
 Every method is proved against the meter on values, through the aliasing.
 */
module FlowMeterClass {
  import opened FlowRecords
  import opened FlowMeterSpec
  import opened FlowMeterInvariants

  class Flow {
    const key: FlowKey
    var stime: nat
    var etime: nat
    var bytes: nat
    var packets: nat
    var kept: seq<Packet>
    var listSorted: bool                // m_list_sorted

    function Rec(): Record
      reads this
    {
      Record(key, stime, etime, bytes, packets, kept)
    }

    constructor (key: FlowKey)
      ensures Rec() == Blank(key) && !listSorted
    {
      this.key := key;
      stime, etime, bytes, packets, kept, listSorted := 0, 0, 0, 0, [], false;
    }

    method ExpandInterval(us: nat)
      modifies this
      ensures Rec() == Expand(old(Rec()), us)
    {
      if stime == 0 || stime > us {
        stime := us;
      }
      if stime == 0 || etime < us {
        etime := us;
      }
    }

    method IncrementBytes(val: nat)
      modifies this
      ensures Rec() == old(Rec()).(bytes := Add64(old(bytes), val))
    {
      bytes := (bytes + val) % U64;
    }

    method IncrementPackets(val: nat)
      modifies this
      ensures Rec() == old(Rec()).(packets := Add64(old(packets), val))
    {
      packets := (packets + val) % U64;
    }

    method AddPacket(p: Packet)
      modifies this
      ensures Rec() == old(Rec()).(kept := old(kept) + [p])
    {
      kept := kept + [p];
    }

    method Clone() returns (f: Flow)
      ensures fresh(f) && f.Rec() == Rec() && f.listSorted == listSorted
    {
      f := new Flow(key);
      f.etime := etime;
      f.stime := stime;
      f.bytes := bytes;
      f.packets := packets;
      f.kept := kept;
      f.listSorted := listSorted;
    }

    method Reset()
      modifies this
      ensures Rec() == Blank(key) && !listSorted
    {
      etime, stime, bytes, packets, kept, listSorted := 0, 0, 0, 0, [], false;
    }

    /** What both branches of `_receive_msg` do to the flow of a packet. */
    method Account(p: Packet, now: nat, store: bool)
      modifies this
      ensures Rec() == Absorb(old(Rec()), p, now, store)
    {
      ExpandInterval(now);
      IncrementBytes(p.length);
      IncrementPackets(1);
      if store {
        AddPacket(p);
      }
    }
  }

  /** A slot of the circular queue; `Moved` is what is left behind when its pointer is moved out. */
  datatype QueueSlot = QueueSlot(flow: Flow, lastChecked: nat) | Moved

  ghost predicate AllSlots(ring: seq<QueueSlot>) {
    forall i :: 0 <= i < |ring| ==> ring[i].QueueSlot?
  }

  ghost predicate SlotsShared(ring: seq<QueueSlot>, table: map<FlowKey, Flow>) {
    && AllSlots(ring)
    && forall i :: 0 <= i < |ring| ==> ring[i].flow.key in table && table[ring[i].flow.key] == ring[i].flow
  }

  ghost function SlotKeys(ring: seq<QueueSlot>): (r: seq<Slot>)
    requires AllSlots(ring)
    ensures |r| == |ring| && forall i :: 0 <= i < |ring| ==> r[i] == Slot(ring[i].flow.key, ring[i].lastChecked)
  {
    seq(|ring|, i requires 0 <= i < |ring| && AllSlots(ring) => Slot(ring[i].flow.key, ring[i].lastChecked))
  }

  /** What is left of the queue when its oldest slot is taken out. */
  lemma TailSlots(ring: seq<QueueSlot>, table: map<FlowKey, Flow>)
    requires ring != [] && SlotsShared(ring, table) && DistinctKeys(SlotKeys(ring))
    ensures SlotsShared(ring[1..], table) && SlotKeys(ring[1..]) == SlotKeys(ring)[1..]
    ensures forall i :: 0 <= i < |ring[1..]| ==> ring[1..][i].flow.key != ring[0].flow.key
  {
    forall i | 0 <= i < |ring[1..]| ensures ring[1..][i].flow.key != ring[0].flow.key {
      assert SlotKeys(ring)[0].key != SlotKeys(ring)[i + 1].key;
    }
  }

  ghost function TableRecords(table: map<FlowKey, Flow>): map<FlowKey, Record>
    reads table.Values
  {
    map k | k in table :: table[k].Rec()
  }

  ghost function SentRecords(sent: seq<Flow>): (r: seq<Record>)
    reads sent
    ensures |r| == |sent| && forall i :: 0 <= i < |sent| ==> r[i] == sent[i].Rec()
  {
    seq(|sent|, i requires 0 <= i < |sent| reads sent => sent[i].Rec())
  }

  /** The circular queue of the meter, with its head and tail indices; one slot always stays free. */
  class FlowQueue {
    ghost var ring: seq<QueueSlot>      // the queued slots, oldest first
    const data: array<QueueSlot>        // m_flow_queue
    var head: nat                       // m_queue_head
    var tail: nat                       // m_queue_tail

    ghost predicate Valid()
      reads this, data
    {
      && data.Length == Q_SIZE && head < Q_SIZE && tail < Q_SIZE
      && ring == if head <= tail then data[head..tail] else data[head..] + data[..tail]
    }

    constructor ()
      ensures Valid() && fresh(data) && ring == []
    {
      data := new QueueSlot[Q_SIZE](_ => Moved);
      head, tail, ring := 0, 0, [];
    }

    method PopSlot() returns (ok: bool, slot: QueueSlot)
      requires Valid()
      modifies this, data
      ensures Valid()
      ensures ok <==> old(ring) != []
      ensures ok ==> slot == old(ring)[0] && ring == old(ring)[1..]
      ensures !ok ==> ring == old(ring)
    {
      if head == tail {
        return false, Moved;
      }
      slot := data[head];
      data[head] := Moved;
      head := (head + 1) % Q_SIZE;
      ok := true;
      ring := ring[1..];
    }

    method PushSlot(slot: QueueSlot) returns (ok: bool)
      requires Valid()
      modifies this, data
      ensures Valid()
      ensures ok <==> |old(ring)| < Q_SIZE - 1
      ensures ring == if ok then old(ring) + [slot] else old(ring)
    {
      var next := (tail + 1) % Q_SIZE;
      if next == head {
        return false;
      }
      data[tail] := slot;
      tail := next;
      ok := true;
      ring := ring + [slot];
    }
  }

  /** One iteration from the moment the slot is popped. */
  ghost function Visited(m: Meter, slot: Slot, now: nat, limit: nat): Loop
    requires slot.key in m.table
  {
    if m.table[slot.key].etime < limit then
      Running(Meter(m.table - {slot.key}, m.queue, m.exported + [m.table[slot.key]]))
    else
      var m' := m.(queue := m.queue + [Slot(slot.key, now)]);
      if slot.lastChecked > limit then Done(m') else Running(m')
  }

  lemma IterateVisits(c: Config, m: Meter, now: nat)
    requires Consistent(m) && 0 <= Limit(c, now)
    ensures Iterate(c, m, now)
            == if m.queue == [] then Done(m) else Visited(m.(queue := m.queue[1..]), m.queue[0], now, Limit(c, now))
  {
  }

  class FlowMeter {
    const c: Config
    const queue: FlowQueue
    var table: map<FlowKey, Flow>       // m_flow_table
    var sent: seq<Flow>                 // flows handed to the output gate

    /** Table and queue share their flows, and neither reaches a flow that was sent out. */
    ghost predicate Shared()
      reads this, queue
    {
      && (forall k :: k in table ==> table[k].key == k && table[k] !in sent)
      && SlotsShared(queue.ring, table)
    }

    ghost function Abs(): Meter
      requires AllSlots(queue.ring)
      reads this, queue, table.Values, sent
    {
      Meter(TableRecords(table), SlotKeys(queue.ring), SentRecords(sent))
    }

    /** The invariant between two events, the last of which was at `clock`. */
    ghost predicate Valid(clock: nat)
      reads this, queue, queue.data, table.Values, sent
    {
      && queue.Valid() && Shared()
      && c.idle < U64
      && Inv(c, Abs(), clock)
    }

    constructor (c: Config)
      requires c.idle < U64
      ensures Valid(0) && fresh(queue) && fresh(queue.data) && this.c == c
      ensures Abs() == EMPTY
    {
      this.c := c;
      queue := new FlowQueue();
      table, sent := map[], [];
      new;
      assert TableRecords(table) == map[];
    }

    /** A new flow that accounts for one packet, entered into the table but not yet queued. */
    method AddEntry(p: Packet, now: nat) returns (flow: Flow)
      requires Shared() && p.key !in table
      modifies this`table
      ensures table == old(table)[p.key := flow] && fresh(flow) && flow.key == p.key
      ensures Shared()
      ensures Abs() == old(Abs()).(table := old(Abs()).table[p.key := Absorb(Blank(p.key), p, now, c.store)])
    {
      ghost var before := Abs();
      flow := new Flow(p.key);
      flow.Account(p, now, c.store);
      table := table[p.key := flow];
      assert TableRecords(table) == before.table[p.key := flow.Rec()];
      assert SentRecords(sent) == before.exported;
    }

    method Insert(p: Packet, now: nat) returns (queueFull: bool)
      requires queue.Valid() && Shared() && p.key !in table
      modifies this`table, queue, queue.data
      ensures queue.Valid() && AllSlots(queue.ring)
      ensures queueFull <==> |old(queue.ring)| >= Q_SIZE - 1
      ensures !queueFull ==> Shared()
      ensures var record := Absorb(Blank(p.key), p, now, c.store);
              Abs() == Meter(old(Abs()).table[p.key := record],
                             if queueFull then old(Abs()).queue else old(Abs()).queue + [Slot(p.key, now)],
                             old(Abs()).exported)
    {
      ghost var before := Abs();
      var flow := AddEntry(p, now);
      var ok := queue.PushSlot(QueueSlot(flow, now));
      queueFull := !ok;
      if ok {
        assert SlotKeys(queue.ring) == before.queue + [Slot(p.key, now)];
      }
    }

    /** Active timeout: a copy of the record is sent out and the entry is reset. */
    method ExportCopy(k: FlowKey, now: nat)
      requires Shared() && k in table
      modifies this`sent, table[k]
      ensures Shared() && old(sent) <= sent
      ensures Abs() == old(Abs()).(table := old(Abs()).table[k := Blank(k)],
                                   exported := old(Abs()).exported + [Expand(old(Abs()).table[k], now)])
    {
      ghost var before := Abs();
      var flow := table[k];
      flow.ExpandInterval(now);
      var copy := flow.Clone();
      sent := sent + [copy];
      flow.Reset();
      assert SentRecords(sent) == before.exported + [copy.Rec()];
      assert TableRecords(table) == before.table[k := Blank(k)];
    }

    method AccountTo(p: Packet, now: nat)
      requires Shared() && p.key in table
      modifies table[p.key]
      ensures Shared()
      ensures Abs() == old(Abs()).(table := old(Abs()).table[p.key := Absorb(old(Abs()).table[p.key], p, now, c.store)])
    {
      ghost var before := Abs();
      table[p.key].Account(p, now, c.store);
      assert SentRecords(sent) == before.exported;
      assert TableRecords(table) == before.table[p.key := Absorb(before.table[p.key], p, now, c.store)];
    }

    method Update(p: Packet, now: nat)
      requires Shared() && p.key in table && table[p.key].stime <= now
      modifies this`sent, table[p.key]
      ensures Shared() && old(sent) <= sent
      ensures Abs() == ReceiveStep(c, old(Abs()), p, now).meter
    {
      if (now - table[p.key].stime) / 1000 > c.activeMs {
        ExportCopy(p.key, now);
      }
      AccountTo(p, now);
    }

    /**
     `_receive_msg`. On a full queue the new flow is in the table without a slot when it throws, so the
     object is left inconsistent; in every other case it does exactly what the meter on values does.
     Flows already sent out keep their identity, and by `Abs` their contents.
     */
    method Receive(p: Packet, ghost clock: nat, now: nat) returns (queueFull: bool)
      requires Valid(clock) && clock <= now < U64
      modifies this, queue, queue.data, table.Values
      ensures AllSlots(queue.ring)
      ensures queueFull <==> ReceiveStep(c, old(Abs()), p, now).QueueFull?
      ensures !queueFull ==> Valid(now)
      ensures Abs() == ReceiveStep(c, old(Abs()), p, now).meter
      ensures old(sent) <= sent
    {
      ghost var before := Abs();
      if p.key !in table {
        InsertKeepsInv(c, before, p, clock, now);
        queueFull := Insert(p, now);
      } else {
        UpdateKeepsInv(c, before, p, clock, now);
        assert RecordTimes(c, before.table[p.key], clock);
        Update(p, now);
        queueFull := false;
      }
    }

    /** Idle timeout: the flow of the popped slot leaves the table and is itself sent out. */
    method ExportExpired(slot: QueueSlot)
      requires slot.QueueSlot? && slot.flow.key in table && table[slot.flow.key] == slot.flow
      requires Shared() && forall i :: 0 <= i < |queue.ring| ==> queue.ring[i].flow.key != slot.flow.key
      modifies this`table, this`sent
      ensures Shared() && old(sent) <= sent
      ensures Abs() == Meter(old(Abs()).table - {slot.flow.key}, old(Abs()).queue,
                             old(Abs()).exported + [old(Abs()).table[slot.flow.key]])
    {
      ghost var before := Abs();
      table := table - {slot.flow.key};
      sent := sent + [slot.flow];
      assert TableRecords(table) == before.table - {slot.flow.key};
      assert SentRecords(sent) == before.exported + [slot.flow.Rec()];
    }

    /** Popping the oldest slot leaves the other slots linked to the table. */
    method PopOldest() returns (ok: bool, slot: QueueSlot)
      requires queue.Valid() && Shared() && DistinctKeys(SlotKeys(queue.ring))
      modifies queue, queue.data
      ensures queue.Valid() && Shared()
      ensures ok <==> old(queue.ring) != []
      ensures !ok ==> Abs() == old(Abs())
      ensures ok ==> && slot.QueueSlot? && old(queue.ring) == [slot] + queue.ring
                     && slot.flow.key in table && table[slot.flow.key] == slot.flow
                     && Slot(slot.flow.key, slot.lastChecked) == old(Abs()).queue[0]
                     && Abs() == old(Abs()).(queue := old(Abs()).queue[1..])
                     && forall i :: 0 <= i < |queue.ring| ==> queue.ring[i].flow.key != slot.flow.key
    {
      if queue.ring != [] {
        TailSlots(queue.ring, table);
      }
      ok, slot := queue.PopSlot();
    }

    /** Putting a live slot back at the end never finds the queue full. */
    method Requeue(slot: QueueSlot, now: nat)
      requires queue.Valid() && Shared() && |queue.ring| < Q_SIZE - 1
      requires slot.QueueSlot? && slot.flow.key in table && table[slot.flow.key] == slot.flow
      modifies queue, queue.data
      ensures queue.Valid() && Shared() && |queue.ring| == |old(queue.ring)| + 1
      ensures Abs() == old(Abs()).(queue := old(Abs()).queue + [Slot(slot.flow.key, now)])
    {
      ghost var before := Abs();
      var ok := queue.PushSlot(slot.(lastChecked := now));
      assert TableRecords(table) == before.table && SentRecords(sent) == before.exported;
      assert SlotKeys(queue.ring) == before.queue + [Slot(slot.flow.key, now)];
    }

    /** What the loop does with the slot it has popped: the flow is sent out, or the slot put back. */
    method Visit(slot: QueueSlot, now: nat, limit: nat) returns (finished: bool)
      requires queue.Valid() && Shared() && |queue.ring| < Q_SIZE - 1
      requires slot.QueueSlot? && slot.flow.key in table && table[slot.flow.key] == slot.flow
      requires forall i :: 0 <= i < |queue.ring| ==> queue.ring[i].flow.key != slot.flow.key
      modifies this`table, this`sent, queue, queue.data
      ensures queue.Valid() && Shared() && |queue.ring| <= |old(queue.ring)| + 1 && old(sent) <= sent
      ensures Visited(old(Abs()), Slot(slot.flow.key, slot.lastChecked), now, limit)
              == if finished then Done(Abs()) else Running(Abs())
    {
      if slot.flow.etime < limit {
        ExportExpired(slot);
        finished := false;
      } else {
        finished := slot.lastChecked > limit;
        Requeue(slot, now);
      }
    }

    /** The body of the timer loop. */
    method TimerIteration(now: nat, limit: nat) returns (finished: bool)
      requires queue.Valid() && Shared() && Consistent(Abs()) && |queue.ring| < Q_SIZE && limit == Limit(c, now)
      modifies this`table, this`sent, queue, queue.data
      ensures queue.Valid() && Shared() && |queue.ring| <= |old(queue.ring)|
      ensures Iterate(c, old(Abs()), now) == if finished then Done(Abs()) else Running(Abs())
      ensures old(sent) <= sent
    {
      IterateVisits(c, Abs(), now);
      var ok, slot := PopOldest();
      if ok {
        finished := Visit(slot, now, limit);
      } else {
        finished := true;
      }
    }

    /** The timer loop; `trace` lists the states of a run of it that is known to end. */
    method RunPass(now: nat, limit: nat, ghost trace: seq<Meter>)
      requires queue.Valid() && Shared() && |queue.ring| < Q_SIZE && limit == Limit(c, now)
      requires IsTrace(c, now, trace) && trace[0] == Abs()
      modifies this`table, this`sent, queue, queue.data
      ensures queue.Valid() && Shared() && Abs() == trace[|trace| - 1] && old(sent) <= sent
    {
      ghost var i := 0;
      var finished := false;
      while !finished
        invariant queue.Valid() && Shared() && |queue.ring| < Q_SIZE
        invariant 0 <= i < |trace| && Abs() == trace[i] && (finished <==> i == |trace| - 1)
        invariant old(sent) <= sent
        decreases |trace| - i
      {
        assert TraceStep(c, now, trace, i);
        finished := TimerIteration(now, limit);
        i := i + 1;
      }
    }

    /**
     `_handle_timer`, under the condition for its loop to end, which a positive idle timeout meets: what
     it leaves behind is the pass on values.
     */
    method HandleTimer(ghost clock: nat, now: nat)
      requires Valid(clock) && clock <= now < U64 && PassWillEnd(c, Abs().table, now)
      modifies this, queue, queue.data
      ensures Valid(now)
      ensures Abs() == TimerStep(c, old(Abs()), now)
      ensures old(sent) <= sent
    {
      var limit := if c.idle <= now then now - c.idle else now - c.idle + U64;
      ghost var before := Abs();
      ghost var trace := TimerTrace(c, before, clock, now);
      RunPass(now, limit, trace);
      TimerKeepsInv(c, before, clock, now);
    }
  }
}
