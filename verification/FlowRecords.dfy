/** Flow records as values, and per-key totals over sequences of them. */
module FlowRecords {

  const U64: nat := 0x1_0000_0000_0000_0000

  function Add64(a: nat, b: nat): nat { (a + b) % U64 }

  /** Unsigned 64-bit subtraction. */
  function Sub64(a: nat, b: nat): int { if b <= a then a - b else a - b + U64 }

  datatype FlowKey = FlowKey(srcIp: nat, dstIp: nat, srcPort: nat, dstPort: nat, proto: nat)

  datatype Packet = Packet(key: FlowKey, length: nat)

  /** The fields of a `Flow` message. */
  datatype Record = Record(key: FlowKey, stime: nat, etime: nat, bytes: nat, packets: nat, kept: seq<Packet>)

  function Blank(key: FlowKey): Record { Record(key, 0, 0, 0, 0, []) }

  /** `Flow::expand_interval`; a zero start time means that the flow is new or was just reset. */
  function Expand(r: Record, us: nat): Record {
    var stime := if r.stime == 0 || r.stime > us then us else r.stime;
    r.(stime := stime, etime := if stime == 0 || r.etime < us then us else r.etime)
  }

  /** Account one packet to a record. */
  function Absorb(r: Record, p: Packet, now: nat, store: bool): Record {
    Expand(r, now).(bytes := Add64(r.bytes, p.length), packets := Add64(r.packets, 1),
                    kept := if store then r.kept + [p] else r.kept)
  }

  /** After a packet at `now`, the end time is the time of that packet. */
  lemma ExpandEndsNow(r: Record, now: nat)
    requires r.stime <= r.etime <= now
    ensures Expand(r, now).etime == now
    ensures r.stime <= Expand(r, now).stime <= now
    ensures r.stime != 0 ==> Expand(r, now).stime == r.stime
  {
  }

  // ---------------------------------------------------------------------------------------------
  // Totals
  // ---------------------------------------------------------------------------------------------

  /** The two counters of a record. */
  datatype Counter = Packets | Bytes

  function Value(r: Record, c: Counter): nat { if c == Packets then r.packets else r.bytes }

  function Weight(p: Packet, c: Counter): nat { if c == Packets then 1 else p.length }

  function Exported(rs: seq<Record>, k: FlowKey, c: Counter): nat {
    if rs == [] then 0
    else Exported(rs[..|rs| - 1], k, c) + if rs[|rs| - 1].key == k then Value(rs[|rs| - 1], c) else 0
  }

  function ExportedKept(rs: seq<Record>, k: FlowKey): seq<Packet> {
    if rs == [] then []
    else ExportedKept(rs[..|rs| - 1], k) + if rs[|rs| - 1].key == k then rs[|rs| - 1].kept else []
  }

  function Live(table: map<FlowKey, Record>, k: FlowKey, c: Counter): nat {
    if k in table then Value(table[k], c) else 0
  }

  function LiveKept(table: map<FlowKey, Record>, k: FlowKey): seq<Packet> {
    if k in table then table[k].kept else []
  }

  function Received(ps: seq<Packet>, k: FlowKey, c: Counter): nat {
    if ps == [] then 0
    else Received(ps[..|ps| - 1], k, c) + if ps[|ps| - 1].key == k then Weight(ps[|ps| - 1], c) else 0
  }

  function OfKey(ps: seq<Packet>, k: FlowKey): seq<Packet> {
    if ps == [] then []
    else OfKey(ps[..|ps| - 1], k) + if ps[|ps| - 1].key == k then [ps[|ps| - 1]] else []
  }

  /**
   The conservation law of a meter that exported `exported`, still holds `table` and received `ps`:
   the counters add up modulo 2^64, they add up exactly as long as the true total fits in 64 bits, and
   with stored packets the exported lists followed by the live one are the packets received, in order.
   */
  ghost predicate Balanced(exported: seq<Record>, table: map<FlowKey, Record>, ps: seq<Packet>, store: bool) {
    && (forall k, c :: BalancedFor(exported, table, ps, k, c))
    && (store ==> forall k :: ExportedKept(exported, k) + LiveKept(table, k) == OfKey(ps, k))
  }

  predicate BalancedFor(exported: seq<Record>, table: map<FlowKey, Record>, ps: seq<Packet>, k: FlowKey, c: Counter) {
    var held := Exported(exported, k, c) + Live(table, k, c);
    && held % U64 == Received(ps, k, c) % U64
    && (Received(ps, k, c) < U64 ==> held == Received(ps, k, c))
  }

  lemma AppendRecord(rs: seq<Record>, r: Record, k: FlowKey, c: Counter)
    ensures Exported(rs + [r], k, c) == Exported(rs, k, c) + if r.key == k then Value(r, c) else 0
    ensures ExportedKept(rs + [r], k) == ExportedKept(rs, k) + if r.key == k then r.kept else []
  {
    assert (rs + [r])[..|rs|] == rs;
  }

  lemma AppendPacket(ps: seq<Packet>, p: Packet, k: FlowKey, c: Counter)
    ensures Received(ps + [p], k, c) == Received(ps, k, c) + if p.key == k then Weight(p, c) else 0
    ensures OfKey(ps + [p], k) == OfKey(ps, k) + if p.key == k then [p] else []
  {
    assert (ps + [p])[..|ps|] == ps;
  }

  /** Adding `w` to a 64-bit counter that is part of a sum commutes with reducing the sum. */
  lemma CounterAdd(e: nat, v: nat, w: nat, total: nat)
    requires (e + v) % U64 == total % U64
    ensures (e + Add64(v, w)) % U64 == (total + w) % U64
  {
    var carry := (v + w) / U64;
    assert v + w == carry * U64 + Add64(v, w);
    var turns, turns' := (e + v) / U64, total / U64;
    assert e + v - turns * U64 == total - turns' * U64;
    assert e + Add64(v, w) == total + w + (turns - turns' - carry) * U64;
    SameRemainder(e + Add64(v, w), total + w, turns - turns' - carry);
  }

  /** While the true total fits in 64 bits the counter does not wrap. */
  lemma CounterFits(e: nat, v: nat, w: nat, total: nat)
    requires total < U64 ==> e + v == total
    ensures total + w < U64 ==> e + Add64(v, w) == total + w
  {
  }

  lemma SameRemainder(a: nat, b: nat, turns: int)
    requires a == b + turns * U64
    ensures a % U64 == b % U64
  {
  }

  lemma AbsorbKeepsCounter(exported: seq<Record>, table: map<FlowKey, Record>, ps: seq<Packet>, store: bool,
                           p: Packet, now: nat, k: FlowKey, c: Counter)
    requires BalancedFor(exported, table, ps, k, c)
    ensures BalancedFor(exported,
                        table[p.key := Absorb(if p.key in table then table[p.key] else Blank(p.key), p, now, store)],
                        ps + [p], k, c)
  {
    AppendPacket(ps, p, k, c);
    if k == p.key {
      var e, v, w, total := Exported(exported, k, c), Live(table, k, c), Weight(p, c), Received(ps, k, c);
      CounterAdd(e, v, w, total);
      CounterFits(e, v, w, total);
    }
  }

  /** Adding one packet to the live record of its key keeps the books. */
  lemma AbsorbKeepsBalance(exported: seq<Record>, table: map<FlowKey, Record>, ps: seq<Packet>, store: bool,
                           p: Packet, now: nat)
    requires Balanced(exported, table, ps, store)
    requires forall k :: k in table ==> table[k].key == k
    ensures Balanced(exported,
                     table[p.key := Absorb(if p.key in table then table[p.key] else Blank(p.key), p, now, store)],
                     ps + [p], store)
  {
    var r := if p.key in table then table[p.key] else Blank(p.key);
    var table' := table[p.key := Absorb(r, p, now, store)];
    forall k, c ensures BalancedFor(exported, table', ps + [p], k, c) {
      assert BalancedFor(exported, table, ps, k, c);
      AbsorbKeepsCounter(exported, table, ps, store, p, now, k, c);
    }
    forall k | store ensures ExportedKept(exported, k) + LiveKept(table', k) == OfKey(ps + [p], k) {
      AppendPacket(ps, p, k, Packets);
    }
  }

  lemma ExportKeepsCounter(exported: seq<Record>, table: map<FlowKey, Record>, ps: seq<Packet>,
                           k0: FlowKey, r: Record, table': map<FlowKey, Record>, k: FlowKey, c: Counter)
    requires BalancedFor(exported, table, ps, k, c)
    requires k0 in table && r.key == k0 && Value(r, c) == Value(table[k0], c)
    requires table' == table - {k0} || table' == table[k0 := Blank(k0)]
    ensures BalancedFor(exported + [r], table', ps, k, c)
  {
    AppendRecord(exported, r, k, c);
    assert Exported(exported + [r], k, c) + Live(table', k, c) == Exported(exported, k, c) + Live(table, k, c);
  }

  /** Moving a live record, or a copy of it followed by a reset, to the exported ones keeps the books. */
  lemma ExportKeepsBalance(exported: seq<Record>, table: map<FlowKey, Record>, ps: seq<Packet>, store: bool,
                           k0: FlowKey, r: Record, table': map<FlowKey, Record>)
    requires Balanced(exported, table, ps, store)
    requires k0 in table && r.key == k0
    requires r.bytes == table[k0].bytes && r.packets == table[k0].packets && r.kept == table[k0].kept
    requires table' == table - {k0} || table' == table[k0 := Blank(k0)]
    ensures Balanced(exported + [r], table', ps, store)
  {
    forall k, c ensures BalancedFor(exported + [r], table', ps, k, c) {
      assert BalancedFor(exported, table, ps, k, c);
      ExportKeepsCounter(exported, table, ps, k0, r, table', k, c);
    }
    forall k | store ensures ExportedKept(exported + [r], k) + LiveKept(table', k) == OfKey(ps, k) {
      AppendRecord(exported, r, k, Packets);
    }
  }
}
