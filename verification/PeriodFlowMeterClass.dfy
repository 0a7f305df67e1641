/** The periodic flow meter as an object: a table of flows that is sent out and cleared as a whole. */
module PeriodFlowMeterClass {
  import opened FlowRecords
  import opened FlowMeterSpec
  import opened FlowMeterRuns
  import opened FlowMeterClass

  lemma {:induction false} FlushAppend(table: map<FlowKey, Record>, order: seq<FlowKey>, k: FlowKey, exported: seq<Record>)
    requires k in table && forall i :: 0 <= i < |order| ==> order[i] in table
    ensures FlushInOrder(table, order + [k], exported) == FlushInOrder(table, order, exported) + [table[k]]
    decreases |order|
  {
    if order == [] {
      assert [] + [k] == [k] && [k][1..] == [];
    } else {
      assert (order + [k])[1..] == order[1..] + [k];
      FlushAppend(table, order[1..], k, exported + [table[order[0]]]);
    }
  }

  /** `order` lists, once each, the elements of `all` that are no longer in `left`. */
  ghost predicate DrawnFrom(order: seq<FlowKey>, left: set<FlowKey>, all: set<FlowKey>) {
    && (forall k :: k in order <==> k in all && k !in left)
    && (forall i, j :: 0 <= i < j < |order| ==> order[i] != order[j])
  }

  class PeriodFlowMeter {
    var table: map<FlowKey, Flow>       // m_flow_table
    var sent: seq<Flow>                 // flows handed to the output gate

    ghost predicate Valid()
      reads this
    {
      forall k :: k in table ==> table[k].key == k && table[k] !in sent
    }

    ghost function Abs(): PeriodMeter
      reads this, table.Values, sent
    {
      PeriodMeter(TableRecords(table), SentRecords(sent))
    }

    constructor ()
      ensures Valid() && Abs() == PeriodMeter(map[], [])
    {
      table, sent := map[], [];
      new;
      assert TableRecords(table) == map[];
    }

    method Receive(p: Packet, now: nat)
      requires Valid()
      modifies this, table.Values
      ensures Valid() && sent == old(sent)
      ensures Abs() == PeriodReceive(old(Abs()), p, now)
    {
      if p.key !in table {
        AddEntry(p, now);
      } else {
        AccountTo(p, now);
      }
    }

    method AddEntry(p: Packet, now: nat)
      requires Valid() && p.key !in table
      modifies this`table
      ensures Valid() && Abs() == PeriodReceive(old(Abs()), p, now)
    {
      ghost var before := Abs();
      var flow := new Flow(p.key);
      flow.Account(p, now, false);
      table := table[p.key := flow];
      assert SentRecords(sent) == before.exported;
      assert TableRecords(table) == before.table[p.key := flow.Rec()];
    }

    method AccountTo(p: Packet, now: nat)
      requires Valid() && p.key in table
      modifies table[p.key]
      ensures Valid() && Abs() == PeriodReceive(old(Abs()), p, now)
    {
      ghost var before := Abs();
      table[p.key].Account(p, now, false);
      assert SentRecords(sent) == before.exported;
      assert TableRecords(table) == before.table[p.key := Absorb(before.table[p.key], p, now, false)];
    }

    method SendOut(flow: Flow)
      modifies this`sent
      ensures sent == old(sent) + [flow]
      ensures SentRecords(sent) == old(SentRecords(sent)) + [flow.Rec()]
    {
      sent := sent + [flow];
    }

    /** `_handle_timer`: sends every entry once, in the order `order` of the hash table, and clears it. */
    method HandleTimer() returns (ghost order: seq<FlowKey>)
      requires Valid()
      modifies this
      ensures Valid() && old(sent) <= sent
      ensures Enumerates(order, old(Abs()).table)
      ensures Abs() == PeriodMeter(map[], FlushInOrder(old(Abs()).table, order, old(Abs()).exported))
    {
      ghost var before := Abs();
      order := [];
      var keys := table.Keys;
      while keys != {}
        modifies this`sent
        invariant old(sent) <= sent
        invariant keys <= table.Keys && DrawnFrom(order, keys, table.Keys)
        invariant SentRecords(sent) == FlushInOrder(before.table, order, before.exported)
        decreases |keys|
      {
        var k :| k in keys;
        FlushAppend(before.table, order, k, before.exported);
        SendOut(table[k]);
        order := order + [k];
        keys := keys - {k};
      }
      table := map[];
      assert TableRecords(table) == map[];
    }
  }
}
