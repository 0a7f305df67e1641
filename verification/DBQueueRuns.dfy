/** What the queue promises over whole runs: any schedule of any number of producers and one consumer. */
module DBQueueRuns {
  import opened Options
  import opened DBQueueProtocol
  import opened DBQueueSafety
  import opened DBQueueOrder

  /** The schedule `acts` can be executed from `s` and ends in `t`. */
  ghost predicate Reaches<T>(s: State<T>, acts: seq<Action<T>>, t: State<T>)
    decreases |acts|
  {
    if acts == [] then t == s
    else Shape(s) && Enabled(s, acts[0]) && Reaches(Apply(s, acts[0]), acts[1..], t)
  }

  lemma {:induction false} RunConserves<T(!new)>(s: State<T>, acts: seq<Action<T>>, t: State<T>)
    requires Shape(s) && Conserved(s) && Reaches(s, acts, t)
    ensures Shape(t) && Conserved(t)
    decreases |acts|
  {
    if acts != [] {
      StepConserves(s, acts[0]);
      RunConserves(Apply(s, acts[0]), acts[1..], t);
    }
  }

  lemma {:induction false} RunKeepsOrder<T>(s: State<T>, acts: seq<Action<T>>, t: State<T>)
    requires Shape(s) && Ordered(s) && Reaches(s, acts, t) && GiveUp !in acts
    ensures Shape(t) && Ordered(t)
    decreases |acts|
  {
    if acts != [] {
      StepKeepsOrder(s, acts[0]);
      RunKeepsOrder(Apply(s, acts[0]), acts[1..], t);
    }
  }

  lemma InitConserves<T(!new)>(s: State<T>)
    requires Init(s)
    ensures Shape(s) && Conserved(s)
  {
    forall m ensures Holdings(s, m) == multiset(s.log.offered)[m] {
      assert Some(m) !in s.hand && Some(m) !in s.mem.payload[0] && Some(m) !in s.mem.payload[1];
    }
  }

  /**
   Without give-up steps, what has been delivered is a prefix of what has been accepted, in ticket
   order; everything else that was accepted has its ticket in one of the two buffers; nothing is lost.
   */
  lemma DeliveryIsTicketOrder<T>(s: State<T>, acts: seq<Action<T>>, t: State<T>)
    requires Init(s) && Reaches(s, acts, t) && GiveUp !in acts
    ensures |t.log.delivered| <= |t.log.accepted|
    ensures forall j :: 0 <= j < |t.log.delivered| ==> t.log.delivered[j] == Some(t.log.accepted[j])
    ensures |t.log.accepted| == |t.log.delivered| + (t.reader.fullSlots - Taken(t)) + Min(t.mem.word.ticket, t.qlen)
    ensures t.log.lost == []
  {
    InitIsOrdered(s);
    RunKeepsOrder(s, acts, t);
  }

  /** On every schedule each message offered is in exactly one place, counted with multiplicity. */
  lemma EveryMessageInOnePlace<T(!new)>(s: State<T>, acts: seq<Action<T>>, t: State<T>, m: T)
    requires Init(s) && Reaches(s, acts, t)
    ensures Shape(t)
    ensures multiset(t.hand)[Some(m)] + InSlots(t.mem.payload, m) + multiset(t.log.delivered)[Some(m)]
            + multiset(t.log.lost)[m] + multiset(t.log.dropped)[m] == multiset(t.log.offered)[m]
  {
    InitConserves(s);
    RunConserves(s, acts, t);
    assert Holdings(t, m) == multiset(t.log.offered)[m];
  }

  /** Even when the consumer gives up: nothing comes out that did not go in, and nothing comes out twice. */
  lemma NothingDeliveredTwice<T(!new)>(s: State<T>, acts: seq<Action<T>>, t: State<T>, m: T)
    requires Init(s) && Reaches(s, acts, t) && Some(m) in t.log.delivered
    ensures m in t.log.offered
    ensures multiset(t.log.offered)[m] == 1 ==>
              && multiset(t.log.delivered)[Some(m)] == 1
              && Some(m) !in t.hand && m !in t.log.lost && m !in t.log.dropped
  {
    EveryMessageInOnePlace(s, acts, t, m);
    assert multiset(t.log.delivered)[Some(m)] >= 1;
    assert m in multiset(t.log.offered);
    assert multiset(t.hand)[Some(m)] == 0 ==> Some(m) !in t.hand;
  }

  lemma {:induction false} RunDropsOnlyWhenAllowed<T>(s: State<T>, acts: seq<Action<T>>, t: State<T>)
    requires Shape(s) && Reaches(s, acts, t)
    requires !s.dropping && (s.running ==> s.log.dropped == [])
    ensures !t.dropping && (t.running ==> t.log.dropped == [])
    decreases |acts|
  {
    if acts != [] {
      StepKeepsShape(s, acts[0]);
      RunDropsOnlyWhenAllowed(Apply(s, acts[0]), acts[1..], t);
    }
  }

  /**
   `receive` in non-dropping mode while the pool runs, and no give-up: every message offered is still
   held by its producer, or waits in a slot, or has been delivered; each exactly once.
   */
  lemma BlockingReceiveLosesNothing<T(!new)>(s: State<T>, acts: seq<Action<T>>, t: State<T>, m: T)
    requires Init(s) && Reaches(s, acts, t) && GiveUp !in acts && !s.dropping && t.running
    ensures Shape(t)
    ensures multiset(t.hand)[Some(m)] + InSlots(t.mem.payload, m) + multiset(t.log.delivered)[Some(m)]
            == multiset(t.log.offered)[m]
  {
    InitIsOrdered(s);
    EveryMessageInOnePlace(s, acts, t, m);
    DeliveryIsTicketOrder(s, acts, t);
    RunDropsOnlyWhenAllowed(s, acts, t);
  }

  /** When `pop` is about to report an empty queue, every undelivered ticket is younger than its swap. */
  lemma EmptyPopIsHonest<T>(s: State<T>, acts: seq<Action<T>>, t: State<T>)
    requires Init(s) && Reaches(s, acts, t) && GiveUp !in acts
    requires t.reader.at == Scan(true) && t.reader.read >= t.reader.fullSlots
    ensures t.reader.fullSlots == 0
    ensures |t.log.accepted| == |t.log.delivered| + Min(t.mem.word.ticket, t.qlen)
  {
    InitIsOrdered(s);
    RunKeepsOrder(s, acts, t);
  }

  /** The steps a producer still has to take to publish its slot. */
  function Remaining<T>(ph: Phase, p: nat): seq<Action<T>>
    requires InFlight(ph)
  {
    if ph.MarkFull? then [StoreFullFlag(p), StorePayload(p), StoreValid(p)]
    else if ph.WritePayload? then [StorePayload(p), StoreValid(p)]
    else [StoreValid(p)]
  }

  lemma {:induction false} OwnerPublishes<T>(s: State<T>, p: nat) returns (t: State<T>)
    requires Shape(s) && p < |s.phase| && InFlight(s.phase[p])
    ensures Reaches(s, Remaining(s.phase[p], p), t)
    ensures Shape(t) && t.qlen == s.qlen && t.reader == s.reader
    ensures t.mem.valid[s.phase[p].q][s.phase[p].slot]
    decreases if s.phase[p].MarkFull? then 2 else if s.phase[p].WritePayload? then 1 else 0
  {
    var acts := Remaining<T>(s.phase[p], p);
    var u := Apply(s, acts[0]);
    StepKeepsShape(s, acts[0]);
    if s.phase[p].SetValid? {
      assert acts[1..] == [];
      t := u;
    } else {
      assert acts[1..] == Remaining<T>(u.phase[p], p);
      t := OwnerPublishes(u, p);
    }
  }

  /**
   The consumer never waits for nobody: an unpublished slot it polls belongs to a producer that is
   still inside `push`, and at most three steps of that producer alone publish it.
   */
  lemma PolledSlotHasAnOwner<T>(s: State<T>, acts: seq<Action<T>>, t: State<T>) returns (p: nat, u: State<T>)
    requires Init(s) && Reaches(s, acts, t) && GiveUp !in acts
    requires Shape(t) && t.reader.at.Test? && !t.mem.valid[t.reader.q][t.reader.read]
    ensures p < |t.phase| && Holds(t.phase[p], t.reader.q, t.reader.read)
    ensures Reaches(t, Remaining(t.phase[p], p), u)
    ensures Shape(u) && u.qlen == t.qlen && u.reader == t.reader
    ensures u.mem.valid[t.reader.q][t.reader.read]
  {
    InitIsOrdered(s);
    RunKeepsOrder(s, acts, t);
    assert SlotOk(t, t.reader.q, t.reader.read);
    p :| 0 <= p < |t.phase| && Holds(t.phase[p], t.reader.q, t.reader.read);
    u := OwnerPublishes(t, p);
  }

  /**
   Why the order theorem excludes give-up steps: giving up on a slot whose successor is published
   delivers the successor's message in the place of the skipped one.
   */
  lemma GiveUpSkipsAMessage<T>(s: State<T>) returns (t: State<T>)
    requires Shape(s) && Ordered(s) && Enabled(s, GiveUp)
    requires s.reader.read + 1 < s.reader.fullSlots && s.mem.valid[s.reader.q][s.reader.read + 1]
    ensures Reaches(s, [GiveUp, ScanSlot, TestValid, TakePayload], t)
    ensures |s.log.delivered| + 1 < |s.log.accepted| && t.log.accepted == s.log.accepted
    ensures t.log.delivered == s.log.delivered + [Some(s.log.accepted[|s.log.delivered| + 1])]
  {
    var r := s.reader;
    assert SlotOk(s, r.q, r.read + 1);
    assert s.mem.payload[r.q][r.read + 1] == Some(s.log.accepted[|s.log.delivered| + 1]);
    StepKeepsShape(s, GiveUp);
    var s1 := Apply(s, GiveUp);
    StepKeepsShape(s1, ScanSlot);
    t := TakeNext(s1);
    var rest: seq<Action<T>> := [ScanSlot, TestValid, TakePayload];
    StepReaches(s, GiveUp, rest, t);
    assert [GiveUp] + rest == [GiveUp, ScanSlot, TestValid, TakePayload];
  }

  lemma StepReaches<T>(s: State<T>, a: Action<T>, rest: seq<Action<T>>, t: State<T>)
    requires Shape(s) && Enabled(s, a) && Reaches(Apply(s, a), rest, t)
    ensures Reaches(s, [a] + rest, t)
  {
    assert ([a] + rest)[1..] == rest;
  }

  lemma {:induction false} ReachesConcat<T>(s: State<T>, before: seq<Action<T>>, t: State<T>, after: seq<Action<T>>,
                                            u: State<T>)
    requires Reaches(s, before, t) && Reaches(t, after, u)
    ensures Reaches(s, before + after, u)
    decreases |before|
  {
    if before == [] {
      assert before + after == after;
    } else {
      assert (before + after)[1..] == before[1..] + after;
      ReachesConcat(Apply(s, before[0]), before[1..], t, after, u);
    }
  }

  /** One more step at the end of a run. */
  lemma ReachesThen<T>(s: State<T>, acts: seq<Action<T>>, t: State<T>, a: Action<T>)
    requires Reaches(s, acts, t) && Shape(t) && Enabled(t, a)
    ensures Reaches(s, acts + [a], Apply(t, a)) && Shape(Apply(t, a))
  {
    StepKeepsShape(t, a);
    assert Reaches(Apply(t, a), [], Apply(t, a)) && [a] + [] == [a];
    StepReaches(t, a, [], Apply(t, a));
    ReachesConcat(s, acts, t, [a], Apply(t, a));
  }

  /** From the head of the scan, a published slot is delivered in three steps. */
  lemma TakeNext<T>(s: State<T>) returns (t: State<T>)
    requires Shape(s) && s.reader.at.Scan? && s.reader.read < s.reader.fullSlots
    requires s.mem.valid[s.reader.q][s.reader.read]
    ensures Reaches(s, [ScanSlot, TestValid, TakePayload], t)
    ensures t.log == s.log.(delivered := s.log.delivered + [s.mem.payload[s.reader.q][s.reader.read]])
  {
    StepKeepsShape(s, ScanSlot);
    var s1 := DoScanSlot(s);
    StepKeepsShape(s1, TestValid);
    var s2 := DoTestValid(s1);
    t := DoTakePayload(s2);
    assert Reaches(t, [], t);
    var one: seq<Action<T>> := [TakePayload];
    var two: seq<Action<T>> := [TestValid, TakePayload];
    StepReaches(s2, TakePayload, [], t);
    assert [TakePayload] + [] == one;
    StepReaches(s1, TestValid, one, t);
    assert [TestValid] + one == two;
    StepReaches(s, ScanSlot, two, t);
    assert [ScanSlot] + two == [ScanSlot, TestValid, TakePayload];
  }

  // ---------------------------------------------------------------------------------------------
  // Building runs
  // ---------------------------------------------------------------------------------------------

  /** A run without give-up steps. */
  ghost predicate QuietRun<T>(s: State<T>, acts: seq<Action<T>>, t: State<T>) {
    Reaches(s, acts, t) && Shape(t) && GiveUp !in acts
  }

  lemma Then<T>(s: State<T>, acts: seq<Action<T>>, t: State<T>, a: Action<T>) returns (acts': seq<Action<T>>, t': State<T>)
    requires QuietRun(s, acts, t) && Enabled(t, a) && a != GiveUp
    ensures QuietRun(s, acts', t') && t' == Apply(t, a)
  {
    acts', t' := acts + [a], Apply(t, a);
    ReachesThen(s, acts, t, a);
  }

  /** A producer enters `push` and takes a ticket. */
  lemma TakesTicket<T>(s: State<T>, acts: seq<Action<T>>, t: State<T>, p: nat, m: T)
    returns (acts': seq<Action<T>>, t': State<T>)
    requires QuietRun(s, acts, t) && p < |t.phase| && t.phase[p] == Idle && !t.mem.full && t.mem.word.ticket + 1 < SELECTOR_UNIT
    ensures QuietRun(s, acts', t')
    ensures var u := t.(phase := t.phase[p := FetchAdd], hand := t.hand[p := Some(m)],
                        log := t.log.(offered := t.log.offered + [m]));
            Shape(u) && Enabled(u, TakeTicket(p)) && t' == DoTakeTicket(u, p)
  {
    acts', t' := Then(s, acts, t, Offer(p, m));
    acts', t' := Then(s, acts', t', LoadFullFlag(p));
    assert t.phase[p := LoadFull][p := FetchAdd] == t.phase[p := FetchAdd];
    acts', t' := Then(s, acts', t', TakeTicket(p));
  }

  lemma MarksFull<T>(s: State<T>, acts: seq<Action<T>>, t: State<T>, p: nat) returns (acts': seq<Action<T>>, t': State<T>)
    requires QuietRun(s, acts, t) && p < |t.phase| && t.phase[p].MarkFull?
    ensures QuietRun(s, acts', t')
    ensures t' == t.(mem := t.mem.(full := true), phase := t.phase[p := WritePayload(t.phase[p].q, t.phase[p].slot)])
  {
    acts', t' := Then(s, acts, t, StoreFullFlag(p));
  }

  /** A producer fills its slot, from which the last message was taken, and publishes it. */
  lemma Publishes<T>(s: State<T>, acts: seq<Action<T>>, t: State<T>, p: nat) returns (acts': seq<Action<T>>, t': State<T>)
    requires QuietRun(s, acts, t) && p < |t.phase| && t.phase[p].WritePayload?
    requires t.mem.payload[t.phase[p].q][t.phase[p].slot] == None
    ensures QuietRun(s, acts', t')
    ensures var q, slot := t.phase[p].q, t.phase[p].slot;
            t' == t.(mem := t.mem.(payload := At(t.mem.payload, q, slot, t.hand[p]), valid := At(t.mem.valid, q, slot, true)),
                     phase := t.phase[p := Idle], hand := t.hand[p := None])
  {
    acts', t' := Then(s, acts, t, StorePayload(p));
    var ph := t.phase[p];
    assert t.phase[p := SetValid(ph.q, ph.slot)][p := Idle] == t.phase[p := Idle];
    acts', t' := Then(s, acts', t', StoreValid(p));
  }

  /** A `pop` that finds its own buffer empty and swaps. */
  lemma SwapsEmptyBuffer<T>(s: State<T>, acts: seq<Action<T>>, t: State<T>) returns (acts': seq<Action<T>>, t': State<T>)
    requires QuietRun(s, acts, t) && t.reader.at == Resting && t.reader.fullSlots == 0
    ensures QuietRun(s, acts', t')
    ensures t' == t.(mem := t.mem.(word := Word(t.reader.q, 0), full := false),
                     reader := Reader(0, 1 - t.reader.q, Min(t.mem.word.ticket, t.qlen), Scan(true)))
  {
    acts', t' := FindsBufferEmpty(s, acts, t);
    acts', t' := Then(s, acts', t', SwapWord);
    acts', t' := Then(s, acts', t', ClearFullFlag);
  }

  lemma FindsBufferEmpty<T>(s: State<T>, acts: seq<Action<T>>, t: State<T>) returns (acts': seq<Action<T>>, t': State<T>)
    requires QuietRun(s, acts, t) && t.reader.at == Resting && t.reader.fullSlots == 0
    ensures QuietRun(s, acts', t') && t' == t.(reader := t.reader.(at := Exchange))
  {
    acts', t' := Then(s, acts, t, BeginPop);
    acts', t' := Then(s, acts', t', ScanSlot);
    acts', t' := Then(s, acts', t', ClearValid);
  }
}
