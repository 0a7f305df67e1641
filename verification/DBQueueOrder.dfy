/**
 Runs in which the consumer never gives up on a slot: the messages that `pop` returned are, at every
 moment, a prefix of the accepted messages in the order of their tickets.
 */
module DBQueueOrder {
  import opened Options
  import opened DBQueueProtocol
  import opened DBQueueSafety

  /** Slots of buffer `q` for which a ticket of the current generation exists. */
  function Issued<T>(s: State<T>, q: nat): nat {
    if q == s.reader.q then s.reader.fullSlots else Min(s.mem.word.ticket, s.qlen)
  }

  /** Number of accepted messages whose buffer has been swapped out and reused. */
  function Base<T>(s: State<T>): int {
    |s.log.accepted| - Min(s.mem.word.ticket, s.qlen) - s.reader.fullSlots
  }

  /** Position in `accepted` of the message whose ticket is slot `i` of buffer `q`. */
  function Rank<T>(s: State<T>, q: nat, i: nat): int {
    Base(s) + i + if q == s.reader.q then 0 else s.reader.fullSlots
  }

  /** Consumer slots whose payload has been moved out. */
  function Taken<T>(s: State<T>): nat {
    if s.reader.at.Take? then s.reader.at.index else s.reader.read
  }

  predicate Cleared<T>(s: State<T>, i: nat) {
    s.reader.at.Exchange? || (s.reader.at.Clear? && i < s.reader.at.next)
  }

  predicate Holds(ph: Phase, q: nat, i: nat) { InFlight(ph) && ph.q == q && ph.slot == i }

  /** Some producer has the ticket of slot `i` of buffer `q` and has not published it yet. */
  ghost predicate Owned<T>(s: State<T>, q: nat, i: nat) {
    exists p :: 0 <= p < |s.phase| && Holds(s.phase[p], q, i)
  }

  ghost predicate SlotOk<T>(s: State<T>, q: nat, i: nat)
    requires Shape(s) && q < 2 && i < s.qlen
  {
    var valid, payload := s.mem.valid[q][i], s.mem.payload[q][i];
    if i >= Issued(s, q) then
      !valid && payload == None
    else if q == s.reader.q && i < Taken(s) then
      payload == None && (Cleared(s, i) ==> !valid)
    else
      && 0 <= Rank(s, q, i) < |s.log.accepted|
      && (valid ==> payload == Some(s.log.accepted[Rank(s, q, i)]))
      && (!valid ==> Owned(s, q, i))
  }

  ghost predicate ProducerOk<T>(s: State<T>, p: nat)
    requires Shape(s) && p < |s.phase|
  {
    var ph := s.phase[p];
    InFlight(ph) ==>
      && ph.slot < Issued(s, ph.q)
      && (ph.q == s.reader.q ==> s.reader.read <= ph.slot)
      && !s.mem.valid[ph.q][ph.slot]
      && 0 <= Rank(s, ph.q, ph.slot) < |s.log.accepted|
      && (if ph.SetValid? then s.mem.payload[ph.q][ph.slot] == Some(s.log.accepted[Rank(s, ph.q, ph.slot)])
          else s.mem.payload[ph.q][ph.slot] == None && s.hand[p] == Some(s.log.accepted[Rank(s, ph.q, ph.slot)]))
  }

  ghost predicate ReaderOk<T>(s: State<T>)
    requires Shape(s)
  {
    var r := s.reader;
    && r.read <= r.fullSlots
    && (r.at.Take? ==> r.read == r.at.index + 1 && s.mem.valid[r.q][r.at.index])
    && (r.at.Clear? || r.at.Exchange? ==> r.read == r.fullSlots)
    && (r.at.ClearFull? || (r.at.Scan? && r.at.swapped) ==> r.read == 0)
  }

  ghost predicate DeliveredOk<T>(s: State<T>)
    requires Shape(s)
  {
    && 0 <= Base(s)
    && |s.log.delivered| == Base(s) + Taken(s)
    && |s.log.delivered| <= |s.log.accepted|
    && forall j :: 0 <= j < |s.log.delivered| ==> s.log.delivered[j] == Some(s.log.accepted[j])
  }

  ghost predicate SlotsOk<T>(s: State<T>)
    requires Shape(s)
  {
    forall q, i :: 0 <= q < 2 && 0 <= i < s.qlen ==> SlotOk(s, q, i)
  }

  ghost predicate ProducersOk<T>(s: State<T>)
    requires Shape(s)
  {
    forall p :: 0 <= p < |s.phase| ==> ProducerOk(s, p)
  }

  /** No ticket is held twice. */
  ghost predicate TicketsDistinct<T>(s: State<T>) {
    forall p, p' :: 0 <= p < |s.phase| && 0 <= p' < |s.phase| && p != p' && InFlight(s.phase[p]) ==>
      !Holds(s.phase[p'], s.phase[p].q, s.phase[p].slot)
  }

  ghost predicate Ordered<T>(s: State<T>)
    requires Shape(s)
  {
    && SlotsOk(s)
    && ProducersOk(s)
    && TicketsDistinct(s)
    && ReaderOk(s)
    && DeliveredOk(s)
    && s.log.lost == []
  }

  lemma InitIsOrdered<T>(s: State<T>)
    requires Init(s)
    ensures Shape(s) && Ordered(s)
  {
  }

  // ---------------------------------------------------------------------------------------------
  // Frame lemmas: what a slot or a producer does not depend on
  // ---------------------------------------------------------------------------------------------

  /** The two states agree on the tickets, on what the consumer took and on the accepted messages. */
  ghost predicate SameTickets<T>(s: State<T>, t: State<T>) {
    && t.qlen == s.qlen && t.mem.word == s.mem.word && t.log.accepted == s.log.accepted
    && t.reader.q == s.reader.q && t.reader.fullSlots == s.reader.fullSlots
  }

  lemma SlotFrame<T>(s: State<T>, t: State<T>, q: nat, i: nat)
    requires Shape(s) && Shape(t) && q < 2 && i < s.qlen
    requires SameTickets(s, t) && SlotOk(s, q, i)
    requires t.mem.valid[q][i] == s.mem.valid[q][i] && t.mem.payload[q][i] == s.mem.payload[q][i]
    requires Taken(t) == Taken(s) && (q == s.reader.q && Cleared(t, i) ==> Cleared(s, i) || !s.mem.valid[q][i])
    requires Owned(s, q, i) ==> Owned(t, q, i)
    ensures SlotOk(t, q, i)
  {
  }

  lemma ProducerFrame<T>(s: State<T>, t: State<T>, p: nat)
    requires Shape(s) && Shape(t) && p < |s.phase| == |t.phase|
    requires SameTickets(s, t) && ProducerOk(s, p)
    requires t.phase[p] == s.phase[p] && t.hand[p] == s.hand[p] && t.reader.read == s.reader.read
    requires InFlight(s.phase[p]) ==>
               var q, i := s.phase[p].q, s.phase[p].slot;
               t.mem.valid[q][i] == s.mem.valid[q][i] && t.mem.payload[q][i] == s.mem.payload[q][i]
    ensures ProducerOk(t, p)
  {
  }

  lemma OwnerStays<T>(s: State<T>, t: State<T>, p: nat, q: nat, i: nat)
    requires p < |s.phase| == |t.phase| && t.phase == s.phase[p := t.phase[p]]
    requires Owned(s, q, i)
    requires Holds(s.phase[p], q, i) ==> Holds(t.phase[p], q, i)
    ensures Owned(t, q, i)
  {
    var w :| 0 <= w < |s.phase| && Holds(s.phase[w], q, i);
    assert Holds(t.phase[w], q, i);
  }

  // ---------------------------------------------------------------------------------------------
  // One lemma per atomic step
  // ---------------------------------------------------------------------------------------------

  lemma StoreValidKeepsSlots<T>(s: State<T>, t: State<T>, p: nat)
    requires Shape(s) && Ordered(s) && Enabled(s, StoreValid(p))
    requires t == DoStoreValid(s, p) && Shape(t)
    ensures SlotsOk(t)
  {
    assert ProducerOk(s, p);
    forall q, i | 0 <= q < 2 && 0 <= i < t.qlen ensures SlotOk(t, q, i) {
      assert SlotOk(s, q, i);
      if !Holds(s.phase[p], q, i) {
        if Owned(s, q, i) {
          OwnerStays(s, t, p, q, i);
        }
        SlotFrame(s, t, q, i);
      }
    }
  }

  lemma StoreValidKeepsOrder<T>(s: State<T>, p: nat)
    requires Shape(s) && Ordered(s) && Enabled(s, StoreValid(p))
    ensures Shape(DoStoreValid(s, p)) && Ordered(DoStoreValid(s, p))
  {
    StepKeepsShape(s, StoreValid(p));
    var t := DoStoreValid(s, p);
    StoreValidKeepsSlots(s, t, p);
    forall p' | 0 <= p' < |t.phase| ensures ProducerOk(t, p') {
      if p' != p {
        assert ProducerOk(s, p');
        assert InFlight(s.phase[p']) ==> !Holds(s.phase[p], s.phase[p'].q, s.phase[p'].slot);
        ProducerFrame(s, t, p');
      }
    }
  }

  /** Offer, load and store of the full flag, retry and abandon touch no slot. */
  lemma GateStepKeepsSlots<T>(s: State<T>, t: State<T>, a: Action<T>)
    requires Shape(s) && Ordered(s) && Enabled(s, a)
    requires a.Offer? || a.LoadFullFlag? || a.StoreFullFlag? || a.Retry? || a.Abandon?
    requires t == Apply(s, a) && Shape(t)
    ensures SlotsOk(t)
  {
    forall q, i | 0 <= q < 2 && 0 <= i < t.qlen ensures SlotOk(t, q, i) {
      assert SlotOk(s, q, i);
      if Owned(s, q, i) {
        OwnerStays(s, t, a.p, q, i);
      }
      SlotFrame(s, t, q, i);
    }
  }

  lemma GateStepKeepsProducers<T>(s: State<T>, t: State<T>, a: Action<T>)
    requires Shape(s) && Ordered(s) && Enabled(s, a)
    requires a.Offer? || a.LoadFullFlag? || a.StoreFullFlag? || a.Retry? || a.Abandon?
    requires t == Apply(s, a) && Shape(t)
    ensures ProducersOk(t)
  {
    forall p | 0 <= p < |t.phase| ensures ProducerOk(t, p) {
      assert ProducerOk(s, p);
      if p != a.p {
        ProducerFrame(s, t, p);
      }
    }
  }

  lemma GateStepKeepsOrder<T>(s: State<T>, a: Action<T>)
    requires Shape(s) && Ordered(s) && Enabled(s, a)
    requires a.Offer? || a.LoadFullFlag? || a.StoreFullFlag? || a.Retry? || a.Abandon?
    ensures Shape(Apply(s, a)) && Ordered(Apply(s, a))
  {
    StepKeepsShape(s, a);
    var t := Apply(s, a);
    GateStepKeepsSlots(s, t, a);
    GateStepKeepsProducers(s, t, a);
  }

  lemma TakeTicketKeepsSlots<T>(s: State<T>, t: State<T>, p: nat)
    requires Shape(s) && Ordered(s) && Enabled(s, TakeTicket(p))
    requires t == DoTakeTicket(s, p) && Shape(t)
    ensures SlotsOk(t)
  {
    forall q, i | 0 <= q < 2 && 0 <= i < t.qlen ensures SlotOk(t, q, i) {
      assert SlotOk(s, q, i);
      assert Base(t) == Base(s);
      if q == s.mem.word.selector && i == s.mem.word.ticket {
        assert Holds(t.phase[p], q, i);
      } else if Owned(s, q, i) {
        OwnerStays(s, t, p, q, i);
      }
    }
  }

  lemma TakeTicketKeepsProducers<T>(s: State<T>, t: State<T>, p: nat)
    requires Shape(s) && Ordered(s) && Enabled(s, TakeTicket(p))
    requires t == DoTakeTicket(s, p) && Shape(t)
    ensures ProducersOk(t)
  {
    forall p' | 0 <= p' < |t.phase| ensures ProducerOk(t, p') {
      TakeTicketKeepsProducer(s, t, p, p');
    }
  }

  lemma TakeTicketKeepsProducer<T>(s: State<T>, t: State<T>, p: nat, p': nat)
    requires Shape(s) && Ordered(s) && Enabled(s, TakeTicket(p))
    requires t == DoTakeTicket(s, p) && Shape(t) && p' < |t.phase|
    ensures ProducerOk(t, p')
  {
    assert Base(t) == Base(s);
    assert ProducerOk(s, p');
    if p' == p && s.mem.word.ticket < s.qlen {
      assert SlotOk(s, s.mem.word.selector, s.mem.word.ticket);
    }
  }

  lemma TakeTicketKeepsTicketsDistinct<T>(s: State<T>, t: State<T>, p: nat)
    requires Shape(s) && Ordered(s) && Enabled(s, TakeTicket(p))
    requires t == DoTakeTicket(s, p)
    ensures TicketsDistinct(t)
  {
    forall p' | 0 <= p' < |s.phase| && p' != p
      ensures !Holds(s.phase[p'], s.mem.word.selector, s.mem.word.ticket)
    {
      assert ProducerOk(s, p');
    }
  }

  lemma TakeTicketKeepsOrder<T>(s: State<T>, p: nat)
    requires Shape(s) && Ordered(s) && Enabled(s, TakeTicket(p))
    ensures Shape(DoTakeTicket(s, p)) && Ordered(DoTakeTicket(s, p))
  {
    StepKeepsShape(s, TakeTicket(p));
    var t := DoTakeTicket(s, p);
    TakeTicketKeepsSlots(s, t, p);
    TakeTicketKeepsProducers(s, t, p);
    TakeTicketKeepsTicketsDistinct(s, t, p);
  }

  lemma StorePayloadKeepsSlots<T>(s: State<T>, t: State<T>, p: nat)
    requires Shape(s) && Ordered(s) && Enabled(s, StorePayload(p))
    requires t == DoStorePayload(s, p) && Shape(t)
    ensures SlotsOk(t)
  {
    assert ProducerOk(s, p);
    forall q, i | 0 <= q < 2 && 0 <= i < t.qlen ensures SlotOk(t, q, i) {
      assert SlotOk(s, q, i);
      if Owned(s, q, i) {
        OwnerStays(s, t, p, q, i);
      }
      if !Holds(s.phase[p], q, i) {
        SlotFrame(s, t, q, i);
      }
    }
  }

  lemma StorePayloadKeepsOrder<T>(s: State<T>, p: nat)
    requires Shape(s) && Ordered(s) && Enabled(s, StorePayload(p))
    ensures Shape(DoStorePayload(s, p)) && Ordered(DoStorePayload(s, p))
  {
    StepKeepsShape(s, StorePayload(p));
    var t := DoStorePayload(s, p);
    StorePayloadKeepsSlots(s, t, p);
    assert ProducerOk(s, p);
    forall p' | 0 <= p' < |t.phase| ensures ProducerOk(t, p') {
      if p' != p {
        assert ProducerOk(s, p');
        assert InFlight(s.phase[p']) ==> !Holds(s.phase[p], s.phase[p'].q, s.phase[p'].slot);
        ProducerFrame(s, t, p');
      }
    }
  }

  lemma ScanKeepsSlots<T>(s: State<T>, t: State<T>, a: Action<T>)
    requires Shape(s) && Ordered(s) && Enabled(s, a)
    requires a.StopPool? || a.BeginPop? || a.ScanSlot? || a.ClearFullFlag?
    requires t == Apply(s, a) && Shape(t)
    ensures SlotsOk(t)
  {
    forall q, i | 0 <= q < 2 && 0 <= i < t.qlen ensures SlotOk(t, q, i) {
      assert SlotOk(s, q, i);
      SlotFrame(s, t, q, i);
    }
  }

  /** Consumer steps that only move its program counter, and the pool's stop flag. */
  lemma ScanKeepsOrder<T>(s: State<T>, a: Action<T>)
    requires Shape(s) && Ordered(s) && Enabled(s, a)
    requires a.StopPool? || a.BeginPop? || a.ScanSlot? || a.ClearFullFlag?
    ensures Shape(Apply(s, a)) && Ordered(Apply(s, a))
  {
    StepKeepsShape(s, a);
    var t := Apply(s, a);
    ScanKeepsSlots(s, t, a);
    forall p | 0 <= p < |t.phase| ensures ProducerOk(t, p) {
      assert ProducerOk(s, p);
      ProducerFrame(s, t, p);
    }
  }

  lemma TestValidKeepsSlots<T>(s: State<T>, t: State<T>)
    requires Shape(s) && Ordered(s) && Enabled(s, TestValid)
    requires t == DoTestValid(s) && Shape(t)
    ensures SlotsOk(t)
  {
    forall q, i | 0 <= q < 2 && 0 <= i < t.qlen ensures SlotOk(t, q, i) {
      assert SlotOk(s, q, i);
      SlotFrame(s, t, q, i);
    }
  }

  lemma TestValidKeepsOrder<T>(s: State<T>)
    requires Shape(s) && Ordered(s) && Enabled(s, TestValid)
    ensures Shape(DoTestValid(s)) && Ordered(DoTestValid(s))
  {
    StepKeepsShape(s, TestValid);
    var t := DoTestValid(s);
    TestValidKeepsSlots(s, t);
    forall p | 0 <= p < |t.phase| ensures ProducerOk(t, p) {
      assert ProducerOk(s, p);
    }
  }

  lemma TakePayloadKeepsSlots<T>(s: State<T>, t: State<T>)
    requires Shape(s) && Ordered(s) && Enabled(s, TakePayload)
    requires t == DoTakePayload(s) && Shape(t)
    ensures SlotsOk(t)
  {
    assert SlotOk(s, s.reader.q, s.reader.at.index);
    forall q, i | 0 <= q < 2 && 0 <= i < t.qlen ensures SlotOk(t, q, i) {
      assert SlotOk(s, q, i);
      assert Owned(s, q, i) ==> Owned(t, q, i);
    }
  }

  lemma TakePayloadKeepsOrder<T>(s: State<T>)
    requires Shape(s) && Ordered(s) && Enabled(s, TakePayload)
    ensures Shape(DoTakePayload(s)) && Ordered(DoTakePayload(s))
  {
    StepKeepsShape(s, TakePayload);
    var t := DoTakePayload(s);
    assert SlotOk(s, s.reader.q, s.reader.at.index);
    TakePayloadKeepsSlots(s, t);
    forall p | 0 <= p < |t.phase| ensures ProducerOk(t, p) {
      assert ProducerOk(s, p);
      ProducerFrame(s, t, p);
    }
  }

  lemma ClearValidKeepsSlots<T>(s: State<T>, t: State<T>)
    requires Shape(s) && Ordered(s) && Enabled(s, ClearValid)
    requires t == DoClearValid(s) && Shape(t)
    ensures SlotsOk(t)
  {
    forall q, i | 0 <= q < 2 && 0 <= i < t.qlen ensures SlotOk(t, q, i) {
      assert SlotOk(s, q, i);
      if q == s.reader.q && i == s.reader.at.next {
      } else {
        SlotFrame(s, t, q, i);
      }
    }
  }

  lemma ClearValidKeepsOrder<T>(s: State<T>)
    requires Shape(s) && Ordered(s) && Enabled(s, ClearValid)
    ensures Shape(DoClearValid(s)) && Ordered(DoClearValid(s))
  {
    StepKeepsShape(s, ClearValid);
    var t := DoClearValid(s);
    ClearValidKeepsSlots(s, t);
    forall p | 0 <= p < |t.phase| ensures ProducerOk(t, p) {
      assert ProducerOk(s, p);
      ProducerFrame(s, t, p);
    }
  }

  lemma SwapWordKeepsSlots<T>(s: State<T>, t: State<T>)
    requires Shape(s) && Ordered(s) && Enabled(s, SwapWord)
    requires t == DoSwapWord(s) && Shape(t)
    ensures SlotsOk(t)
  {
    assert Base(t) == Base(s) + s.reader.fullSlots;
    forall q, i | 0 <= q < 2 && 0 <= i < t.qlen ensures SlotOk(t, q, i) {
      assert SlotOk(s, q, i);
      assert Owned(s, q, i) ==> Owned(t, q, i);
    }
  }

  /** The swap: every consumer slot has been taken and cleared, and nobody is still writing there. */
  lemma SwapWordKeepsOrder<T>(s: State<T>)
    requires Shape(s) && Ordered(s) && Enabled(s, SwapWord)
    ensures Shape(DoSwapWord(s)) && Ordered(DoSwapWord(s))
  {
    StepKeepsShape(s, SwapWord);
    var t := DoSwapWord(s);
    assert Base(t) == Base(s) + s.reader.fullSlots;
    SwapWordKeepsSlots(s, t);
    forall p | 0 <= p < |t.phase| ensures ProducerOk(t, p) {
      assert ProducerOk(s, p);
    }
  }

  lemma StepKeepsOrder<T>(s: State<T>, a: Action<T>)
    requires Shape(s) && Ordered(s) && Enabled(s, a) && !a.GiveUp?
    ensures Shape(Apply(s, a)) && Ordered(Apply(s, a))
  {
    match a
    case Offer(_, _) => GateStepKeepsOrder(s, a);
    case LoadFullFlag(_) => GateStepKeepsOrder(s, a);
    case StoreFullFlag(_) => GateStepKeepsOrder(s, a);
    case Retry(_) => GateStepKeepsOrder(s, a);
    case Abandon(_) => GateStepKeepsOrder(s, a);
    case TakeTicket(p) => TakeTicketKeepsOrder(s, p);
    case StorePayload(p) => StorePayloadKeepsOrder(s, p);
    case StoreValid(p) => StoreValidKeepsOrder(s, p);
    case StopPool => ScanKeepsOrder(s, a);
    case BeginPop => ScanKeepsOrder(s, a);
    case ScanSlot => ScanKeepsOrder(s, a);
    case ClearFullFlag => ScanKeepsOrder(s, a);
    case TestValid => TestValidKeepsOrder(s);
    case TakePayload => TakePayloadKeepsOrder(s);
    case ClearValid => ClearValidKeepsOrder(s);
    case SwapWord => SwapWordKeepsOrder(s);
  }
}
