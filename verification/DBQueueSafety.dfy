/**
 Safety of the queue protocol over every interleaving.

 `Conserved` holds whatever the consumer does; `Ordered` is the stronger invariant of runs in which
 the consumer never gives up on a slot.
 */
module DBQueueSafety {
  import opened Options
  import opened DBQueueProtocol

  // ---------------------------------------------------------------------------------------------
  // Conservation: a message is held by a producer, in a slot, delivered, lost or dropped.
  // ---------------------------------------------------------------------------------------------

  ghost function InSlots<T>(payload: seq<seq<Option<T>>>, m: T): nat
    requires |payload| == 2
  {
    multiset(payload[0])[Some(m)] + multiset(payload[1])[Some(m)]
  }

  /** How often message `m` occurs in each of the five places. */
  ghost function Holdings<T>(s: State<T>, m: T): nat
    requires Shape(s)
  {
    multiset(s.hand)[Some(m)] + InSlots(s.mem.payload, m)
    + multiset(s.log.delivered)[Some(m)] + multiset(s.log.lost)[m] + multiset(s.log.dropped)[m]
  }

  ghost predicate Conserved<T(!new)>(s: State<T>)
    requires Shape(s)
  {
    forall m :: Holdings(s, m) == multiset(s.log.offered)[m]
  }

  predicate IsReaderAction<T>(a: Action<T>) {
    a.BeginPop? || a.ScanSlot? || a.TestValid? || a.GiveUp? || a.TakePayload? || a.ClearValid? || a.SwapWord?
    || a.ClearFullFlag?
  }

  lemma MemoryKeepsShape<T>(s: State<T>, a: Action<T>)
    requires Shape(s) && Enabled(s, a) && (a.TakePayload? || a.ClearValid? || a.SwapWord?)
    ensures Shape(Apply(s, a))
  {
  }

  lemma ReaderKeepsShape<T>(s: State<T>, a: Action<T>)
    requires Shape(s) && Enabled(s, a) && IsReaderAction(a)
    ensures Shape(Apply(s, a))
  {
    if a.TakePayload? || a.ClearValid? || a.SwapWord? {
      MemoryKeepsShape(s, a);
    }
  }

  lemma TakeTicketKeepsShape<T>(s: State<T>, p: nat)
    requires Shape(s) && Enabled(s, TakeTicket(p))
    ensures Shape(DoTakeTicket(s, p))
  {
  }

  lemma StoreKeepsShape<T>(s: State<T>, a: Action<T>)
    requires Shape(s) && Enabled(s, a) && (a.StoreFullFlag? || a.StorePayload? || a.StoreValid?)
    ensures Shape(Apply(s, a))
  {
  }

  lemma StepKeepsShape<T>(s: State<T>, a: Action<T>)
    requires Shape(s) && Enabled(s, a)
    ensures Shape(Apply(s, a))
  {
    if IsReaderAction(a) {
      ReaderKeepsShape(s, a);
    } else if a.TakeTicket? {
      TakeTicketKeepsShape(s, a.p);
    } else if a.StoreFullFlag? || a.StorePayload? || a.StoreValid? {
      StoreKeepsShape(s, a);
    }
  }

  lemma CountUpdate<A>(xs: seq<A>, i: nat, x: A, y: A)
    requires i < |xs|
    ensures multiset(xs[i := x])[y]
            == multiset(xs)[y] - (if xs[i] == y then 1 else 0) + (if x == y then 1 else 0)
  {
    assert multiset(xs[i := x]) == multiset(xs) - multiset{xs[i]} + multiset{x};
  }

  lemma CountAppend<A>(xs: seq<A>, x: A, y: A)
    ensures multiset(xs + [x])[y] == multiset(xs)[y] + (if x == y then 1 else 0)
  {
  }

  lemma SlotUpdate<T>(payload: seq<seq<Option<T>>>, q: nat, i: nat, x: Option<T>, m: T)
    requires |payload| == 2 && q < 2 && i < |payload[q]|
    ensures InSlots(At(payload, q, i, x), m)
            == InSlots(payload, m) - (if payload[q][i] == Some(m) then 1 else 0) + (if x == Some(m) then 1 else 0)
  {
    CountUpdate(payload[q], i, x, Some(m));
  }

  lemma StorePayloadConserves<T(!new)>(s: State<T>, p: nat, m: T)
    requires Shape(s) && Enabled(s, StorePayload(p))
    ensures Shape(DoStorePayload(s, p)) && Holdings(DoStorePayload(s, p), m) == Holdings(s, m)
  {
    StepKeepsShape(s, StorePayload(p));
    var q, slot := s.phase[p].q, s.phase[p].slot;
    var was := s.mem.payload[q][slot];
    var t := DoStorePayload(s, p);
    assert t.mem.payload == At(s.mem.payload, q, slot, s.hand[p]) && t.hand == s.hand[p := None];
    CountUpdate(s.hand, p, None, Some(m));
    SlotUpdate(s.mem.payload, q, slot, s.hand[p], m);
    if was.Some? {
      CountAppend(s.log.lost, was.value, m);
    }
  }

  lemma TakePayloadConserves<T(!new)>(s: State<T>, m: T)
    requires Shape(s) && Enabled(s, TakePayload)
    ensures Shape(DoTakePayload(s)) && Holdings(DoTakePayload(s), m) == Holdings(s, m)
  {
    StepKeepsShape(s, TakePayload);
    var q, i := s.reader.q, s.reader.at.index;
    SlotUpdate(s.mem.payload, q, i, None, m);
    CountAppend(s.log.delivered, s.mem.payload[q][i], Some(m));
  }

  /** The two steps that move a message into or out of the gate. */
  lemma GateStepConserves<T(!new)>(s: State<T>, a: Action<T>, m: T)
    requires Shape(s) && Enabled(s, a) && (a.Offer? || a.Abandon?)
    ensures Shape(Apply(s, a))
    ensures Holdings(Apply(s, a), m) - multiset(Apply(s, a).log.offered)[m]
            == Holdings(s, m) - multiset(s.log.offered)[m]
  {
    StepKeepsShape(s, a);
    if a.Offer? {
      CountUpdate(s.hand, a.p, Some(a.m), Some(m));
      CountAppend(s.log.offered, a.m, m);
    } else {
      CountUpdate(s.hand, a.p, None, Some(m));
      CountAppend(s.log.dropped, s.hand[a.p].value, m);
    }
  }

  /** Every other step leaves all the places where a message can be untouched. */
  lemma OtherStepMovesNothing<T>(s: State<T>, a: Action<T>)
    requires Shape(s) && Enabled(s, a)
    requires !a.Offer? && !a.Abandon? && !a.StorePayload? && !a.TakePayload?
    ensures var t := Apply(s, a);
            && t.hand == s.hand && t.mem.payload == s.mem.payload
            && t.log.delivered == s.log.delivered && t.log.lost == s.log.lost
            && t.log.dropped == s.log.dropped && t.log.offered == s.log.offered
  {
  }

  lemma StepConserves<T(!new)>(s: State<T>, a: Action<T>)
    requires Shape(s) && Conserved(s) && Enabled(s, a)
    ensures Shape(Apply(s, a)) && Conserved(Apply(s, a))
  {
    StepKeepsShape(s, a);
    var t := Apply(s, a);
    forall m ensures Holdings(t, m) == multiset(t.log.offered)[m] {
      if a.Offer? || a.Abandon? {
        GateStepConserves(s, a, m);
      } else if a.StorePayload? {
        StorePayloadConserves(s, a.p, m);
      } else if a.TakePayload? {
        TakePayloadConserves(s, m);
      } else {
        OtherStepMovesNothing(s, a);
      }
    }
  }
}
