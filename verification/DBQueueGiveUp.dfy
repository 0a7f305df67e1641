/**
 What the give-up step does: until the buffers are swapped again, everything `pop` returns comes out
 ahead of its turn, and a run from the initial state in which this happens.
 */
module DBQueueGiveUp {
  import opened Options
  import opened DBQueueProtocol
  import opened DBQueueSafety
  import opened DBQueueOrder
  import opened DBQueueRuns

  // ---------------------------------------------------------------------------------------------
  // Deliveries between a give-up and the next swap
  // ---------------------------------------------------------------------------------------------

  /** The message delivered as number `j` was accepted later than number `j`. */
  ghost predicate AheadOfTurn<T>(s: State<T>, j: nat)
    requires j < |s.log.delivered|
  {
    exists r :: j < r < |s.log.accepted| && s.log.delivered[j] == Some(s.log.accepted[r])
  }

  /** `x` is the message of slot `i` of the consumer buffer, whose slot 0 has place `base` in `accepted`. */
  ghost predicate IsMessage<T>(s: State<T>, base: int, i: nat, x: Option<T>) {
    0 <= base + i < |s.log.accepted| && x == Some(s.log.accepted[base + i])
  }

  /** An unread consumer slot, once published, holds the message of its ticket. */
  ghost predicate SlotAhead<T>(s: State<T>, base: int, i: nat)
    requires Shape(s) && i < s.qlen
  {
    var q := s.reader.q;
    Taken(s) <= i < s.reader.fullSlots && s.mem.valid[q][i] ==> IsMessage(s, base, i, s.mem.payload[q][i])
  }

  /** A producer that still works on such a slot has the right message. */
  ghost predicate ProducerAhead<T>(s: State<T>, base: int, p: nat)
    requires Shape(s) && p < |s.phase|
  {
    var ph := s.phase[p];
    InFlight(ph) && ph.q == s.reader.q && Taken(s) <= ph.slot < s.reader.fullSlots ==>
      IsMessage(s, base, ph.slot, if ph.SetValid? then s.mem.payload[ph.q][ph.slot] else s.hand[p])
  }

  /** The consumer has passed more slots than it delivered messages since number `from`. */
  ghost predicate Behind<T>(s: State<T>, base: int, from: nat)
    requires Shape(s)
  {
    && from <= |s.log.delivered| < base + Taken(s)
    && (forall j :: from <= j < |s.log.delivered| ==> AheadOfTurn(s, j))
    && (forall i :: 0 <= i < s.qlen ==> SlotAhead(s, base, i))
    && (forall p :: 0 <= p < |s.phase| ==> ProducerAhead(s, base, p))
    && (s.reader.at.Take? ==>
          var i := s.reader.at.index;
          s.reader.read == i + 1 && IsMessage(s, base, i, s.mem.payload[s.reader.q][i]))
  }

  lemma GiveUpPutsBehind<T>(s: State<T>)
    requires Shape(s) && Ordered(s) && Enabled(s, GiveUp)
    ensures Shape(DoGiveUp(s)) && Behind(DoGiveUp(s), Base(s), |s.log.delivered|)
  {
    var t := DoGiveUp(s);
    StepKeepsShape(s, GiveUp);
    forall i | 0 <= i < t.qlen ensures SlotAhead(t, Base(s), i) {
      assert SlotOk(s, s.reader.q, i);
    }
    forall p | 0 <= p < |t.phase| ensures ProducerAhead(t, Base(s), p) {
      assert ProducerOk(s, p);
    }
  }

  /** The delivered messages and the accepted ones only grow, and what was ahead of its turn stays so. */
  lemma StillAhead<T>(s: State<T>, t: State<T>, from: nat)
    requires t.log.delivered == s.log.delivered && s.log.accepted <= t.log.accepted
    requires forall j :: from <= j < |s.log.delivered| ==> AheadOfTurn(s, j)
    ensures forall j :: from <= j < |t.log.delivered| ==> AheadOfTurn(t, j)
  {
    forall j | from <= j < |t.log.delivered| ensures AheadOfTurn(t, j) {
      assert AheadOfTurn(s, j);
      var r :| j < r < |s.log.accepted| && s.log.delivered[j] == Some(s.log.accepted[r]);
      assert t.log.accepted[r] == s.log.accepted[r];
    }
  }

  /** Steps that change neither a payload nor a ticket. */
  lemma QuietStepKeepsBehind<T>(s: State<T>, a: Action<T>, base: int, from: nat)
    requires Shape(s) && Behind(s, base, from) && Enabled(s, a)
    requires !a.StorePayload? && !a.StoreValid? && !a.TakeTicket? && !a.TestValid? && !a.TakePayload? && !a.SwapWord?
    ensures Shape(Apply(s, a)) && Behind(Apply(s, a), base, from)
  {
    var t := Apply(s, a);
    StepKeepsShape(s, a);
    StillAhead(s, t, from);
    QuietStepFrame(s, a);
    forall i | 0 <= i < t.qlen ensures SlotAhead(t, base, i) {
      assert SlotAhead(s, base, i);
    }
    forall p | 0 <= p < |t.phase| ensures ProducerAhead(t, base, p) {
      QuietStepKeepsProducers(s, a, p);
      assert ProducerAhead(s, base, p);
    }
  }

  lemma QuietStepFrame<T>(s: State<T>, a: Action<T>)
    requires Shape(s) && Enabled(s, a)
    requires !a.StorePayload? && !a.StoreValid? && !a.TakeTicket? && !a.TestValid? && !a.TakePayload? && !a.SwapWord?
    ensures var t := Apply(s, a);
            && t.qlen == s.qlen && t.mem.payload == s.mem.payload && |t.phase| == |s.phase|
            && t.log.accepted == s.log.accepted && t.log.delivered == s.log.delivered
            && t.reader.q == s.reader.q && t.reader.fullSlots == s.reader.fullSlots && Taken(s) <= Taken(t)
            && (t.reader.at.Take? ==> t.reader == s.reader)
            && forall i :: 0 <= i < s.qlen && t.mem.valid[s.reader.q][i] ==> s.mem.valid[s.reader.q][i]
  {
  }

  lemma QuietStepKeepsProducers<T>(s: State<T>, a: Action<T>, p: nat)
    requires Shape(s) && Enabled(s, a) && p < |s.phase|
    requires !a.StorePayload? && !a.StoreValid? && !a.TakeTicket? && !a.TestValid? && !a.TakePayload? && !a.SwapWord?
    ensures var t := Apply(s, a);
            && |t.phase| == |s.phase| == |t.hand|
            && (InFlight(t.phase[p]) ==>
                 && InFlight(s.phase[p]) && t.phase[p].q == s.phase[p].q && t.phase[p].slot == s.phase[p].slot
                 && t.phase[p].SetValid? == s.phase[p].SetValid? && t.hand[p] == s.hand[p])
  {
  }

  /** Tickets go to the other buffer while no swap happens. */
  lemma TakeTicketKeepsBehind<T>(s: State<T>, p: nat, base: int, from: nat)
    requires Shape(s) && Behind(s, base, from) && Enabled(s, TakeTicket(p))
    ensures Shape(DoTakeTicket(s, p)) && Behind(DoTakeTicket(s, p), base, from)
  {
    var t := DoTakeTicket(s, p);
    StepKeepsShape(s, TakeTicket(p));
    StillAhead(s, t, from);
    forall i | 0 <= i < t.qlen ensures SlotAhead(t, base, i) {
      assert SlotAhead(s, base, i);
    }
    forall p' | 0 <= p' < |t.phase| ensures ProducerAhead(t, base, p') {
      assert ProducerAhead(s, base, p');
    }
  }

  lemma StorePayloadKeepsBehind<T>(s: State<T>, p: nat, base: int, from: nat)
    requires Shape(s) && Behind(s, base, from) && Enabled(s, StorePayload(p))
    ensures Shape(DoStorePayload(s, p)) && Behind(DoStorePayload(s, p), base, from)
  {
    var t := DoStorePayload(s, p);
    StepKeepsShape(s, StorePayload(p));
    StillAhead(s, t, from);
    assert ProducerAhead(s, base, p);
    forall i | 0 <= i < t.qlen ensures SlotAhead(t, base, i) {
      assert SlotAhead(s, base, i);
    }
    forall p' | 0 <= p' < |t.phase| ensures ProducerAhead(t, base, p') {
      assert ProducerAhead(s, base, p');
    }
  }

  lemma StoreValidKeepsBehind<T>(s: State<T>, p: nat, base: int, from: nat)
    requires Shape(s) && Behind(s, base, from) && Enabled(s, StoreValid(p))
    ensures Shape(DoStoreValid(s, p)) && Behind(DoStoreValid(s, p), base, from)
  {
    var t := DoStoreValid(s, p);
    StepKeepsShape(s, StoreValid(p));
    StillAhead(s, t, from);
    assert ProducerAhead(s, base, p);
    forall i | 0 <= i < t.qlen ensures SlotAhead(t, base, i) {
      assert SlotAhead(s, base, i);
    }
    forall p' | 0 <= p' < |t.phase| ensures ProducerAhead(t, base, p') {
      assert ProducerAhead(s, base, p');
    }
  }

  lemma TestValidKeepsBehind<T>(s: State<T>, base: int, from: nat)
    requires Shape(s) && Behind(s, base, from) && Enabled(s, TestValid)
    ensures Shape(DoTestValid(s)) && Behind(DoTestValid(s), base, from)
  {
    var t := DoTestValid(s);
    StepKeepsShape(s, TestValid);
    StillAhead(s, t, from);
    assert SlotAhead(s, base, s.reader.read);
    forall i | 0 <= i < t.qlen ensures SlotAhead(t, base, i) {
      assert SlotAhead(s, base, i);
    }
    forall p | 0 <= p < |t.phase| ensures ProducerAhead(t, base, p) {
      assert ProducerAhead(s, base, p);
    }
  }

  /** The slot read has a later place in `accepted` than its message gets among the delivered ones. */
  lemma TakePayloadDeliversAhead<T>(s: State<T>, base: int, from: nat)
    requires Shape(s) && Behind(s, base, from) && Enabled(s, TakePayload)
    ensures var t := DoTakePayload(s);
            forall j :: from <= j < |t.log.delivered| ==> AheadOfTurn(t, j)
  {
    var t, n, r := DoTakePayload(s), |s.log.delivered|, base + s.reader.at.index;
    forall j | from <= j < |t.log.delivered| ensures AheadOfTurn(t, j) {
      if j < n {
        assert AheadOfTurn(s, j);
      } else {
        assert n < r && t.log.delivered[n] == Some(t.log.accepted[r]);
      }
    }
  }

  lemma TakePayloadKeepsBehind<T>(s: State<T>, base: int, from: nat)
    requires Shape(s) && Behind(s, base, from) && Enabled(s, TakePayload)
    ensures Shape(DoTakePayload(s)) && Behind(DoTakePayload(s), base, from)
  {
    var t := DoTakePayload(s);
    StepKeepsShape(s, TakePayload);
    TakePayloadDeliversAhead(s, base, from);
    forall i | 0 <= i < t.qlen ensures SlotAhead(t, base, i) {
      assert SlotAhead(s, base, i);
    }
    forall p | 0 <= p < |t.phase| ensures ProducerAhead(t, base, p) {
      assert ProducerAhead(s, base, p);
    }
  }

  lemma StepKeepsBehind<T>(s: State<T>, a: Action<T>, base: int, from: nat)
    requires Shape(s) && Behind(s, base, from) && Enabled(s, a) && !a.SwapWord?
    ensures Shape(Apply(s, a)) && Behind(Apply(s, a), base, from)
  {
    match a
    case TakeTicket(p) => TakeTicketKeepsBehind(s, p, base, from);
    case StorePayload(p) => StorePayloadKeepsBehind(s, p, base, from);
    case StoreValid(p) => StoreValidKeepsBehind(s, p, base, from);
    case TestValid => TestValidKeepsBehind(s, base, from);
    case TakePayload => TakePayloadKeepsBehind(s, base, from);
    case _ => QuietStepKeepsBehind(s, a, base, from);
  }

  lemma {:induction false} RunKeepsBehind<T>(s: State<T>, acts: seq<Action<T>>, t: State<T>, base: int, from: nat)
    requires Shape(s) && Behind(s, base, from) && Reaches(s, acts, t) && SwapWord !in acts
    ensures Shape(t) && Behind(t, base, from)
    decreases |acts|
  {
    if acts != [] {
      StepKeepsBehind(s, acts[0], base, from);
      RunKeepsBehind(Apply(s, acts[0]), acts[1..], t, base, from);
    }
  }

  /**
   After a give-up, and whatever else happens, more give-ups included, every delivery before the next
   swap is ahead of its turn: number `j` to come out is not number `j` that went in, but a later one.
   */
  lemma AheadUntilSwap<T>(s: State<T>, acts: seq<Action<T>>, t: State<T>, j: nat)
    requires Shape(s) && Ordered(s) && Enabled(s, GiveUp)
    requires Reaches(DoGiveUp(s), acts, t) && SwapWord !in acts
    requires |s.log.delivered| <= j < |t.log.delivered|
    ensures exists r :: j < r < |t.log.accepted| && t.log.delivered[j] == Some(t.log.accepted[r])
  {
    GiveUpPutsBehind(s);
    RunKeepsBehind(DoGiveUp(s), acts, t, Base(s), |s.log.delivered|);
    assert AheadOfTurn(t, j);
  }

  // ---------------------------------------------------------------------------------------------
  // A run in which the consumer gives up
  // ---------------------------------------------------------------------------------------------

  const AT_REST: Reader := Reader(0, 1, 0, Resting)

  /** A queue of two slots per buffer and two producers; the second buffer is unused. */
  function Duo<T>(valid: seq<bool>, payload: seq<Option<T>>, word: Word, full: bool, phase: seq<Phase>,
                  hand: seq<Option<T>>, log: History<T>): State<T>
  {
    State(2, Memory([valid, [false, false]], [payload, [None, None]], word, full), phase, hand, AT_REST, false, true, log)
  }

  function Fresh<T>(): State<T> {
    Duo([false, false], [None, None], Word(0, 0), false, [Idle, Idle], [None, None], History([], [], [], [], []))
  }

  lemma FreshIsInit<T>()
    ensures Init(Fresh<T>()) && QuietRun(Fresh<T>(), [], Fresh<T>())
  {
    var none: seq<Option<T>> := [None, None];
    assert [false, false] == seq(2, _ => false) && none == seq(2, _ => None) && [Idle, Idle] == seq(2, _ => Idle);
  }

  /** The first producer takes slot 0 and stops there, the second one takes slot 1. */
  lemma TwoTickets<T>(m0: T, m1: T) returns (acts: seq<Action<T>>, t: State<T>)
    ensures QuietRun(Fresh(), acts, t)
    ensures t == Duo([false, false], [None, None], Word(0, 2), false, [WritePayload(0, 0), MarkFull(0, 1)],
                     [Some(m0), Some(m1)], History([m0, m1], [m0, m1], [], [], []))
  {
    FreshIsInit<T>();
    acts, t := TakesTicket(Fresh(), [], Fresh(), 0, m0);
    assert t == Duo([false, false], [None, None], Word(0, 1), false, [WritePayload(0, 0), Idle], [Some(m0), None],
                    History([m0], [m0], [], [], []));
    acts, t := TakesTicket(Fresh(), acts, t, 1, m1);
  }

  /** And the second one publishes its message. */
  lemma SecondPublishes<T>(acts: seq<Action<T>>, t: State<T>, m0: T, m1: T) returns (acts': seq<Action<T>>, t': State<T>)
    requires QuietRun(Fresh(), acts, t)
    requires t == Duo([false, false], [None, None], Word(0, 2), false, [WritePayload(0, 0), MarkFull(0, 1)],
                      [Some(m0), Some(m1)], History([m0, m1], [m0, m1], [], [], []))
    ensures QuietRun(Fresh(), acts', t')
    ensures t' == Duo([false, true], [None, Some(m1)], Word(0, 2), true, [WritePayload(0, 0), Idle], [Some(m0), None],
                      History([m0, m1], [m0, m1], [], [], []))
  {
    acts', t' := MarksFull(Fresh(), acts, t, 1);
    assert t' == Duo([false, false], [None, None], Word(0, 2), true, [WritePayload(0, 0), WritePayload(0, 1)],
                     [Some(m0), Some(m1)], History([m0, m1], [m0, m1], [], [], []));
    var none: seq<Option<T>> := [None, None];
    assert none[1 := Some(m1)] == [None, Some(m1)] && [false, false][1 := true] == [false, true];
    assert At([none, none], 0, 1, Some(m1)) == [[None, Some(m1)], none];
    assert At([[false, false], [false, false]], 0, 1, true) == [[false, true], [false, false]];
    acts', t' := Publishes(Fresh(), acts', t', 1);
  }

  /** `n` polls of an unpublished slot. */
  lemma {:induction false} Polls<T>(s: State<T>, acts: seq<Action<T>>, t: State<T>, n: nat)
    returns (acts': seq<Action<T>>, t': State<T>)
    requires QuietRun(s, acts, t)
    requires t.reader.at.Test? && t.reader.at.tries + n == MAX_TRIES && !t.mem.valid[t.reader.q][t.reader.read]
    ensures QuietRun(s, acts', t')
    ensures t' == t.(reader := t.reader.(at := Test(t.reader.at.swapped, MAX_TRIES)))
    decreases n
  {
    if n == 0 {
      acts', t' := acts, t;
    } else {
      acts', t' := Then(s, acts, t, TestValid);
      acts', t' := Polls(s, acts', t', n - 1);
    }
  }

  lemma {:induction false} PollsCount<T>(s: State<T>, acts: seq<Action<T>>, t: State<T>)
    requires Shape(s) && s.reader.at.Test? && !s.mem.valid[s.reader.q][s.reader.read]
    requires Reaches(s, acts, t) && forall i :: 0 <= i < |acts| ==> acts[i] == TestValid
    ensures Shape(t) && t.reader.at == Test(s.reader.at.swapped, s.reader.at.tries + |acts|)
    decreases |acts|
  {
    if acts != [] {
      StepKeepsShape(s, TestValid);
      PollsCount(DoTestValid(s), acts[1..], t);
    }
  }

  /** A slot that stays unpublished is polled 100 times, and then given up. */
  lemma GivesUpAfterHundredPolls<T>(s: State<T>, acts: seq<Action<T>>, t: State<T>)
    requires Shape(s) && s.reader.at.Test? && s.reader.at.tries == 0 && !s.mem.valid[s.reader.q][s.reader.read]
    requires Reaches(s, acts, t) && forall i :: 0 <= i < |acts| ==> acts[i] == TestValid
    ensures |acts| <= 100 && Shape(t)
    ensures Enabled(t, GiveUp) <==> |acts| == 100
    ensures Enabled(t, TestValid) <==> |acts| < 100
  {
    PollsCount(s, acts, t);
  }

  /** Any two messages can be reordered: the second one offered is delivered first. */
  lemma Reordered<T>(m0: T, m1: T) returns (s: State<T>, acts: seq<Action<T>>, t: State<T>)
    ensures Init(s) && Reaches(s, acts, t)
    ensures t.log.accepted == [m0, m1] && t.log.delivered == [Some(m1)]
  {
    s := Fresh();
    FreshIsInit<T>();
    acts, t := TwoTickets(m0, m1);
    acts, t := SecondPublishes(acts, t, m0, m1);
    acts, t := SwapsEmptyBuffer(s, acts, t);
    acts, t := Then(s, acts, t, ScanSlot);
    acts, t := Polls(s, acts, t, MAX_TRIES);
    InitIsOrdered(s);
    RunKeepsOrder(s, acts, t);
    var u := GiveUpSkipsAMessage(t);
    ReachesConcat(s, acts, t, [GiveUp, ScanSlot, TestValid, TakePayload], u);
    acts, t := acts + [GiveUp, ScanSlot, TestValid, TakePayload], u;
  }
}
