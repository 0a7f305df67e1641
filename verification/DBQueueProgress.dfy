/**
 What the threads can count on: no producer is ever stuck inside `receive`, a blocking call can always
 still succeed, a dropping one tries exactly once, and every `pop` comes to an end.
 */
module DBQueueProgress {
  import opened Options
  import opened DBQueueProtocol
  import opened DBQueueSafety
  import opened DBQueueRuns

  /** A step that producer `p` takes. */
  predicate StepOf<T>(a: Action<T>, p: nat) {
    match a
    case Offer(q, _) => q == p
    case LoadFullFlag(q) => q == p
    case TakeTicket(q) => q == p
    case StoreFullFlag(q) => q == p
    case StorePayload(q) => q == p
    case StoreValid(q) => q == p
    case Retry(q) => q == p
    case Abandon(q) => q == p
    case _ => false
  }

  /**
   In every reachable state, give-ups or not, a producer inside `receive` can take its next step, up to
   the point where the ticket field is exhausted.
   */
  lemma NeverStuck<T(!new)>(s: State<T>, acts: seq<Action<T>>, t: State<T>, p: nat)
    requires Init(s) && Reaches(s, acts, t) && p < |t.phase| && !t.phase[p].Idle?
    ensures Shape(t)
    ensures (exists a :: StepOf(a, p) && Enabled(t, a)) || (t.phase[p].FetchAdd? && t.mem.word.ticket + 1 == SELECTOR_UNIT)
  {
    InitConserves(s);
    RunConserves(s, acts, t);
    var a := NextStep<T>(t, p);
    assert StepOf(a, p);
  }

  function NextStep<T>(t: State<T>, p: nat): Action<T>
    requires p < |t.phase| && !t.phase[p].Idle?
  {
    match t.phase[p]
    case LoadFull => LoadFullFlag(p)
    case FetchAdd => TakeTicket(p)
    case MarkFull(_, _) => StoreFullFlag(p)
    case WritePayload(_, _) => StorePayload(p)
    case SetValid(_, _) => StoreValid(p)
    case Refused => if t.dropping || !t.running then Abandon(p) else Retry(p)
  }

  // ---------------------------------------------------------------------------------------------
  // A blocking call can succeed
  // ---------------------------------------------------------------------------------------------

  /** What the steps of the consumer leave to the producers. */
  ghost predicate SameProducers<T>(s: State<T>, t: State<T>) {
    && t.phase == s.phase && t.hand == s.hand && t.qlen == s.qlen && t.log.accepted == s.log.accepted
    && t.dropping == s.dropping && t.running == s.running
  }

  /** How far the consumer is from the exchange of the buffers: slots, then parts of `pop`, then repetitions. */
  function SlotsLeft(r: Reader): nat { if r.read < r.fullSlots then r.fullSlots - r.read else 0 }

  function PartsLeft(r: Reader): nat {
    match r.at
    case ClearFull => 6
    case Scan(swapped) => if swapped then 5 else 2
    case Take(_) => 4
    case Resting => 3
    case Exchange => 0
    case _ => 1
  }

  function TurnsLeft(r: Reader): nat {
    match r.at
    case Test(_, tries) => if tries < MAX_TRIES then MAX_TRIES - tries else 0
    case Clear(next) => if next < r.fullSlots then r.fullSlots - next else 0
    case _ => 0
  }

  /** The consumer's next step. */
  function ConsumerStep<T>(s: State<T>): Action<T> {
    match s.reader.at
    case Resting => BeginPop
    case Scan(_) => ScanSlot
    case Test(_, tries) => if tries < MAX_TRIES then TestValid else GiveUp
    case Take(_) => TakePayload
    case Clear(_) => ClearValid
    case Exchange => SwapWord
    case ClearFull => ClearFullFlag
  }

  lemma ConsumerAdvances<T>(s: State<T>)
    requires Shape(s) && !s.reader.at.Exchange?
    ensures Enabled(s, ConsumerStep(s))
    ensures var t := Apply(s, ConsumerStep(s));
            && SameProducers(s, t)
            && (|| SlotsLeft(t.reader) < SlotsLeft(s.reader)
                || (SlotsLeft(t.reader) == SlotsLeft(s.reader) && PartsLeft(t.reader) < PartsLeft(s.reader))
                || (SlotsLeft(t.reader) == SlotsLeft(s.reader) && PartsLeft(t.reader) == PartsLeft(s.reader)
                    && TurnsLeft(t.reader) < TurnsLeft(s.reader)))
  {
  }

  /** From any state the consumer, left alone, comes to exchange the buffers. */
  lemma {:induction false} ConsumerSwaps<T>(s: State<T>) returns (acts: seq<Action<T>>, t: State<T>)
    requires Shape(s)
    ensures Reaches(s, acts, t) && Shape(t) && SameProducers(s, t) && t.reader.at == Exchange
    decreases SlotsLeft(s.reader), PartsLeft(s.reader), TurnsLeft(s.reader)
  {
    if s.reader.at.Exchange? {
      acts, t := [], s;
    } else {
      var a := ConsumerStep(s);
      ConsumerAdvances(s);
      StepKeepsShape(s, a);
      var rest;
      rest, t := ConsumerSwaps(Apply(s, a));
      StepReaches(s, a, rest, t);
      acts := [a] + rest;
    }
  }

  /** The exchange empties the producer buffer and clears the flag. */
  lemma Exchanges<T>(s: State<T>, acts: seq<Action<T>>, t: State<T>) returns (acts': seq<Action<T>>, t': State<T>)
    requires Reaches(s, acts, t) && Shape(t) && t.reader.at == Exchange
    ensures Reaches(s, acts', t') && Shape(t') && SameProducers(t, t') && SwapWord in acts'
    ensures t'.mem.word.ticket == 0 && !t'.mem.full
  {
    ReachesThen(s, acts, t, SwapWord);
    var u := DoSwapWord(t);
    ReachesThen(s, acts + [SwapWord], u, ClearFullFlag);
    acts', t' := acts + [SwapWord] + [ClearFullFlag], DoClearFullFlag(u);
  }

  lemma RetrySucceeds<T>(s: State<T>, acts: seq<Action<T>>, t: State<T>, p: nat)
    returns (acts': seq<Action<T>>, t': State<T>)
    requires Reaches(s, acts, t) && Shape(t) && p < |t.phase| && t.phase[p] == Refused && !t.dropping && t.running
    requires t.mem.word.ticket == 0 && !t.mem.full
    ensures Reaches(s, acts', t') && acts <= acts'
    ensures t'.log.accepted == t.log.accepted + [t.hand[p].value]
  {
    ReachesThen(s, acts, t, Retry(p));
    var t1, a1 := Apply(t, Retry(p)), acts + [Retry(p)];
    ReachesThen(s, a1, t1, LoadFullFlag(p));
    var t2, a2 := Apply(t1, LoadFullFlag(p)), a1 + [LoadFullFlag(p)];
    ReachesThen(s, a2, t2, TakeTicket(p));
    acts', t' := a2 + [TakeTicket(p)], Apply(t2, TakeTicket(p));
  }

  /**
   From every reachable state in which a blocking call has been refused, a continuation with a swap ends
   with its message accepted, as the next one of all.
   */
  lemma RefusedCanSucceed<T(!new)>(s: State<T>, acts: seq<Action<T>>, t: State<T>, p: nat)
    returns (more: seq<Action<T>>, u: State<T>)
    requires Init(s) && Reaches(s, acts, t) && p < |t.phase| && t.phase[p] == Refused && !t.dropping && t.running
    ensures Shape(t) && Reaches(t, more, u) && SwapWord in more
    ensures u.log.accepted == t.log.accepted + [t.hand[p].value]
  {
    InitConserves(s);
    RunConserves(s, acts, t);
    more, u := ConsumerSwaps(t);
    more, u := Exchanges(t, more, u);
    more, u := RetrySucceeds(t, more, u, p);
  }

  // ---------------------------------------------------------------------------------------------
  // A dropping call tries once
  // ---------------------------------------------------------------------------------------------

  function Offers<T>(acts: seq<Action<T>>, p: nat): nat {
    if acts == [] then 0 else (if acts[0].Offer? && acts[0].p == p then 1 else 0) + Offers(acts[1..], p)
  }

  function Attempts<T(==)>(acts: seq<Action<T>>, p: nat): nat {
    if acts == [] then 0 else (if acts[0] == LoadFullFlag(p) then 1 else 0) + Attempts(acts[1..], p)
  }

  function AboutToTry<T>(s: State<T>, p: nat): nat
    requires p < |s.phase|
  {
    if s.phase[p].LoadFull? then 1 else 0
  }

  lemma {:induction false} AttemptsAreOffers<T>(s: State<T>, acts: seq<Action<T>>, t: State<T>, p: nat)
    requires Shape(s) && s.dropping && p < |s.phase| && Reaches(s, acts, t)
    ensures t.dropping && |t.phase| == |s.phase|
    ensures Offers(acts, p) + AboutToTry(s, p) == Attempts(acts, p) + AboutToTry(t, p)
    decreases |acts|
  {
    if acts != [] {
      StepKeepsShape(s, acts[0]);
      AttemptsAreOffers(Apply(s, acts[0]), acts[1..], t, p);
    }
  }

  /** In dropping mode every message offered is tried once, except for one that is just about to be. */
  lemma DroppingTriesOnce<T>(s: State<T>, acts: seq<Action<T>>, t: State<T>, p: nat)
    requires Init(s) && s.dropping && p < |s.phase| && Reaches(s, acts, t)
    ensures |t.phase| == |s.phase|
    ensures Attempts(acts, p) == Offers(acts, p) - if t.phase[p] == LoadFull then 1 else 0
  {
    AttemptsAreOffers(s, acts, t, p);
  }

  // ---------------------------------------------------------------------------------------------
  // Every pop ends
  // ---------------------------------------------------------------------------------------------

  /** A step of the consumer inside `pop`. */
  predicate PopStep<T>(a: Action<T>) {
    || a.ScanSlot? || a.TestValid? || a.GiveUp? || a.TakePayload? || a.ClearValid? || a.SwapWord? || a.ClearFullFlag?
  }

  function PopSteps<T>(acts: seq<Action<T>>): nat {
    if acts == [] then 0 else (if PopStep(acts[0]) then 1 else 0) + PopSteps(acts[1..])
  }

  function Swaps<T>(acts: seq<Action<T>>): nat {
    if acts == [] then 0 else (if acts[0].SwapWord? then 1 else 0) + Swaps(acts[1..])
  }

  /** An upper bound on the steps until the pop returns. */
  function PopWork(r: Reader, qlen: nat): int {
    var slots := 103 * SlotsLeft(r);
    match r.at
    case Resting => 0
    case Take(_) => 1
    case Scan(swapped) => slots + 1 + if swapped then 0 else 104 * qlen + 4
    case Test(swapped, tries) => slots - tries + if swapped then 0 else 104 * qlen + 4
    case ClearFull => 103 * qlen + 2
    case Exchange => 103 * qlen + 3
    case Clear(next) => 103 * qlen + 4 + r.fullSlots - next
  }

  /** Whether the pop may still swap. */
  function SwapsLeft(r: Reader): nat {
    match r.at
    case Scan(swapped) => if swapped then 0 else 1
    case Test(swapped, _) => if swapped then 0 else 1
    case Clear(_) => 1
    case Exchange => 1
    case _ => 0
  }

  lemma ScanStepWorks<T>(s: State<T>, a: Action<T>)
    requires Shape(s) && Enabled(s, a) && (a.ScanSlot? || a.TestValid? || a.GiveUp?)
    ensures 0 <= PopWork(Apply(s, a).reader, s.qlen) < PopWork(s.reader, s.qlen)
  {
  }

  lemma SwapStepWorks<T>(s: State<T>, a: Action<T>)
    requires Shape(s) && Enabled(s, a) && (a.TakePayload? || a.ClearValid? || a.SwapWord? || a.ClearFullFlag?)
    ensures 0 <= PopWork(Apply(s, a).reader, s.qlen) < PopWork(s.reader, s.qlen)
  {
  }

  lemma PopStepWorks<T>(s: State<T>, a: Action<T>)
    requires Shape(s) && Enabled(s, a) && !a.BeginPop?
    ensures var t := Apply(s, a);
            && t.qlen == s.qlen
            && if PopStep(a) then 0 <= PopWork(t.reader, s.qlen) < PopWork(s.reader, s.qlen) else t.reader == s.reader
  {
    if a.ScanSlot? || a.TestValid? || a.GiveUp? {
      ScanStepWorks(s, a);
    } else if PopStep(a) {
      SwapStepWorks(s, a);
    }
  }

  lemma PopStepSwaps<T>(s: State<T>, a: Action<T>)
    requires Shape(s) && Enabled(s, a) && !a.BeginPop?
    ensures SwapsLeft(Apply(s, a).reader) + (if a.SwapWord? then 1 else 0) <= SwapsLeft(s.reader)
  {
  }

  lemma {:induction false} PopWorksOff<T>(s: State<T>, acts: seq<Action<T>>, t: State<T>)
    requires Shape(s) && Reaches(s, acts, t) && BeginPop !in acts && 0 <= PopWork(s.reader, s.qlen)
    ensures PopSteps(acts) <= PopWork(s.reader, s.qlen) && Swaps(acts) <= SwapsLeft(s.reader)
    decreases |acts|
  {
    if acts != [] {
      PopStepWorks(s, acts[0]);
      PopStepSwaps(s, acts[0]);
      StepKeepsShape(s, acts[0]);
      PopWorksOff(Apply(s, acts[0]), acts[1..], t);
    }
  }

  /**
   However the producers interleave, a pop that starts in a reachable state swaps at most once and takes
   at most `207 * qlen + 5` steps; and until it has returned, the consumer has a next step.
   */
  lemma PopEnds<T(!new)>(s: State<T>, acts: seq<Action<T>>, t: State<T>, more: seq<Action<T>>, u: State<T>)
    requires Init(s) && Reaches(s, acts, t) && t.reader.at == Scan(false)
    requires Reaches(t, more, u) && BeginPop !in more
    ensures PopSteps(more) <= 207 * s.qlen + 5 && Swaps(more) <= 1
    ensures Shape(u) && (u.reader.at != Resting ==> exists a :: PopStep(a) && Enabled(u, a))
  {
    InitConserves(s);
    RunConserves(s, acts, t);
    RunConserves(t, more, u);
    SameLength(s, acts, t);
    PopWorksOff(t, more, u);
    if u.reader.at != Resting {
      assert PopStep(ConsumerStep(u)) && Enabled(u, ConsumerStep(u));
    }
  }

  lemma {:induction false} SameLength<T>(s: State<T>, acts: seq<Action<T>>, t: State<T>)
    requires Shape(s) && Reaches(s, acts, t)
    ensures t.qlen == s.qlen
    decreases |acts|
  {
    if acts != [] {
      StepKeepsShape(s, acts[0]);
      SameLength(Apply(s, acts[0]), acts[1..], t);
    }
  }
}
