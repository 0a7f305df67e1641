/**
 The double-buffered multi-producer/single-consumer queue as a protocol of atomic steps.

 Any number of producers run `InGate::receive` (a push, retried while it is refused), one consumer
 runs `pop`. Every step below is one atomic access to shared memory; statements that only touch
 consumer-local variables are folded into the neighbouring step. The `log` of a state holds history
 variables: no step reads them.
 */
module DBQueueProtocol {
  import opened Options

  /** `1 << 30`: the two bits above the ticket number select the buffer that producers fill. */
  const SELECTOR_UNIT: nat := 0x4000_0000

  /** Number of polls of an unset valid flag before the consumer skips the slot. */
  const MAX_TRIES: nat := 100

  /** m_pointer, split into its two fields. `Pack` is the 32-bit word that the program keeps. */
  datatype Word = Word(selector: nat, ticket: nat)

  function Pack(w: Word): nat { w.selector * SELECTOR_UNIT + w.ticket }

  function Unpack(bits: nat): Word { Word(bits / SELECTOR_UNIT, bits % SELECTOR_UNIT) }

  /** `cur_pointer & MASK` and `cur_pointer & ~MASK` read back the two fields. */
  lemma UnpackPack(w: Word)
    requires w.ticket < SELECTOR_UNIT
    ensures Unpack(Pack(w)) == w
  {
  }

  /** The mask of the program cuts the word after 30 bits, which is a division by 2^30 with remainder. */
  lemma MaskCutsAtThirtyBits(bits: bv32)
    ensures (bits & ((1 << 31) | (1 << 30))) >> 30 == bits / 0x4000_0000
    ensures bits & !((1 << 31) | (1 << 30)) == bits % 0x4000_0000
    ensures SELECTOR_UNIT == 0x4000_0000
  {
  }

  /**
   `fetch_add(1)` on the packed word is an increment of the ticket field exactly when the ticket
   number does not fill its 30 bits; otherwise the addition carries into the selector.
   */
  lemma FetchAddOnPackedWord(w: Word)
    requires w.ticket < SELECTOR_UNIT
    ensures w.ticket + 1 < SELECTOR_UNIT <==> Unpack(Pack(w) + 1) == w.(ticket := w.ticket + 1)
    ensures w.ticket + 1 == SELECTOR_UNIT ==> Unpack(Pack(w) + 1) == Word(w.selector + 1, 0)
  {
    if w.ticket + 1 < SELECTOR_UNIT {
      UnpackPack(w.(ticket := w.ticket + 1));
    } else {
      UnpackPack(Word(w.selector + 1, 0));
    }
  }

  /** Where a producer is inside `receive`; the in-flight phases remember their buffer and slot. */
  datatype Phase =
    | Idle
    | LoadFull
    | FetchAdd
    | MarkFull(q: nat, slot: nat)
    | WritePayload(q: nat, slot: nat)
    | SetValid(q: nat, slot: nat)
    | Refused

  /** Where the consumer is inside `pop`; `swapped` tells the second `consume` from the first. */
  datatype Consumer =
    | Resting
    | Scan(swapped: bool)
    | Test(swapped: bool, tries: nat)
    | Take(index: nat)
    | Clear(next: nat)
    | Exchange
    | ClearFull

  /** The memory shared by all threads. */
  datatype Memory<T> = Memory(
    valid: seq<seq<bool>>,           // m_queues[q].vec[i].valid
    payload: seq<seq<Option<T>>>,    // m_queues[q].vec[i].payload, None once moved out
    word: Word,                      // m_pointer
    full: bool)                      // m_full

  /** The consumer's own variables. */
  datatype Reader = Reader(
    read: nat,                       // m_read
    q: nat,                          // m_consumer_q
    fullSlots: nat,                  // m_full_slots
    at: Consumer)

  /** History variables: no step reads them. */
  datatype History<T> = History(
    offered: seq<T>,                 // every message handed to receive
    accepted: seq<T>,                // messages that got a slot, in fetch_add order
    delivered: seq<Option<T>>,       // what pop returned, in order
    lost: seq<T>,                    // messages overwritten in a slot
    dropped: seq<T>)                 // messages given back by receive

  datatype State<T> = State(
    qlen: nat,                       // slots per buffer
    mem: Memory<T>,
    phase: seq<Phase>,               // one entry per producer thread
    hand: seq<Option<T>>,            // the message a producer still holds
    reader: Reader,
    dropping: bool,                  // QUEUETYPE_DROPPING
    running: bool,                   // PoolManager::isRunning
    log: History<T>)

  datatype Action<T> =
    | Offer(p: nat, m: T)
    | LoadFullFlag(p: nat)
    | TakeTicket(p: nat)
    | StoreFullFlag(p: nat)
    | StorePayload(p: nat)
    | StoreValid(p: nat)
    | Retry(p: nat)
    | Abandon(p: nat)
    | StopPool
    | BeginPop
    | ScanSlot
    | TestValid
    | GiveUp
    | TakePayload
    | ClearValid
    | SwapWord
    | ClearFullFlag

  predicate InFlight(ph: Phase) { ph.MarkFull? || ph.WritePayload? || ph.SetValid? }

  /** Index ranges and the local facts that hold whatever the schedule. */
  predicate Shape<T>(s: State<T>) {
    && 1 <= s.qlen
    && MemoryShape(s.mem, s.qlen)
    && |s.phase| == |s.hand|
    && (forall p :: 0 <= p < |s.phase| ==> ProducerShape(s.phase[p], s.hand[p], s.qlen))
    && ReaderShape(s.reader, s.qlen)
    && s.mem.word.selector == 1 - s.reader.q
  }

  predicate MemoryShape<T>(m: Memory<T>, qlen: nat) {
    && |m.valid| == 2 && |m.payload| == 2
    && |m.valid[0]| == |m.valid[1]| == |m.payload[0]| == |m.payload[1]| == qlen
    && m.word.ticket < SELECTOR_UNIT
  }

  predicate ProducerShape<T>(ph: Phase, hand: Option<T>, qlen: nat) {
    && (InFlight(ph) ==> ph.q < 2 && ph.slot < qlen)
    && (hand.Some? <==> !ph.Idle? && !ph.SetValid?)
  }

  predicate ReaderShape(r: Reader, qlen: nat) {
    && r.q < 2
    && r.fullSlots <= qlen
    && (r.at.Test? ==> r.read < r.fullSlots && r.at.tries <= MAX_TRIES)
    && (r.at.Take? ==> r.at.index < r.fullSlots)
    && (r.at.Clear? ==> r.at.next <= r.fullSlots)
  }

  /**
   Which actions the programs allow. A ticket may only be taken while the ticket number stays below
   its 30-bit field: with 2^30 tickets between two swaps the addition would carry into the selector.
   */
  predicate Enabled<T>(s: State<T>, a: Action<T>)
    requires Shape(s)
  {
    match a
    case Offer(p, _) => p < |s.phase| && s.phase[p].Idle?
    case LoadFullFlag(p) => p < |s.phase| && s.phase[p].LoadFull?
    case TakeTicket(p) => p < |s.phase| && s.phase[p].FetchAdd? && s.mem.word.ticket + 1 < SELECTOR_UNIT
    case StoreFullFlag(p) => p < |s.phase| && s.phase[p].MarkFull?
    case StorePayload(p) => p < |s.phase| && s.phase[p].WritePayload?
    case StoreValid(p) => p < |s.phase| && s.phase[p].SetValid?
    case Retry(p) => p < |s.phase| && s.phase[p].Refused? && !s.dropping && s.running
    case Abandon(p) => p < |s.phase| && s.phase[p].Refused? && (s.dropping || !s.running)
    case StopPool => true
    case BeginPop => s.reader.at.Resting?
    case ScanSlot => s.reader.at.Scan?
    case TestValid => s.reader.at.Test? && s.reader.at.tries < MAX_TRIES
    case GiveUp => s.reader.at.Test? && s.reader.at.tries == MAX_TRIES
    case TakePayload => s.reader.at.Take?
    case ClearValid => s.reader.at.Clear?
    case SwapWord => s.reader.at.Exchange?
    case ClearFullFlag => s.reader.at.ClearFull?
  }

  function At<A>(rows: seq<seq<A>>, q: nat, i: nat, x: A): seq<seq<A>>
    requires q < |rows| && i < |rows[q]|
  {
    rows[q := rows[q][i := x]]
  }

  /** `fetch_add` on m_pointer and the branch on the slot number it returned. */
  function DoTakeTicket<T>(s: State<T>, p: nat): State<T>
    requires Shape(s) && Enabled(s, TakeTicket(p))
  {
    var q, slot := s.mem.word.selector, s.mem.word.ticket;
    var next := if slot + 1 < s.qlen then WritePayload(q, slot)
                else if slot + 1 == s.qlen then MarkFull(q, slot)
                else Refused;
    s.(mem := s.mem.(word := Word(q, slot + 1)),
       phase := s.phase[p := next],
       log := s.log.(accepted := if next.Refused? then s.log.accepted else s.log.accepted + [s.hand[p].value]))
  }

  /** Writing the payload moves the message out of the producer and destroys what the slot held. */
  function DoStorePayload<T>(s: State<T>, p: nat): State<T>
    requires Shape(s) && Enabled(s, StorePayload(p))
  {
    var q, slot := s.phase[p].q, s.phase[p].slot;
    var was := s.mem.payload[q][slot];
    s.(mem := s.mem.(payload := At(s.mem.payload, q, slot, s.hand[p])),
       phase := s.phase[p := SetValid(q, slot)],
       hand := s.hand[p := None],
       log := s.log.(lost := if was.Some? then s.log.lost + [was.value] else s.log.lost))
  }

  function DoStoreValid<T>(s: State<T>, p: nat): State<T>
    requires Shape(s) && Enabled(s, StoreValid(p))
  {
    s.(mem := s.mem.(valid := At(s.mem.valid, s.phase[p].q, s.phase[p].slot, true)),
       phase := s.phase[p := Idle])
  }

  function DoScanSlot<T>(s: State<T>): State<T>
    requires Shape(s) && Enabled(s, ScanSlot)
  {
    var r := s.reader;
    s.(reader := r.(at := if r.read < r.fullSlots then Test(r.at.swapped, 0)
                          else if r.at.swapped then Resting
                          else Clear(0)))
  }

  function DoTestValid<T>(s: State<T>): State<T>
    requires Shape(s) && Enabled(s, TestValid)
  {
    var r := s.reader;
    s.(reader := if s.mem.valid[r.q][r.read] then r.(at := Take(r.read), read := r.read + 1)
                 else r.(at := Test(r.at.swapped, r.at.tries + 1)))
  }

  function DoGiveUp<T>(s: State<T>): State<T>
    requires Shape(s) && Enabled(s, GiveUp)
  {
    var r := s.reader;
    s.(reader := r.(read := r.read + 1, at := Scan(r.at.swapped)))
  }

  /** `in = std::move(payload)`: the slot keeps a null pointer. */
  function DoTakePayload<T>(s: State<T>): State<T>
    requires Shape(s) && Enabled(s, TakePayload)
  {
    var r := s.reader;
    s.(reader := r.(at := Resting),
       mem := s.mem.(payload := At(s.mem.payload, r.q, r.at.index, None)),
       log := s.log.(delivered := s.log.delivered + [s.mem.payload[r.q][r.at.index]]))
  }

  function DoClearValid<T>(s: State<T>): State<T>
    requires Shape(s) && Enabled(s, ClearValid)
  {
    var r := s.reader;
    if r.at.next < r.fullSlots then
      s.(mem := s.mem.(valid := At(s.mem.valid, r.q, r.at.next, false)),
         reader := r.(at := Clear(r.at.next + 1)))
    else
      s.(reader := r.(at := Exchange))
  }

  function DoSwapWord<T>(s: State<T>): State<T>
    requires Shape(s) && Enabled(s, SwapWord)
  {
    var r := s.reader;
    s.(mem := s.mem.(word := Word(r.q, 0)),
       reader := Reader(0, 1 - r.q, Min(s.mem.word.ticket, s.qlen), ClearFull))
  }

  function DoClearFullFlag<T>(s: State<T>): State<T>
    requires Shape(s) && Enabled(s, ClearFullFlag)
  {
    s.(mem := s.mem.(full := false), reader := s.reader.(at := Scan(true)))
  }

  function Apply<T>(s: State<T>, a: Action<T>): State<T>
    requires Shape(s) && Enabled(s, a)
  {
    match a
    case Offer(p, m) =>
      s.(phase := s.phase[p := LoadFull], hand := s.hand[p := Some(m)],
         log := s.log.(offered := s.log.offered + [m]))
    case LoadFullFlag(p) => s.(phase := s.phase[p := if s.mem.full then Refused else FetchAdd])
    case TakeTicket(p) => DoTakeTicket(s, p)
    case StoreFullFlag(p) =>
      s.(mem := s.mem.(full := true), phase := s.phase[p := WritePayload(s.phase[p].q, s.phase[p].slot)])
    case StorePayload(p) => DoStorePayload(s, p)
    case StoreValid(p) => DoStoreValid(s, p)
    case Retry(p) => s.(phase := s.phase[p := LoadFull])
    case Abandon(p) =>
      s.(phase := s.phase[p := Idle], hand := s.hand[p := None],
         log := s.log.(dropped := s.log.dropped + [s.hand[p].value]))
    case StopPool => s.(running := false)
    case BeginPop => s.(reader := s.reader.(at := Scan(false)))
    case ScanSlot => DoScanSlot(s)
    case TestValid => DoTestValid(s)
    case GiveUp => DoGiveUp(s)
    case TakePayload => DoTakePayload(s)
    case ClearValid => DoClearValid(s)
    case SwapWord => DoSwapWord(s)
    case ClearFullFlag => DoClearFullFlag(s)
  }

  /** The constructor's state, with any number of idle producer threads. */
  ghost predicate Init<T>(s: State<T>) {
    && 1 <= s.qlen
    && s.mem == Memory([seq(s.qlen, _ => false), seq(s.qlen, _ => false)],
                       [seq(s.qlen, _ => None), seq(s.qlen, _ => None)], Word(0, 0), false)
    && s.phase == seq(|s.phase|, _ => Idle) && s.hand == seq(|s.phase|, _ => None)
    && s.reader == Reader(0, 1, 0, Resting)
    && s.running
    && s.log == History([], [], [], [], [])
  }
}
