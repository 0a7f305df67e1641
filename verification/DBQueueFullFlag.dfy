/** What a raised full flag means, and a run in which it turns a message away from an empty buffer. */
module DBQueueFullFlag {
  import opened Options
  import opened DBQueueProtocol
  import opened DBQueueSafety
  import opened DBQueueOrder
  import opened DBQueueRuns

  /** Only the producer of the last slot raises the flag. */
  ghost predicate Marked<T>(s: State<T>) {
    forall p :: 0 <= p < |s.phase| && s.phase[p].MarkFull? ==> s.phase[p].slot + 1 == s.qlen
  }

  /** The producer buffer is used up, or the consumer's buffer was, or the flag is about to be cleared. */
  predicate FullMeans<T>(s: State<T>) {
    s.mem.full ==> s.qlen <= s.mem.word.ticket || s.reader.fullSlots == s.qlen || s.reader.at.ClearFull?
  }

  lemma StepKeepsMarked<T>(s: State<T>, a: Action<T>)
    requires Shape(s) && Marked(s) && Enabled(s, a)
    ensures Marked(Apply(s, a))
  {
  }

  lemma StepKeepsFullMeans<T>(s: State<T>, a: Action<T>)
    requires Shape(s) && Ordered(s) && Marked(s) && FullMeans(s) && Enabled(s, a) && a != GiveUp
    ensures FullMeans(Apply(s, a))
  {
    if a.StoreFullFlag? {
      assert ProducerOk(s, a.p);
    }
  }

  lemma {:induction false} RunKeepsFullMeans<T>(s: State<T>, acts: seq<Action<T>>, t: State<T>)
    requires Shape(s) && Ordered(s) && Marked(s) && FullMeans(s) && Reaches(s, acts, t) && GiveUp !in acts
    ensures FullMeans(t)
    decreases |acts|
  {
    if acts != [] {
      StepKeepsOrder(s, acts[0]);
      StepKeepsMarked(s, acts[0]);
      StepKeepsFullMeans(s, acts[0]);
      RunKeepsFullMeans(Apply(s, acts[0]), acts[1..], t);
    }
  }

  /** In every run without a give-up, whenever the flag is up. */
  lemma FullFlagMeans<T>(s: State<T>, acts: seq<Action<T>>, t: State<T>)
    requires Init(s) && Reaches(s, acts, t) && GiveUp !in acts && t.mem.full
    ensures t.qlen <= t.mem.word.ticket || t.reader.fullSlots == t.qlen || t.reader.at.ClearFull?
  {
    InitIsOrdered(s);
    RunKeepsFullMeans(s, acts, t);
  }

  // ---------------------------------------------------------------------------------------------
  // A late full flag
  // ---------------------------------------------------------------------------------------------

  /** A queue of one slot per buffer and two producers. */
  function Fresh<T>(): State<T> {
    State(1, Memory([[false], [false]], [[None], [None]], Word(0, 0), false), [Idle, Idle], [None, None],
          Reader(0, 1, 0, Resting), false, true, History([], [], [], [], []))
  }

  lemma FreshIsInit<T>()
    ensures Init(Fresh<T>()) && QuietRun(Fresh<T>(), [], Fresh<T>())
  {
    var one: seq<Option<T>> := [None];
    var two: seq<Option<T>> := [None, None];
    assert [false] == seq(1, _ => false) && one == seq(1, _ => None);
    assert two == seq(2, _ => None) && [Idle, Idle] == seq(2, _ => Idle);
  }

  /**
   The producer of the last slot raises the flag only after the swap: the next producer is refused
   although no ticket of its buffer has been taken.
   */
  lemma RefusedByEmptyBuffer<T>(m0: T, m1: T) returns (s: State<T>, acts: seq<Action<T>>, t: State<T>)
    ensures Init(s) && Reaches(s, acts, t) && GiveUp !in acts
    ensures t.mem.full && t.mem.word.ticket == 0 && t.reader.fullSlots == t.qlen
    ensures |t.phase| == |t.hand| == 2 && t.phase[1] == Refused && t.hand[1] == Some(m1)
  {
    s := Fresh();
    FreshIsInit<T>();
    acts, t := TakesTicket(s, [], s, 0, m0);
    assert t.phase[0] == MarkFull(0, 0) && t.mem.word == Word(0, 1);
    acts, t := SwapsEmptyBuffer(s, acts, t);
    acts, t := MarksFull(s, acts, t, 0);
    acts, t := Then(s, acts, t, Offer(1, m1));
    acts, t := Then(s, acts, t, LoadFullFlag(1));
  }
}
