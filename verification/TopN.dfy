/** Streaming selection of the N flows with the most packets. */
module TopN {
  import opened Options
  import opened FlowRecords

  /** How many of the flows have more than `t` packets. */
  function Heavier(s: seq<Record>, t: int): (n: nat)
    ensures n <= |s|
  {
    if s == [] then 0 else (if s[0].packets > t then 1 else 0) + Heavier(s[1..], t)
  }

  lemma {:induction false} HeavierConcat(a: seq<Record>, b: seq<Record>, t: int)
    ensures Heavier(a + b, t) == Heavier(a, t) + Heavier(b, t)
    decreases |a|
  {
    if a == [] {
      assert a + b == b;
    } else {
      assert (a + b)[1..] == a[1..] + b;
      HeavierConcat(a[1..], b, t);
    }
  }

  lemma {:induction false} AllHeavier(s: seq<Record>, t: int)
    requires forall i :: 0 <= i < |s| ==> s[i].packets > t
    ensures Heavier(s, t) == |s|
    decreases |s|
  {
    if s != [] {
      AllHeavier(s[1..], t);
    }
  }

  lemma {:induction false} NoneHeavier(s: seq<Record>, t: int)
    requires forall i :: 0 <= i < |s| ==> s[i].packets <= t
    ensures Heavier(s, t) == 0
    decreases |s|
  {
    if s != [] {
      NoneHeavier(s[1..], t);
    }
  }

  predicate Least(s: seq<Record>, k: nat) {
    k < |s| && forall i :: 0 <= i < |s| ==> s[k].packets <= s[i].packets
  }

  function Without(s: seq<Record>, k: nat): (r: seq<Record>)
    requires k < |s|
    ensures |r| == |s| - 1 && multiset(r) + multiset{s[k]} == multiset(s)
    ensures forall i :: 0 <= i < |r| ==> r[i] in s
  {
    assert s == s[..k] + [s[k]] + s[k + 1..];
    s[..k] + s[k + 1..]
  }

  lemma HeavierWithout(s: seq<Record>, k: nat, t: int)
    requires k < |s|
    ensures Heavier(s, t) == Heavier(Without(s, k), t) + Heavier([s[k]], t)
  {
    assert s == s[..k] + ([s[k]] + s[k + 1..]);
    HeavierConcat(s[..k], [s[k]] + s[k + 1..], t);
    HeavierConcat([s[k]], s[k + 1..], t);
    HeavierConcat(s[..k], s[k + 1..], t);
  }

  // ---------------------------------------------------------------------------------------------
  // The selector
  // ---------------------------------------------------------------------------------------------

  /** Since the last flush: everything received was kept or discarded, and only for something as heavy. */
  ghost predicate Selected(n: nat, heap: seq<Record>, discarded: seq<Record>, received: seq<Record>) {
    && multiset(heap) + multiset(discarded) == multiset(received)
    && (forall t: int :: Heavier(heap, t) + Heavier(discarded, t) == Heavier(received, t))
    && |heap| == Min(n, |received|) && |heap| + |discarded| == |received|
    && forall i, j :: 0 <= i < |heap| && 0 <= j < |discarded| ==> discarded[j].packets <= heap[i].packets
  }

  /**
   An independent description of the choice: above every threshold the selection holds as many flows
   as were received, or all its N.
   */
  lemma SelectionIsTopN(n: nat, heap: seq<Record>, discarded: seq<Record>, received: seq<Record>, t: int)
    requires Selected(n, heap, discarded, received)
    ensures Heavier(heap, t) == Min(n, Heavier(received, t))
  {
    if j :| 0 <= j < |discarded| && discarded[j].packets > t {
      forall i | 0 <= i < |heap| ensures heap[i].packets > t {
        assert discarded[j].packets <= heap[i].packets;
      }
      AllHeavier(heap, t);
    } else {
      NoneHeavier(discarded, t);
    }
  }

  lemma KeepNew(n: nat, heap: seq<Record>, discarded: seq<Record>, received: seq<Record>, m: Record)
    requires Selected(n, heap, discarded, received) && |heap| < n
    ensures Selected(n, heap + [m], discarded, received + [m])
  {
    forall t: int ensures Heavier(heap + [m], t) + Heavier(discarded, t) == Heavier(received + [m], t) {
      HeavierConcat(heap, [m], t);
      HeavierConcat(received, [m], t);
    }
    assert discarded == [];
  }

  lemma DropNew(n: nat, heap: seq<Record>, discarded: seq<Record>, received: seq<Record>, m: Record, k: nat)
    requires Selected(n, heap, discarded, received) && |heap| == n && Least(heap, k) && m.packets <= heap[k].packets
    ensures Selected(n, heap, discarded + [m], received + [m])
  {
    forall t: int ensures Heavier(heap, t) + Heavier(discarded + [m], t) == Heavier(received + [m], t) {
      HeavierConcat(discarded, [m], t);
      HeavierConcat(received, [m], t);
    }
  }

  lemma Replace(n: nat, heap: seq<Record>, discarded: seq<Record>, received: seq<Record>, m: Record, k: nat)
    requires Selected(n, heap, discarded, received) && |heap| == n && Least(heap, k) && m.packets > heap[k].packets
    ensures Selected(n, Without(heap, k) + [m], discarded + [heap[k]], received + [m])
  {
    var heap' := Without(heap, k);
    forall t: int
      ensures Heavier(heap' + [m], t) + Heavier(discarded + [heap[k]], t) == Heavier(received + [m], t)
    {
      HeavierConcat(heap', [m], t);
      HeavierConcat(discarded, [heap[k]], t);
      HeavierConcat(received, [m], t);
      HeavierWithout(heap, k, t);
    }
    forall i, j | 0 <= i < |heap' + [m]| && 0 <= j < |discarded + [heap[k]]|
      ensures (discarded + [heap[k]])[j].packets <= (heap' + [m])[i].packets
    {
      if j < |discarded| {
        assert discarded[j].packets <= heap[k].packets;
      }
    }
  }

  predicate HasLighter(heap: seq<Record>, m: Record) {
    exists i :: 0 <= i < |heap| && heap[i].packets < m.packets
  }

  /** A new flow enters while there is room, and afterwards exactly when some kept flow is lighter, for a least one. */
  ghost predicate Admits(n: nat, heap: seq<Record>, m: Record, heap': seq<Record>) {
    if |heap| < n then heap' == heap + [m]
    else if HasLighter(heap, m) then exists k :: Least(heap, k) && heap' == Without(heap, k) + [m]
    else heap' == heap
  }

  function Kept(heap: seq<Record>, m: Record, top: nat): seq<Record>
    requires top < |heap|
  {
    if m.packets > heap[top].packets then Without(heap, top) + [m] else heap
  }

  function Dropped(heap: seq<Record>, m: Record, top: nat): Record
    requires top < |heap|
  {
    if m.packets > heap[top].packets then heap[top] else m
  }

  lemma AdmitsTop(n: nat, heap: seq<Record>, m: Record, top: nat)
    requires n <= |heap| && Least(heap, top)
    ensures Admits(n, heap, m, Kept(heap, m, top))
  {
  }

  lemma KeptIsSelected(n: nat, heap: seq<Record>, discarded: seq<Record>, received: seq<Record>, m: Record, top: nat)
    requires Selected(n, heap, discarded, received) && |heap| == n && Least(heap, top)
    ensures Selected(n, Kept(heap, m, top), discarded + [Dropped(heap, m, top)], received + [m])
  {
    if m.packets > heap[top].packets {
      Replace(n, heap, discarded, received, m, top);
    } else {
      DropNew(n, heap, discarded, received, m, top);
    }
  }

  lemma {:induction false} LeastExists(s: seq<Record>) returns (k: nat)
    requires s != []
    ensures Least(s, k)
    decreases |s|
  {
    if |s| == 1 {
      k := 0;
    } else {
      var j := LeastExists(s[1..]);
      k := if s[0].packets <= s[j + 1].packets then 0 else j + 1;
      assert s[j + 1] == s[1..][j] && forall i :: 1 <= i < |s| ==> s[i] in s[1..];
    }
  }

  ghost predicate Ascending(s: seq<Record>) {
    forall i, j :: 0 <= i < j < |s| ==> s[i].packets <= s[j].packets
  }

  /** Some of `all` have been sent, in ascending order, and what is left is at least as heavy. */
  ghost predicate Draining(all: seq<Record>, sent: seq<Record>, left: seq<Record>) {
    && multiset(sent) + multiset(left) == multiset(all)
    && (forall t: int :: Heavier(sent, t) + Heavier(left, t) == Heavier(all, t))
    && Ascending(sent)
    && forall i, j :: 0 <= i < |sent| && 0 <= j < |left| ==> sent[i].packets <= left[j].packets
  }

  lemma DrainStep(all: seq<Record>, sent: seq<Record>, left: seq<Record>, k: nat)
    requires Draining(all, sent, left) && Least(left, k)
    ensures Draining(all, sent + [left[k]], Without(left, k))
  {
    var sent', left' := sent + [left[k]], Without(left, k);
    forall t: int ensures Heavier(sent', t) + Heavier(left', t) == Heavier(all, t) {
      HeavierConcat(sent, [left[k]], t);
      HeavierWithout(left, k, t);
    }
    forall i, j | 0 <= i < |sent'| && 0 <= j < |left'| ensures sent'[i].packets <= left'[j].packets {
      assert left'[j] in left;
    }
  }

  class TopNFlowSelector {
    const n: nat
    var heap: seq<Record>             // in no particular order; the top is any least element
    ghost var discarded: seq<Record>  // since the last flush
    ghost var received: seq<Record>

    ghost predicate Valid()
      reads this
    {
      1 <= n && Selected(n, heap, discarded, received)
    }

    constructor (n: nat)
      requires 1 <= n
      ensures Valid() && this.n == n && received == []
    {
      this.n := n;
      heap, discarded, received := [], [], [];
    }

    method Receive(m: Record)
      requires Valid()
      modifies this
      ensures Valid() && received == old(received) + [m]
      ensures Admits(n, old(heap), m, heap)
    {
      if |heap| < n {
        KeepNew(n, heap, discarded, received, m);
        heap := heap + [m];
      } else {
        Challenge(m);
      }
      received := received + [m];
    }

    /** A new flow against the top of a full heap. */
    method Challenge(m: Record)
      requires Valid() && |heap| == n
      modifies this`heap, this`discarded
      ensures Selected(n, heap, discarded, received + [m])
      ensures Admits(n, old(heap), m, heap)
    {
      var top := Top();
      AdmitsTop(n, heap, m, top);
      KeptIsSelected(n, heap, discarded, received, m, top);
      discarded := discarded + [Dropped(heap, m, top)];
      if m.packets > heap[top].packets {
        heap := Without(heap, top) + [m];
      }
    }

    /** The priority queue may take any least element. */
    method Top() returns (k: nat)
      requires heap != []
      ensures Least(heap, k)
    {
      ghost var w := LeastExists(heap);
      k :| 0 <= k < |heap| && Least(heap, k);
    }

    /** The flush: the selection leaves in ascending order and nothing stays behind. */
    method HandleTimer() returns (sent: seq<Record>)
      requires Valid()
      modifies this
      ensures Valid() && heap == [] && received == []
      ensures multiset(sent) == multiset(old(heap)) && Ascending(sent)
      ensures forall t: int :: Heavier(sent, t) == Min(n, Heavier(old(received), t))
    {
      forall t: int ensures Heavier(heap, t) == Min(n, Heavier(received, t)) {
        SelectionIsTopN(n, heap, discarded, received, t);
      }
      ghost var all := heap;
      sent := [];
      while heap != []
        modifies this`heap
        invariant Draining(all, sent, heap)
        decreases |heap|
      {
        var top := Top();
        DrainStep(all, sent, heap, top);
        sent := sent + [heap[top]];
        heap := Without(heap, top);
      }
      discarded, received := [], [];
    }
  }
}
