/**
 The queue object itself, with its arrays updated in place, for the case where calls do not overlap.
 It then is a FIFO: the unread consumer slots followed by the slots of the producer buffer.
 */
module DBQueueClass {
  import opened Options
  import opened DBQueueProtocol

  class DBQueue<T> {
    const qlen: nat                    // the template argument Qlen
    var valid: array2<bool>            // m_queues[q].vec[i].valid
    var payload: array2<Option<T>>     // m_queues[q].vec[i].payload
    var pointer: Word                  // m_pointer
    var read: nat
    var consumerQ: nat
    var fullSlots: nat
    var full: bool
    ghost var unread: seq<T>           // messages in the consumer buffer that were not read yet
    ghost var waiting: seq<T>          // messages in the producer buffer

    /** Index ranges only; holds even while slots are being cleared. */
    ghost predicate Shaped()
      reads this
    {
      && 1 <= qlen
      && valid.Length0 == payload.Length0 == 2
      && valid.Length1 == payload.Length1 == qlen
      && consumerQ < 2 && pointer.selector == 1 - consumerQ && pointer.ticket < SELECTOR_UNIT
      && read <= fullSlots <= qlen
    }

    ghost predicate Valid()
      reads this, valid, payload
    {
      && Shaped()
      && (full ==> qlen <= pointer.ticket)
      && RowHolds(consumerQ, read, fullSlots, unread)
      && RowHolds(1 - consumerQ, 0, Accepted(), waiting)
    }

    /** Row `q` is published below `hi`, and its slots from `lo` to `hi` hold `s`. */
    ghost predicate RowHolds(q: nat, lo: nat, hi: nat, s: seq<T>)
      requires Shaped() && q < 2
      reads this, valid, payload
    {
      && lo <= hi && |s| == hi - lo
      && forall i :: 0 <= i < qlen ==> (valid[q, i] <==> i < hi) && (lo <= i < hi ==> payload[q, i] == Some(s[i - lo]))
    }

    /** Pushes accepted since the buffers were last swapped. */
    ghost function Accepted(): nat
      reads this
    {
      Min(pointer.ticket, qlen)
    }

    ghost function Contents(): seq<T>
      reads this
    {
      unread + waiting
    }

    constructor (qlen: nat)
      requires 1 <= qlen
      ensures Valid() && fresh(valid) && fresh(payload) && this.qlen == qlen
      ensures Contents() == [] && Accepted() == 0
    {
      this.qlen := qlen;
      valid := new bool[2, qlen]((_, _) => false);
      payload := new Option<T>[2, qlen]((_, _) => None);
      pointer := Word(0, 0);
      read, consumerQ, fullSlots, full := 0, 1, 0, false;
      unread, waiting := [], [];
    }

    method Push(m: T) returns (ok: bool)
      requires Valid() && pointer.ticket + 1 < SELECTOR_UNIT
      modifies this`pointer, this`full, this`waiting, valid, payload
      ensures Valid() && pointer.ticket <= old(pointer.ticket) + 1
      ensures ok <==> old(Accepted()) < qlen
      ensures Contents() == if ok then old(Contents()) + [m] else old(Contents())
      ensures Accepted() == if ok then old(Accepted()) + 1 else qlen
    {
      if full {
        return false;
      }
      var q, slot := pointer.selector, pointer.ticket;
      pointer := pointer.(ticket := slot + 1);
      if qlen - 1 <= slot {
        if slot == qlen - 1 {
          full := true;
        } else {
          return false;
        }
      }
      payload[q, slot] := Some(m);
      valid[q, slot] := true;
      ok := true;
      waiting := waiting + [m];
    }

    /** Returns the first published slot at or after `read`, skipping the ones it gives up on. */
    method Consume() returns (ok: bool, out: Option<T>)
      requires Shaped()
      modifies this`read, this`unread, payload
      ensures Shaped()
      ensures !ok ==> read == fullSlots && forall i :: old(read) <= i < fullSlots ==> !valid[consumerQ, i]
      ensures ok ==> old(read) < read && valid[consumerQ, read - 1]
      ensures ok ==> forall i :: old(read) <= i < read - 1 ==> !valid[consumerQ, i]
      ensures ok ==> var k := read - 1; out == old(payload[consumerQ, k])
      ensures forall q, i :: 0 <= q < 2 && 0 <= i < qlen && !(ok && q == consumerQ && i == read - 1) ==>
                payload[q, i] == old(payload[q, i])
      ensures old(Valid()) ==> Valid() && (ok <==> old(read) < fullSlots)
      ensures old(Valid()) && ok ==> out == Some(old(Contents())[0]) && Contents() == old(Contents())[1..]
      ensures old(Valid()) && !ok ==> Contents() == old(Contents())
      ensures unread == if ok && old(unread) != [] then old(unread)[1..] else old(unread)
    {
      while read < fullSlots
        invariant Shaped() && old(read) <= read
        invariant forall i :: old(read) <= i < read ==> !valid[consumerQ, i]
        invariant (old(Valid()) ==> read == old(read)) && unread == old(unread)
        invariant forall q, i :: 0 <= q < 2 && 0 <= i < qlen ==> payload[q, i] == old(payload[q, i])
      {
        for tries := 0 to MAX_TRIES
          invariant tries > 0 ==> !valid[consumerQ, read]
        {
          if valid[consumerQ, read] {
            var index := read;
            read := read + 1;
            out := payload[consumerQ, index];
            payload[consumerQ, index] := None;
            unread := if unread == [] then [] else unread[1..];
            return true, out;
          }
        }
        read := read + 1;
      }
      return false, None;
    }

    method SwapQueues()
      requires Shaped()
      modifies this`pointer, this`read, this`consumerQ, this`fullSlots, this`full, this`unread, this`waiting, valid
      ensures Shaped()
      ensures consumerQ == 1 - old(consumerQ) && pointer == Word(old(consumerQ), 0)
      ensures read == 0 && fullSlots == old(Accepted()) && !full
      ensures forall q, i :: 0 <= q < 2 && 0 <= i < qlen ==>
                valid[q, i] == (old(valid[q, i]) && !(q == old(consumerQ) && i < old(fullSlots)))
      ensures old(Valid()) && old(read) == old(fullSlots) ==> Valid() && Contents() == old(Contents())
    {
      for i := 0 to fullSlots
        modifies valid
        invariant forall q, k :: 0 <= q < 2 && 0 <= k < qlen ==>
                    valid[q, k] == (old(valid[q, k]) && !(q == consumerQ && k < i))
      {
        valid[consumerQ, i] := false;
      }
      var newPoint := Word(consumerQ, 0);
      consumerQ := 1 - consumerQ;
      var oldPointer := pointer;
      pointer := newPoint;
      full := false;
      fullSlots := Min(oldPointer.ticket, qlen);
      read := 0;
      unread, waiting := waiting, [];
    }

    method Pop() returns (ok: bool, out: Option<T>)
      requires Valid()
      modifies this, valid, payload
      ensures valid == old(valid) && payload == old(payload)
      ensures Valid()
      ensures ok <==> old(Contents()) != []
      ensures ok ==> out == Some(old(Contents())[0]) && Contents() == old(Contents())[1..]
      ensures !ok ==> Contents() == []
      ensures pointer.ticket <= old(pointer.ticket)
      ensures if old(unread) != [] then unread == old(unread)[1..] && Accepted() == old(Accepted()) else Accepted() == 0
    {
      ok, out := Consume();
      if ok {
        return;
      }
      SwapQueues();
      ok, out := Consume();
    }

    /** The move constructor: published payloads are moved, everything else is copied. */
    constructor MoveFrom(other: DBQueue<T>)
      requires other.Valid()
      modifies other.payload
      ensures Valid() && fresh(valid) && fresh(payload) && qlen == other.qlen
      ensures Contents() == old(other.Contents()) && Accepted() == other.Accepted()
    {
      qlen := other.qlen;
      valid := new bool[2, other.qlen]((_, _) => false);
      payload := new Option<T>[2, other.qlen]((_, _) => None);
      pointer, read, consumerQ := other.pointer, other.read, other.consumerQ;
      fullSlots, full := other.fullSlots, other.full;
      unread, waiting := other.unread, other.waiting;
      new;
      MoveSlots(other);
    }

    /** Moves the published payloads of both buffers. */
    method MoveSlots(other: DBQueue<T>)
      requires valid.Length0 == payload.Length0 == other.valid.Length0 == other.payload.Length0 == 2
      requires valid.Length1 == payload.Length1 == other.valid.Length1 == other.payload.Length1 == qlen
      requires valid != other.valid && payload != other.payload
      requires forall r, k :: 0 <= r < 2 && 0 <= k < qlen ==> !valid[r, k]
      modifies valid, payload, other.payload
      ensures forall r, k :: 0 <= r < 2 && 0 <= k < qlen ==>
                valid[r, k] == other.valid[r, k] && (valid[r, k] ==> payload[r, k] == old(other.payload[r, k]))
    {
      for q := 0 to 2
        modifies valid, payload, other.payload
        invariant forall r, k :: 0 <= r < q && 0 <= k < qlen ==>
                    valid[r, k] == other.valid[r, k] && (valid[r, k] ==> payload[r, k] == old(other.payload[r, k]))
        invariant forall r, k :: q <= r < 2 && 0 <= k < qlen ==> !valid[r, k] && other.payload[r, k] == old(other.payload[r, k])
      {
        MoveRow(other, q);
      }
    }

    /** Moves the published payloads of one buffer and leaves the other buffer alone. */
    method MoveRow(other: DBQueue<T>, q: nat)
      requires valid.Length0 == payload.Length0 == other.valid.Length0 == other.payload.Length0 == 2 && q < 2
      requires valid.Length1 == payload.Length1 == other.valid.Length1 == other.payload.Length1 == qlen
      requires valid != other.valid && payload != other.payload
      requires forall k :: 0 <= k < qlen ==> !valid[q, k]
      modifies valid, payload, other.payload
      ensures forall k :: 0 <= k < qlen ==>
                valid[q, k] == other.valid[q, k] && (valid[q, k] ==> payload[q, k] == old(other.payload[q, k]))
      ensures forall r, k :: 0 <= r < 2 && r != q && 0 <= k < qlen ==>
                && valid[r, k] == old(valid[r, k]) && payload[r, k] == old(payload[r, k])
                && other.payload[r, k] == old(other.payload[r, k])
    {
      for i := 0 to qlen
        modifies valid, payload, other.payload
        invariant forall k :: 0 <= k < i ==>
                    valid[q, k] == other.valid[q, k] && (valid[q, k] ==> payload[q, k] == old(other.payload[q, k]))
        invariant forall k :: i <= k < qlen ==> !valid[q, k] && other.payload[q, k] == old(other.payload[q, k])
        invariant forall r, k :: 0 <= r < 2 && r != q && 0 <= k < qlen ==>
                    && valid[r, k] == old(valid[r, k]) && payload[r, k] == old(payload[r, k])
                    && other.payload[r, k] == old(other.payload[r, k])
      {
        if other.valid[q, i] {
          payload[q, i] := other.payload[q, i];
          other.payload[q, i] := None;
          valid[q, i] := true;
        }
      }
    }

    method Reset()
      requires Shaped()
      modifies this, valid, payload
      ensures Valid() && Contents() == [] && Accepted() == 0
      ensures valid == old(valid) && payload == old(payload)
    {
      for q := 0 to 2
        modifies valid, payload
        invariant forall r, i :: 0 <= r < q && 0 <= i < qlen ==> !valid[r, i]
      {
        for i := 0 to qlen
          modifies valid, payload
          invariant forall r, k :: 0 <= r < q && 0 <= k < qlen ==> !valid[r, k]
          invariant forall k :: 0 <= k < i ==> !valid[q, k]
        {
          if valid[q, i] {
            payload[q, i] := None;
            valid[q, i] := false;
          }
        }
      }
      full := false;
      pointer := Word(0, 0);
      consumerQ, read, fullSlots := 1, 0, 0;
      unread, waiting := [], [];
    }
  }

  lemma MoveFirst<T>(front: seq<T>, back: seq<T>)
    requires back != []
    ensures front + [back[0]] + back[1..] == front + back
  {
  }

  lemma Regroup<T>(a: seq<T>, b: seq<T>, c: seq<T>)
    ensures a + b + c == a + (b + c)
  {
  }

  /** An input gate of an indirectly invoked block. */
  class InGate<T> {
    const queue: DBQueue<T>

    constructor (qlen: nat)
      requires 1 <= qlen
      ensures fresh(queue) && queue.Valid() && queue.qlen == qlen && queue.Contents() == []
    {
      queue := new DBQueue<T>(qlen);
    }

    /**
     A push that is retried while it is refused. `rounds` lists, for every time the pool is found
     running, how many messages the consumer pops before the retry; the pool stops when it runs out.
     The message is enqueued exactly once or not at all, and it is only turned away by a buffer that
     took Qlen messages since the last swap. A blocking call succeeds at the latest after a round in
     which the consumer asks for more than it had left to read, because that round swaps the buffers.
     */
    method Receive(m: T, dropping: bool, rounds: seq<nat>) returns (queued: bool, popped: seq<T>)
      requires queue.Valid() && queue.pointer.ticket + |rounds| + 1 < SELECTOR_UNIT
      modifies queue, queue.valid, queue.payload
      ensures queue.Valid()
      ensures popped + queue.Contents() == old(queue.Contents()) + if queued then [m] else []
      ensures !queued ==> queue.Accepted() == queue.qlen
      ensures old(queue.Accepted()) < queue.qlen ==> queued && popped == []
      ensures dropping ==> popped == []
      ensures !dropping && (exists i :: 0 <= i < |rounds| && rounds[i] > |old(queue.unread)|) ==> queued
    {
      queued := queue.Push(m);
      popped := [];
      var i := 0;
      while !queued && !dropping && i < |rounds|
        invariant 0 <= i <= |rounds|
        invariant queue.Valid() && queue.pointer.ticket + (|rounds| - i) < SELECTOR_UNIT
        invariant queue.valid == old(queue.valid) && queue.payload == old(queue.payload)
        invariant popped + queue.Contents() == old(queue.Contents()) + if queued then [m] else []
        invariant !queued ==> queue.Accepted() == queue.qlen
        invariant old(queue.Accepted()) < queue.qlen ==> queued && popped == []
        invariant dropping ==> popped == []
        invariant !queued ==> |queue.unread| <= |old(queue.unread)|
        invariant !queued ==> forall k :: 0 <= k < i ==> rounds[k] <= |old(queue.unread)|
      {
        ghost var left := queue.Contents();
        var more;
        queued, more := Retry(m, rounds[i]);
        Regroup(popped, more, queue.Contents());
        Regroup(popped, left, if queued then [m] else []);
        popped := popped + more;
        i := i + 1;
      }
    }

    /** The consumer pops `count` times, and the producer tries again. */
    method Retry(m: T, count: nat) returns (queued: bool, popped: seq<T>)
      requires queue.Valid() && queue.pointer.ticket + 1 < SELECTOR_UNIT
      modifies queue, queue.valid, queue.payload
      ensures queue.Valid() && queue.pointer.ticket <= old(queue.pointer.ticket) + 1
      ensures queue.valid == old(queue.valid) && queue.payload == old(queue.payload)
      ensures popped + queue.Contents() == old(queue.Contents()) + if queued then [m] else []
      ensures !queued ==> queue.Accepted() == queue.qlen
      ensures !queued ==> count <= |old(queue.unread)| && |queue.unread| <= |old(queue.unread)|
    {
      popped := Dequeue(count);
      ghost var left := queue.Contents();
      queued := queue.Push(m);
      Regroup(popped, left, [m]);
    }

    /** `count` calls of `dequeue` by the consumer; null results are not reported. */
    method Dequeue(count: nat) returns (popped: seq<T>)
      requires queue.Valid()
      modifies queue, queue.valid, queue.payload
      ensures queue.Valid() && queue.pointer.ticket <= old(queue.pointer.ticket)
      ensures queue.valid == old(queue.valid) && queue.payload == old(queue.payload)
      ensures popped + queue.Contents() == old(queue.Contents())
      ensures |popped| == Min(count, |old(queue.Contents())|)
      ensures if count <= |old(queue.unread)| then |queue.unread| == |old(queue.unread)| - count else queue.Accepted() == 0
    {
      popped := [];
      for i := 0 to count
        invariant if i <= |old(queue.unread)| then |queue.unread| == |old(queue.unread)| - i else queue.Accepted() == 0
        invariant queue.Valid() && queue.pointer.ticket <= old(queue.pointer.ticket)
        invariant queue.valid == old(queue.valid) && queue.payload == old(queue.payload)
        invariant popped + queue.Contents() == old(queue.Contents())
        invariant |popped| == Min(i, |old(queue.Contents())|)
      {
        ghost var before := queue.Contents();
        var ok, out := queue.Pop();
        if ok {
          MoveFirst(popped, before);
          popped := popped + [out.value];
        }
      }
    }
  }
}
