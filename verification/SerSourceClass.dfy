/**
 The receiving block: one serialiser per client, drained round-robin until no client has a complete
 message, then filled again from the sockets. Sockets are replaced by the chunks they return.
 */
module SerSourceClass {
  import opened WireFormat
  import opened StreamReader
  import opened SerializerClass

  /** `MAX_CLIENT_SOCKET` */
  const MAX_CLIENTS: nat := 30

  /** What was sent out, with the client it came from. */
  datatype Sent = Sent(client: nat, m: Message)

  function ForClient(out: seq<Sent>, i: nat): seq<Message> {
    if out == [] then []
    else ForClient(out[..|out| - 1], i) + if out[|out| - 1].client == i then [out[|out| - 1].m] else []
  }

  lemma ForClientAppend(out: seq<Sent>, s: Sent, i: nat)
    ensures ForClient(out + [s], i) == ForClient(out, i) + if s.client == i then [s.m] else []
  {
    assert (out + [s])[..|out|] == out;
  }

  /** `buf` is what is left of `start` after `ms` have been taken out of it. */
  ghost predicate Progress(kind: Kind, start: seq<byte>, ms: seq<Message>, buf: seq<byte>) {
    && Drain(kind, buf).Drained?
    && Drain(kind, start) == Drained(ms + Drain(kind, buf).ms, Drain(kind, buf).rest)
  }

  lemma ProgressStart(kind: Kind, start: seq<byte>)
    requires Drain(kind, start).Drained?
    ensures Progress(kind, start, [], start)
  {
    assert [] + Drain(kind, start).ms == Drain(kind, start).ms;
  }

  lemma ProgressStep(kind: Kind, start: seq<byte>, ms: seq<Message>, buf: seq<byte>)
    requires Progress(kind, start, ms, buf)
    ensures LookOnce(kind, buf) != Broken
    ensures LookOnce(kind, buf).Emit? ==>
              Progress(kind, start, ms + [LookOnce(kind, buf).m], LookOnce(kind, buf).rest)
    ensures LookOnce(kind, buf) == Wait ==> Drain(kind, start) == Drained(ms, buf)
  {
    LookShrinks(kind, buf);
    if LookOnce(kind, buf).Emit? {
      var m, rest := LookOnce(kind, buf).m, LookOnce(kind, buf).rest;
      assert ms + ([m] + Drain(kind, rest).ms) == ms + [m] + Drain(kind, rest).ms;
    } else {
      assert ms + [] == ms;
    }
  }

  /** `Progress` for every client; `from` is where the output of this drain starts. */
  ghost predicate AllProgress(kind: Kind, starts: seq<seq<byte>>, out: seq<Sent>, from: nat, views: seq<seq<byte>>) {
    && |starts| == |views| && from <= |out|
    && forall i :: 0 <= i < |views| ==> Progress(kind, starts[i], ForClient(out[from..], i), views[i])
  }

  /** One client emits a message: its own progress advances and nobody else's changes. */
  lemma EmitKeepsProgress(kind: Kind, starts: seq<seq<byte>>, out: seq<Sent>, from: nat, views: seq<seq<byte>>, c: nat)
    requires AllProgress(kind, starts, out, from, views) && c < |views| && LookOnce(kind, views[c]).Emit?
    ensures var look := LookOnce(kind, views[c]);
            AllProgress(kind, starts, out + [Sent(c, look.m)], from, views[c := look.rest])
  {
    var look := LookOnce(kind, views[c]);
    assert (out + [Sent(c, look.m)])[from..] == out[from..] + [Sent(c, look.m)];
    forall i | 0 <= i < |views|
      ensures Progress(kind, starts[i], ForClient((out + [Sent(c, look.m)])[from..], i), views[c := look.rest][i])
    {
      ForClientAppend(out[from..], Sent(c, look.m), i);
      assert Progress(kind, starts[i], ForClient(out[from..], i), views[i]);
      if i == c {
        ProgressStep(kind, starts[c], ForClient(out[from..], c), views[c]);
      } else {
        assert ForClient(out[from..], i) + [] == ForClient(out[from..], i);
      }
    }
  }

  /** None of the first `n` clients has a complete message. */
  ghost predicate AllWait(kind: Kind, views: seq<seq<byte>>, n: nat) {
    n <= |views| && forall i :: 0 <= i < n ==> LookOnce(kind, views[i]) == Wait
  }

  lemma AllWaitStep(kind: Kind, views: seq<seq<byte>>, n: nat)
    requires n < |views| && AllWait(kind, views, n) && LookOnce(kind, views[n]) == Wait
    ensures AllWait(kind, views, n + 1)
  {
  }

  lemma AllProgressStart(kind: Kind, starts: seq<seq<byte>>, out: seq<Sent>)
    requires forall i :: 0 <= i < |starts| ==> Drain(kind, starts[i]).Drained?
    ensures AllProgress(kind, starts, out, |out|, starts)
  {
    assert out[|out|..] == [];
    forall i | 0 <= i < |starts| ensures Progress(kind, starts[i], [], starts[i]) {
      ProgressStart(kind, starts[i]);
    }
  }

  /** Nobody has a complete message any more: every client's drain is finished. */
  lemma AllProgressEnd(kind: Kind, starts: seq<seq<byte>>, out: seq<Sent>, from: nat, views: seq<seq<byte>>)
    requires AllProgress(kind, starts, out, from, views)
    requires AllWait(kind, views, |views|)
    ensures forall i :: 0 <= i < |views| ==> Drain(kind, starts[i]) == Drained(ForClient(out[from..], i), views[i])
  {
    forall i | 0 <= i < |views| ensures Drain(kind, starts[i]) == Drained(ForClient(out[from..], i), views[i]) {
      ProgressStep(kind, starts[i], ForClient(out[from..], i), views[i]);
    }
  }

  function TotalLen(views: seq<seq<byte>>): nat {
    if views == [] then 0 else |views[0]| + TotalLen(views[1..])
  }

  lemma {:induction false} TotalLenUpdate(views: seq<seq<byte>>, i: nat, v: seq<byte>)
    requires i < |views|
    ensures TotalLen(views[i := v]) == TotalLen(views) - |views[i]| + |v|
    decreases |views|
  {
    if i > 0 {
      assert views[i := v][1..] == views[1..][i - 1 := v];
      TotalLenUpdate(views[1..], i - 1, v);
    } else {
      assert views[0 := v][1..] == views[1..];
    }
  }

  lemma RoundStep(kind: Kind, starts: seq<seq<byte>>, out: seq<Sent>, from: nat, views: seq<seq<byte>>, c: nat)
    requires AllProgress(kind, starts, out, from, views) && c < |views|
    ensures var look := LookOnce(kind, views[c]);
            && look != Broken
            && (look.Emit? ==> && AllProgress(kind, starts, out + [Sent(c, look.m)], from, views[c := look.rest])
                               && TotalLen(views[c := look.rest]) < TotalLen(views))
  {
    var look := LookOnce(kind, views[c]);
    ProgressStep(kind, starts[c], ForClient(out[from..], c), views[c]);
    LookShrinks(kind, views[c]);
    if look.Emit? {
      EmitKeepsProgress(kind, starts, out, from, views, c);
      TotalLenUpdate(views, c, look.rest);
    }
  }

  /** The chunks that client `i` gets in the successive rounds. */
  function Column(rounds: seq<seq<seq<byte>>>, i: nat): seq<seq<byte>>
    requires forall n :: 0 <= n < |rounds| ==> i < |rounds[n]|
  {
    if rounds == [] then [] else [rounds[0][i]] + Column(rounds[1..], i)
  }

  /** Every client is in the middle of its stream, `rounds` still to come. */
  ghost predicate Serving(kind: Kind, rounds: seq<seq<seq<byte>>>, sent: seq<seq<Message>>, out: seq<Sent>,
                          views: seq<seq<byte>>) {
    && |sent| == |views|
    && (forall n :: 0 <= n < |rounds| ==> |rounds[n]| == |views| && Small(rounds[n]))
    && forall i :: 0 <= i < |views| ==>
         Sendable(kind, sent[i]) && InStream(kind, sent[i], ForClient(out, i), views[i], Join(Column(rounds, i)))
  }

  lemma StreamStarts(kind: Kind, ms: seq<Message>, future: seq<byte>)
    requires Sendable(kind, ms) && future == EncodeAll(ms)
    ensures InStream(kind, ms, [], [], future)
  {
    assert ms == [] + ms && future == [] + future;
    assert Pending(kind, ms, [], future);
  }

  lemma ServeStart(kind: Kind, rounds: seq<seq<seq<byte>>>, sent: seq<seq<Message>>, views: seq<seq<byte>>)
    requires |sent| == |views| && forall n :: 0 <= n < |rounds| ==> |rounds[n]| == |views| && Small(rounds[n])
    requires forall i :: 0 <= i < |views| ==>
               views[i] == [] && Sendable(kind, sent[i]) && Join(Column(rounds, i)) == EncodeAll(sent[i])
    ensures Serving(kind, rounds[0..], sent, [], views)
  {
    assert rounds[0..] == rounds;
    forall i | 0 <= i < |views| ensures InStream(kind, sent[i], [], views[i], Join(Column(rounds, i))) {
      StreamStarts(kind, sent[i], Join(Column(rounds, i)));
    }
  }

  /** The next round fits into the buffers and can be drained without a cursor error. */
  lemma ServeChunk(kind: Kind, rounds: seq<seq<seq<byte>>>, sent: seq<seq<Message>>, out: seq<Sent>,
                   views: seq<seq<byte>>)
    requires rounds != [] && Serving(kind, rounds, sent, out, views)
    ensures forall i :: 0 <= i < |views| ==>
              && |views[i]| + |rounds[0][i]| <= MAX_DATA
              && var d := Drain(kind, views[i] + rounds[0][i]);
                 d.Drained? && InStream(kind, sent[i], ForClient(out, i) + d.ms, d.rest, Join(Column(rounds[1..], i)))
  {
    forall i | 0 <= i < |views|
      ensures |views[i]| + |rounds[0][i]| <= MAX_DATA
      ensures var d := Drain(kind, views[i] + rounds[0][i]);
              d.Drained? && InStream(kind, sent[i], ForClient(out, i) + d.ms, d.rest, Join(Column(rounds[1..], i)))
    {
      assert Column(rounds, i)[1..] == Column(rounds[1..], i);
      InStreamStep(kind, sent[i], ForClient(out, i), views[i], rounds[0][i], Join(Column(rounds[1..], i)));
    }
  }

  lemma {:induction false} ForClientConcat(a: seq<Sent>, b: seq<Sent>, i: nat)
    ensures ForClient(a + b, i) == ForClient(a, i) + ForClient(b, i)
    decreases |b|
  {
    if b == [] {
      assert a + [] == a;
    } else {
      var init, last := b[..|b| - 1], b[|b| - 1];
      assert a + b == a + init + [last] && b == init + [last];
      ForClientAppend(a + init, last, i);
      ForClientAppend(init, last, i);
      ForClientConcat(a, init, i);
    }
  }

  lemma ServeStep(kind: Kind, rounds: seq<seq<seq<byte>>>, sent: seq<seq<Message>>, out: seq<Sent>, from: nat,
                  views: seq<seq<byte>>, views': seq<seq<byte>>)
    requires rounds != [] && from <= |out| && |views'| == |views|
    requires Serving(kind, rounds, sent, out[..from], views)
    requires forall i :: 0 <= i < |views| ==>
               Drain(kind, views[i] + rounds[0][i]) == Drained(ForClient(out[from..], i), views'[i])
    ensures Serving(kind, rounds[1..], sent, out, views')
  {
    ServeChunk(kind, rounds, sent, out[..from], views);
    assert out == out[..from] + out[from..];
    forall i | 0 <= i < |views'|
      ensures InStream(kind, sent[i], ForClient(out, i), views'[i], Join(Column(rounds[1..], i)))
    {
      ForClientConcat(out[..from], out[from..], i);
    }
  }

  lemma ServeEnd(kind: Kind, sent: seq<seq<Message>>, out: seq<Sent>, views: seq<seq<byte>>)
    requires Serving(kind, [], sent, out, views)
    ensures forall i :: 0 <= i < |views| ==> ForClient(out, i) == sent[i] && views[i] == []
  {
    forall i | 0 <= i < |views| ensures ForClient(out, i) == sent[i] && views[i] == [] {
      InStreamEnd(kind, sent[i], ForClient(out, i), views[i]);
    }
  }

  /** One look at one client's buffer: a complete message is decoded and the rest moved to the head. */
  method TakeMessage(kind: Kind, ser: Serializer) returns (took: bool, m: Message)
    requires ser.Valid() && ser.data == 0 && LookOnce(kind, ser.View()) != Broken
    modifies ser, ser.buf
    ensures ser.Valid() && ser.data == 0
    ensures LookOnce(kind, old(ser.View())) == if took then Emit(m, ser.View()) else Wait
    ensures !took ==> ser.View() == old(ser.View())
  {
    took, m := false, Tweet([]);
    var len := ser.Len();
    if len >= 2 {
      var msgLen := ser.GetInt16(0);
      assert ser.View()[0..] == ser.View();
      if len >= msgLen {
        ser.Consume(2);
        m := BuildSame(kind, ser);
        ser.Compact();
        took := true;
      }
    }
  }

  class SerSource {
    const kind: Kind                   // the type of msg_prototype
    var sers: seq<Serializer>          // one per connected client
    var out: seq<Sent>                 // what went through the output gate

    ghost predicate Separate()
      reads this
    {
      forall i, j :: 0 <= i < j < |sers| ==> sers[i] != sers[j] && sers[i].buf != sers[j].buf
    }

    ghost function Footprint(): set<object>
      reads this
    {
      (set s: Serializer | s in sers) + (set s: Serializer | s in sers :: s.buf)
    }

    ghost predicate Valid()
      reads this, sers
    {
      Separate() && forall i :: 0 <= i < |sers| ==> sers[i].Valid() && sers[i].data == 0
    }

    /** The buffered bytes of every client. */
    ghost function Views(): (r: seq<seq<byte>>)
      requires Valid()
      reads this, sers, set s: Serializer | s in sers :: s.buf
      ensures |r| == |sers| && forall i :: 0 <= i < |sers| ==> r[i] == sers[i].View()
    {
      seq(|sers|, i requires 0 <= i < |sers| && Valid()
                    reads this, sers, set s: Serializer | s in sers :: s.buf => sers[i].View())
    }

    /** A new source has no clients. */
    constructor (kind: Kind)
      ensures Valid() && this.kind == kind && sers == [] && out == []
    {
      this.kind := kind;
      sers, out := [], [];
    }

    /** The body of the drain loop for one client. */
    method DrainClient(i: nat) returns (consumed: bool)
      requires Valid() && i < |sers| && LookOnce(kind, sers[i].View()) != Broken
      modifies this`out, sers[i], sers[i].buf
      ensures Valid()
      ensures consumed <==> old(LookOnce(kind, sers[i].View())).Emit?
      ensures !consumed ==> Views() == old(Views()) && out == old(out)
      ensures consumed ==> var look := old(LookOnce(kind, sers[i].View()));
                           Views() == old(Views())[i := look.rest] && out == old(out) + [Sent(i, look.m)]
    {
      var took, m := TakeMessage(kind, sers[i]);
      if took {
        out := out + [Sent(i, m)];
      }
      consumed := took;
    }

    method DrainTurn(i: nat, ghost starts: seq<seq<byte>>, ghost from: nat) returns (took: bool)
      requires Valid() && i < |sers| && AllProgress(kind, starts, out, from, Views())
      modifies this`out, sers[i], sers[i].buf
      ensures Valid() && AllProgress(kind, starts, out, from, Views()) && old(out) <= out
      ensures took ==> TotalLen(Views()) < TotalLen(old(Views()))
      ensures !took ==> Views() == old(Views()) && old(LookOnce(kind, Views()[i])) == Wait
    {
      RoundStep(kind, starts, out, from, Views(), i);
      took := DrainClient(i);
    }

    /** One turn over all clients; `consumed` tells whether anything was taken out. */
    method DrainRound(ghost starts: seq<seq<byte>>, ghost from: nat) returns (consumed: bool)
      requires Valid() && AllProgress(kind, starts, out, from, Views())
      modifies this`out, Footprint()
      ensures Valid() && AllProgress(kind, starts, out, from, Views()) && old(out) <= out
      ensures consumed ==> TotalLen(Views()) < TotalLen(old(Views()))
      ensures !consumed ==> Views() == old(Views()) && AllWait(kind, Views(), |sers|)
    {
      consumed := false;
      ghost var views, before := Views(), Views();
      for i := 0 to |sers|
        modifies this`out, Footprint()
        invariant Valid() && views == Views() && old(out) <= out
        invariant AllProgress(kind, starts, out, from, views)
        invariant if consumed then TotalLen(views) < TotalLen(before) else views == before
        invariant !consumed ==> AllWait(kind, before, i)
      {
        ghost var look := LookOnce(kind, views[i]);
        var took := DrainTurn(i, starts, from);
        if took {
          consumed := true;
          views := Views();
        } else if !consumed {
          assert look == Wait;
          AllWaitStep(kind, before, i);
        }
      }
    }

    /**
     The drain: it ends, every client's output is exactly the messages its buffer held, and what is left
     of each buffer is what the reader on values leaves.
     */
    method DrainAll()
      requires Valid() && forall i :: 0 <= i < |sers| ==> Drain(kind, sers[i].View()).Drained?
      modifies this`out, Footprint()
      ensures Valid() && old(out) <= out
      ensures forall i :: 0 <= i < |sers| ==>
                Drain(kind, old(Views())[i]) == Drained(ForClient(out[|old(out)|..], i), Views()[i])
    {
      ghost var starts, views, from := Views(), Views(), |out|;
      AllProgressStart(kind, starts, out);
      var consumed := true;
      while consumed
        invariant Valid() && views == Views() && old(out) <= out
        invariant AllProgress(kind, starts, out, from, views)
        invariant !consumed ==> AllWait(kind, views, |views|)
        decreases TotalLen(views), consumed
      {
        consumed := DrainRound(starts, from);
        views := Views();
      }
      AllProgressEnd(kind, starts, out, from, views);
    }

    /** A newly accepted client starts with an empty buffer of its own; there is no room for a 31st. */
    method Accept() returns (ok: bool)
      requires Valid()
      modifies this`sers
      ensures Valid() && (ok <==> |old(sers)| != 30)
      ensures !ok ==> sers == old(sers)
      ensures ok ==> |sers| == |old(sers)| + 1 && sers[..|old(sers)|] == old(sers)
      ensures ok ==> fresh(sers[|old(sers)|]) && fresh(sers[|old(sers)|].buf) && sers[|old(sers)|].View() == []
      ensures |old(sers)| <= 30 ==> |sers| <= 30
    {
      if |sers| == MAX_CLIENTS {
        return false;
      }
      var ser := new Serializer();
      ser.Empty();
      sers := sers + [ser];
      ok := true;
    }

    /** `recv` returned a chunk for client `i`. */
    method ReceiveChunk(i: nat, chunk: seq<byte>)
      requires Valid() && i < |sers| && |chunk| <= RECV_SIZE && |sers[i].View()| + |chunk| <= MAX_DATA
      modifies sers[i], sers[i].buf
      ensures Valid() && Views() == old(Views())[i := old(Views())[i] + chunk]
    {
      sers[i].PutRawData(chunk);
    }

    /** One turn over the sockets that `select` reported: an empty chunk means no data for that client. */
    method ReceiveRound(round: seq<seq<byte>>)
      requires Valid() && |round| == |sers| && Small(round)
      requires forall i :: 0 <= i < |sers| ==> |sers[i].View()| + |round[i]| <= MAX_DATA
      modifies Footprint()
      ensures Valid() && forall i :: 0 <= i < |sers| ==> Views()[i] == old(Views())[i] + round[i]
    {
      ghost var before := Views();
      for i := 0 to |sers|
        modifies Footprint()
        invariant Valid()
        invariant forall j :: 0 <= j < i ==> Views()[j] == before[j] + round[j]
        invariant forall j :: i <= j < |sers| ==> Views()[j] == before[j]
      {
        if |round[i]| > 0 {
          ReceiveChunk(i, round[i]);
        }
      }
    }

    /**
     The receive loop over any number of rounds. When the bytes each client sends are the encodings of
     `sent[i]`, cut in any way into pieces of at most 2000 bytes, no buffer overflows, no cursor check
     fails, and what goes out for that client is exactly `sent[i]`, in order.
     */
    method Serve(rounds: seq<seq<seq<byte>>>, ghost sent: seq<seq<Message>>)
      requires Valid() && out == [] && |sent| == |sers|
      requires forall i :: 0 <= i < |sers| ==> sers[i].View() == []
      requires forall n :: 0 <= n < |rounds| ==>
                 |rounds[n]| == |sers| && forall i :: 0 <= i < |sers| ==> |rounds[n][i]| <= 2000
      requires forall i :: 0 <= i < |sers| ==>
                 Sendable(kind, sent[i]) && Join(Column(rounds, i)) == EncodeAll(sent[i])
      modifies this`out, Footprint()
      ensures Valid() && forall i :: 0 <= i < |sers| ==> ForClient(out, i) == sent[i] && Views()[i] == []
    {
      ghost var views := Views();
      ServeStart(kind, rounds, sent, views);
      for n := 0 to |rounds|
        modifies this`out, Footprint()
        invariant Valid() && views == Views() && Serving(kind, rounds[n..], sent, out, views)
      {
        views := ServeRound(rounds[n..], sent);
        assert rounds[n..][1..] == rounds[n + 1..];
      }
      assert rounds[|rounds|..] == [];
      ServeEnd(kind, sent, out, views);
    }

    /** One turn of the receive loop. */
    method ServeRound(rounds: seq<seq<seq<byte>>>, ghost sent: seq<seq<Message>>) returns (ghost views: seq<seq<byte>>)
      requires Valid() && rounds != [] && Serving(kind, rounds, sent, out, Views())
      modifies this`out, Footprint()
      ensures Valid() && views == Views() && Serving(kind, rounds[1..], sent, out, views)
    {
      ghost var before, sofar := Views(), out;
      ServeChunk(kind, rounds, sent, out, before);
      ReceiveRound(rounds[0]);
      DrainAll();
      views := Views();
      assert out[..|sofar|] == sofar;
      ServeStep(kind, rounds, sent, out, |sofar|, before, views);
    }
  }
}
