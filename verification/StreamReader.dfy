/**
 Reassembly of messages from a byte stream that arrives in arbitrary pieces: what the receiving block
 does with the buffer of one client.
 */
module StreamReader {
  import opened WireFormat

  /** The outcome of looking at a buffer once. */
  datatype Look = Wait | Emit(m: Message, rest: seq<byte>) | Broken

  /** The body of the drain loop for one client. */
  function LookOnce(kind: Kind, buf: seq<byte>): Look {
    if |buf| < 2 || |buf| < Signed16(buf) then Wait
    else match Build(kind, buf[2..])
      case Fault => Broken
      case Got(m, rest) => Emit(m, rest)
  }

  datatype Drained = Drained(ms: seq<Message>, rest: seq<byte>) | Crashed

  lemma GetStringsShrinks(b: seq<byte>, n: nat)
    ensures GetStrings(b, n).Got? ==> |GetStrings(b, n).rest| <= |b|
  {
  }

  /** Every message taken out shortens the buffer by its length field at least. */
  lemma LookShrinks(kind: Kind, buf: seq<byte>)
    ensures LookOnce(kind, buf).Emit? ==> |LookOnce(kind, buf).rest| + 2 <= |buf|
  {
    if |buf| >= 6 && kind == Words {
      var n := Signed32(buf[2..]);
      GetStringsShrinks(buf[2..][4..], if n < 0 then 0 else n);
    }
  }

  /** Looking at the buffer until nothing more can be taken out. */
  function Drain(kind: Kind, buf: seq<byte>): Drained
    decreases |buf|
  {
    LookShrinks(kind, buf);
    match LookOnce(kind, buf)
    case Wait => Drained([], buf)
    case Broken => Crashed
    case Emit(m, rest) => Prepend(m, Drain(kind, rest))
  }

  function Prepend(m: Message, d: Drained): Drained {
    if d.Crashed? then Crashed else Drained([m] + d.ms, d.rest)
  }

  /** A session: every chunk received is appended to the buffer, which is then drained. */
  function Session(kind: Kind, buf: seq<byte>, chunks: seq<seq<byte>>): Drained
    decreases |chunks|
  {
    if chunks == [] then Drained([], buf)
    else match Drain(kind, buf + chunks[0])
      case Crashed => Crashed
      case Drained(ms, rest) =>
        match Session(kind, rest, chunks[1..])
        case Crashed => Crashed
        case Drained(ms', rest') => Drained(ms + ms', rest')
  }

  function Join(chunks: seq<seq<byte>>): seq<byte> {
    if chunks == [] then [] else chunks[0] + Join(chunks[1..])
  }

  /** Messages the format carries: of the configured type and at most 32767 bytes long. */
  predicate Sendable(kind: Kind, ms: seq<Message>) {
    forall i :: 0 <= i < |ms| ==> IsKind(ms[i], kind) && EncodedLen(ms[i]) <= 32767
  }

  // ---------------------------------------------------------------------------------------------
  // One look at a prefix of a message stream
  // ---------------------------------------------------------------------------------------------

  /** Fewer bytes than the first message needs: the reader waits. */
  lemma PartialWaits(kind: Kind, m: Message, buf: seq<byte>, more: seq<byte>)
    requires IsKind(m, kind) && EncodedLen(m) <= 32767
    requires |buf| < EncodedLen(m) && Encode(m) + more == buf + (Encode(m) + more)[|buf|..]
    ensures LookOnce(kind, buf) == Wait
  {
    if |buf| >= 2 {
      var s := Encode(m) + more;
      assert s == Be16(EncodedLen(m)) + (Body(m) + more);
      Be16RoundTrip(EncodedLen(m), Body(m) + more);
      assert s[0] == buf[0] && s[1] == buf[1];
    }
  }

  /** A whole message at the front: the reader emits it and keeps exactly what follows it. */
  lemma WholeIsEmitted(kind: Kind, m: Message, more: seq<byte>)
    requires IsKind(m, kind) && EncodedLen(m) <= 32767
    ensures LookOnce(kind, Encode(m) + more) == Emit(m, more)
  {
    var s := Encode(m) + more;
    assert s == Be16(EncodedLen(m)) + (Body(m) + more);
    Be16RoundTrip(EncodedLen(m), Body(m) + more);
    assert s[2..] == Body(m) + more;
    BuildRoundTrip(m, kind, more);
  }

  // ---------------------------------------------------------------------------------------------
  // Draining and whole sessions
  // ---------------------------------------------------------------------------------------------

  /** When the buffer holds the first message, the rest of it belongs to the other messages. */
  lemma FrontMessage(ms: seq<Message>, buf: seq<byte>, future: seq<byte>)
    requires ms != [] && EncodeAll(ms) == buf + future && EncodedLen(ms[0]) <= |buf|
    ensures buf == Encode(ms[0]) + buf[EncodedLen(ms[0])..]
    ensures EncodeAll(ms[1..]) == buf[EncodedLen(ms[0])..] + future
  {
    SplitPrefix(Encode(ms[0]), EncodeAll(ms[1..]), buf, future);
  }

  lemma SplitPrefix<A>(a: seq<A>, b: seq<A>, c: seq<A>, d: seq<A>)
    requires a + b == c + d && |a| <= |c|
    ensures c == a + c[|a|..] && b == c[|a|..] + d
  {
    assert (a + b)[..|a|] == a && (c + d)[..|a|] == c[..|a|];
    assert (a + b)[|a|..] == b && (c + d)[|a|..] == c[|a|..] + d;
  }

  lemma HeadAndSlices<A>(x: A, s: seq<A>, k: nat)
    requires k <= |s|
    ensures [x] + s[..k] == ([x] + s)[..k + 1] && ([x] + s)[k + 1..] == s[k..]
  {
  }

  lemma DrainFront(kind: Kind, m: Message, more: seq<byte>)
    requires IsKind(m, kind) && EncodedLen(m) <= 32767
    ensures Drain(kind, Encode(m) + more) == Prepend(m, Drain(kind, more))
  {
    LookShrinks(kind, Encode(m) + more);
    WholeIsEmitted(kind, m, more);
  }

  lemma DrainPartial(kind: Kind, ms: seq<Message>, buf: seq<byte>, future: seq<byte>)
    requires Sendable(kind, ms) && ms != [] && EncodeAll(ms) == buf + future && |buf| < EncodedLen(ms[0])
    ensures Drain(kind, buf) == Drained([], buf)
  {
    var s := Encode(ms[0]) + EncodeAll(ms[1..]);
    assert s == buf + s[|buf|..];
    PartialWaits(kind, ms[0], buf, EncodeAll(ms[1..]));
  }

  /** Draining `buf` takes out the first `k` of `ms` and leaves a proper part of the next one. */
  ghost predicate Cut(kind: Kind, ms: seq<Message>, buf: seq<byte>, future: seq<byte>, k: nat) {
    var d := Drain(kind, buf);
    && k <= |ms| && d.Drained? && d.ms == ms[..k]
    && EncodeAll(ms[k..]) == d.rest + future
    && if k < |ms| then |d.rest| < EncodedLen(ms[k]) else d.rest == []
  }

  lemma CutStep(kind: Kind, m: Message, ms: seq<Message>, more: seq<byte>, future: seq<byte>, k: nat)
    requires IsKind(m, kind) && EncodedLen(m) <= 32767 && Cut(kind, ms, more, future, k)
    ensures Cut(kind, [m] + ms, Encode(m) + more, future, k + 1)
  {
    DrainFront(kind, m, more);
    HeadAndSlices(m, ms, k);
  }

  /** Draining a prefix of the stream of `ms` takes out whole messages only. */
  lemma {:induction false} DrainTakesWholeMessages(kind: Kind, ms: seq<Message>, buf: seq<byte>, future: seq<byte>)
    returns (k: nat)
    requires Sendable(kind, ms) && EncodeAll(ms) == buf + future
    ensures Cut(kind, ms, buf, future, k)
    decreases |ms|
  {
    if ms == [] {
      k := 0;
    } else if |buf| < EncodedLen(ms[0]) {
      DrainPartial(kind, ms, buf, future);
      k := 0;
      assert ms[0..] == ms;
    } else {
      FrontMessage(ms, buf, future);
      var more := buf[EncodedLen(ms[0])..];
      var k' := DrainTakesWholeMessages(kind, ms[1..], more, future);
      CutStep(kind, ms[0], ms[1..], more, future, k');
      assert [ms[0]] + ms[1..] == ms;
      k := k' + 1;
    }
  }

  /**
   Whatever the pieces in which the bytes of `ms` arrive, the session emits `ms`, in order, and ends
   with an empty buffer.
   */
  lemma {:induction false} SessionEmitsTheMessages(kind: Kind, ms: seq<Message>, buf: seq<byte>, chunks: seq<seq<byte>>)
    requires Sendable(kind, ms) && EncodeAll(ms) == buf + Join(chunks)
    requires Drain(kind, buf) == Drained([], buf)
    ensures Session(kind, buf, chunks) == Drained(ms, [])
    decreases |chunks|
  {
    if chunks == [] {
      assert buf + [] == buf;
      NothingLeft(kind, ms, buf);
    } else {
      assert buf + Join(chunks) == buf + chunks[0] + Join(chunks[1..]);
      var k := DrainTakesWholeMessages(kind, ms, buf + chunks[0], Join(chunks[1..]));
      var rest := Drain(kind, buf + chunks[0]).rest;
      DrainIsFinal(kind, buf + chunks[0]);
      SessionEmitsTheMessages(kind, ms[k..], rest, chunks[1..]);
      SessionStep(kind, buf, chunks, ms[..k], rest, ms[k..], []);
      assert ms[..k] + ms[k..] == ms;
    }
  }

  /** A drained buffer that holds whole messages only is empty. */
  lemma NothingLeft(kind: Kind, ms: seq<Message>, buf: seq<byte>)
    requires Sendable(kind, ms) && EncodeAll(ms) == buf && Drain(kind, buf) == Drained([], buf)
    ensures ms == [] && buf == []
  {
    assert buf + [] == buf;
    var k := DrainTakesWholeMessages(kind, ms, buf, []);
  }

  lemma SessionStep(kind: Kind, buf: seq<byte>, chunks: seq<seq<byte>>, now: seq<Message>, rest: seq<byte>,
                    later: seq<Message>, end: seq<byte>)
    requires chunks != [] && Drain(kind, buf + chunks[0]) == Drained(now, rest)
    requires Session(kind, rest, chunks[1..]) == Drained(later, end)
    ensures Session(kind, buf, chunks) == Drained(now + later, end)
  {
  }

  /** After a drain there is nothing left to take out. */
  lemma {:induction false} DrainIsFinal(kind: Kind, buf: seq<byte>)
    ensures Drain(kind, buf).Drained? ==> Drain(kind, Drain(kind, buf).rest) == Drained([], Drain(kind, buf).rest)
    decreases |buf|
  {
    LookShrinks(kind, buf);
    if LookOnce(kind, buf).Emit? {
      DrainIsFinal(kind, LookOnce(kind, buf).rest);
    }
  }

  /** The per-client theorem, from an empty buffer. */
  lemma AnyFragmentationIsReassembled(kind: Kind, ms: seq<Message>, chunks: seq<seq<byte>>)
    requires Sendable(kind, ms) && Join(chunks) == EncodeAll(ms)
    ensures Session(kind, [], chunks) == Drained(ms, [])
  {
    assert [] + Join(chunks) == Join(chunks);
    SessionEmitsTheMessages(kind, ms, [], chunks);
  }

  /**
   State of one client in the middle of a stream: `emitted` so far, `view` in the buffer and `future`
   still to come; the buffer is drained and never holds 32767 bytes.
   */
  ghost predicate InStream(kind: Kind, ms: seq<Message>, emitted: seq<Message>, view: seq<byte>, future: seq<byte>) {
    && Drain(kind, view) == Drained([], view) && |view| < 32767
    && exists left :: ms == emitted + left && Pending(kind, left, view, future)
  }

  /** `view` and then `future` are the bytes of the messages `left`. */
  ghost predicate Pending(kind: Kind, left: seq<Message>, view: seq<byte>, future: seq<byte>) {
    Sendable(kind, left) && EncodeAll(left) == view + future
  }

  lemma PendingStep(kind: Kind, left: seq<Message>, buf: seq<byte>, future: seq<byte>) returns (left': seq<Message>)
    requires Pending(kind, left, buf, future)
    ensures var d := Drain(kind, buf);
            && d.Drained? && left == d.ms + left' && |d.rest| < 32767
            && Pending(kind, left', d.rest, future)
            && (future == [] ==> left' == [] && d.rest == [])
  {
    var k := DrainTakesWholeMessages(kind, left, buf, future);
    left' := left[k..];
    if k < |left| {
      assert left'[0] == left[k];
    }
  }

  lemma InStreamStep(kind: Kind, ms: seq<Message>, emitted: seq<Message>, view: seq<byte>, chunk: seq<byte>,
                     future: seq<byte>)
    requires InStream(kind, ms, emitted, view, chunk + future)
    ensures var d := Drain(kind, view + chunk);
            d.Drained? && InStream(kind, ms, emitted + d.ms, d.rest, future)
  {
    var left :| ms == emitted + left && Pending(kind, left, view, chunk + future);
    PendingShift(kind, left, view, chunk, future);
    var left' := PendingStep(kind, left, view + chunk, future);
    DrainIsFinal(kind, view + chunk);
    var d := Drain(kind, view + chunk);
    InStreamIntro(kind, emitted, d.ms, left', d.rest, future);
  }

  lemma PendingShift(kind: Kind, left: seq<Message>, view: seq<byte>, chunk: seq<byte>, future: seq<byte>)
    requires Pending(kind, left, view, chunk + future)
    ensures Pending(kind, left, view + chunk, future)
  {
    assert view + (chunk + future) == view + chunk + future;
  }

  lemma InStreamIntro(kind: Kind, emitted: seq<Message>, more: seq<Message>, left: seq<Message>, view: seq<byte>,
                      future: seq<byte>)
    requires Drain(kind, view) == Drained([], view) && |view| < 32767 && Pending(kind, left, view, future)
    ensures InStream(kind, emitted + (more + left), emitted + more, view, future)
  {
    assert emitted + (more + left) == emitted + more + left;
  }

  lemma InStreamEnd(kind: Kind, ms: seq<Message>, emitted: seq<Message>, view: seq<byte>)
    requires InStream(kind, ms, emitted, view, [])
    ensures emitted == ms && view == []
  {
    var left :| ms == emitted + left && Pending(kind, left, view, []);
    var left' := PendingStep(kind, left, view, []);
    assert emitted + [] == emitted;
  }

  // ---------------------------------------------------------------------------------------------
  // Where the format stops working
  // ---------------------------------------------------------------------------------------------

  /** Largest piece that one `recv` returns. */
  const RECV_SIZE: nat := 2000

  predicate Small(chunks: seq<seq<byte>>) { forall i :: 0 <= i < |chunks| ==> |chunks[i]| <= RECV_SIZE }

  lemma {:induction false} StringsFit(b: seq<byte>, n: nat)
    ensures GetStrings(b, n).Got? ==> |EncodeStrings(GetStrings(b, n).value)| <= |b|
    decreases n
  {
    if n > 0 && GetString(b).Got? {
      var s, rest := GetString(b).value, GetString(b).rest;
      StringsFit(rest, n - 1);
      if GetStrings(rest, n - 1).Got? {
        assert ([s] + GetStrings(rest, n - 1).value)[1..] == GetStrings(rest, n - 1).value;
      }
    }
  }

  /** What can be decoded out of a short buffer has a short encoding. */
  lemma ShortWords(b: seq<byte>, words: seq<seq<byte>>)
    requires |b| < |EncodeStrings(words)|
    ensures Build(Words, b).Got? ==> Build(Words, b).value != WordRecord(words)
  {
    if |b| >= 4 {
      var n := Signed32(b);
      StringsFit(b[4..], if n < 0 then 0 else n);
    }
  }

  lemma LongText(b: seq<byte>, text: seq<byte>, more: seq<byte>)
    requires 32764 <= |text| <= MAX_DATA - 4 && |b| < 32764 && EncodeString(text) == b + more
    ensures Build(Text, b) == Fault
  {
    if |b| >= 2 {
      Be16RoundTrip(|text|, text);
      assert b[0] == EncodeString(text)[0] && b[1] == EncodeString(text)[1];
    }
  }

  /** The length field of a longer message reads as zero or less, so the reader decodes what little there is. */
  lemma LongLook(kind: Kind, m: Message, buf: seq<byte>, future: seq<byte>)
    requires IsKind(m, kind) && 32767 < EncodedLen(m) <= MAX_DATA
    requires Encode(m) == buf + future && 2 <= |buf| <= RECV_SIZE + 1
    ensures LookOnce(kind, buf) == Broken || (LookOnce(kind, buf).Emit? && LookOnce(kind, buf).m != m)
  {
    Be16RoundTrip(EncodedLen(m), Body(m));
    assert buf[0] == Encode(m)[0] && buf[1] == Encode(m)[1];
    assert Signed16(buf) == Signed16(Encode(m)) <= 0;
    assert Encode(m)[2..] == Body(m) && (buf + future)[2..] == buf[2..] + future;
    match m
    case Tweet(text) => LongText(buf[2..], text, future);
    case WordRecord(words) => ShortWords(buf[2..], words);
  }

  lemma {:induction false} LongSession(kind: Kind, m: Message, buf: seq<byte>, chunks: seq<seq<byte>>)
    requires IsKind(m, kind) && 32767 < EncodedLen(m) <= MAX_DATA
    requires Small(chunks) && |buf| < 2 && buf + Join(chunks) == Encode(m)
    ensures Session(kind, buf, chunks) != Drained([m], [])
    decreases |chunks|
  {
    if chunks != [] {
      Shift(buf, chunks);
      if |buf + chunks[0]| < 2 {
        LongSession(kind, m, buf + chunks[0], chunks[1..]);
        WaitsFirst(kind, buf, chunks);
      } else {
        LongFirstLook(kind, m, buf, chunks);
      }
    }
  }

  lemma Shift(buf: seq<byte>, chunks: seq<seq<byte>>)
    requires chunks != []
    ensures buf + Join(chunks) == buf + chunks[0] + Join(chunks[1..])
  {
  }

  lemma LongFirstLook(kind: Kind, m: Message, buf: seq<byte>, chunks: seq<seq<byte>>)
    requires IsKind(m, kind) && 32767 < EncodedLen(m) <= MAX_DATA && chunks != []
    requires 2 <= |buf + chunks[0]| <= RECV_SIZE + 1 && buf + chunks[0] + Join(chunks[1..]) == Encode(m)
    ensures Session(kind, buf, chunks) != Drained([m], [])
  {
    LongLook(kind, m, buf + chunks[0], Join(chunks[1..]));
    FirstEmitted(kind, buf, chunks);
  }

  lemma WaitsFirst(kind: Kind, buf: seq<byte>, chunks: seq<seq<byte>>)
    requires chunks != [] && |buf + chunks[0]| < 2
    ensures Session(kind, buf, chunks) == Session(kind, buf + chunks[0], chunks[1..])
  {
    var next := buf + chunks[0];
    assert Drain(kind, next) == Drained([], next);
    if Session(kind, next, chunks[1..]).Drained? {
      assert [] + Session(kind, next, chunks[1..]).ms == Session(kind, next, chunks[1..]).ms;
    }
  }

  /** The first message that a drain takes out is the first one of the session. */
  lemma FirstEmitted(kind: Kind, buf: seq<byte>, chunks: seq<seq<byte>>)
    requires chunks != []
    ensures LookOnce(kind, buf + chunks[0]) == Broken ==> Session(kind, buf, chunks) == Crashed
    ensures LookOnce(kind, buf + chunks[0]).Emit? && Session(kind, buf, chunks).Drained? ==>
              var ms := Session(kind, buf, chunks).ms; ms != [] && ms[0] == LookOnce(kind, buf + chunks[0]).m
  {
  }

  /** No fragmentation into pieces of at most 2000 bytes lets a longer message through. */
  lemma LongMessageBreaks(kind: Kind, m: Message, chunks: seq<seq<byte>>)
    requires IsKind(m, kind) && 32767 < EncodedLen(m) <= MAX_DATA
    requires Small(chunks) && Join(chunks) == Encode(m)
    ensures Session(kind, [], chunks) != Drained([m], [])
  {
    assert [] + Join(chunks) == Join(chunks);
    LongSession(kind, m, [], chunks);
  }

  /**
   For a message that fits the sender's buffer: with pieces of at most 2000 bytes it survives every
   fragmentation when its encoding is at most 32767 bytes long, and none when it is longer.
   */
  lemma ReassembledExactlyWhen(kind: Kind, m: Message, chunks: seq<seq<byte>>)
    requires IsKind(m, kind) && EncodedLen(m) <= 65536 && Join(chunks) == Encode(m)
    requires forall i :: 0 <= i < |chunks| ==> |chunks[i]| <= 2000
    ensures Session(kind, [], chunks) == Drained([m], []) <==> EncodedLen(m) <= 32767
  {
    if EncodedLen(m) <= 32767 {
      assert EncodeAll([m]) == Encode(m);
      AnyFragmentationIsReassembled(kind, [m], chunks);
    } else {
      LongMessageBreaks(kind, m, chunks);
    }
  }
}
