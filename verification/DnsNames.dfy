/**
 Domain names in DNS messages (sections 3.1 and 4.1.4 of RFC 1035): labels in place, ended by the
 root or by a pointer to a name elsewhere in the message.
 */
module DnsNames {
  import opened WireFormat

  const DOT: byte := 46
  const JUMP_MARK: nat := 0xC0

  type Label = seq<byte>

  /** From `at`, labels and a terminator lie inside the message. */
  ghost predicate Segment(b: seq<byte>, at: nat)
    decreases |b| - at
  {
    && at < |b|
    && (0 < b[at] < JUMP_MARK ==> at + 1 + b[at] < |b| && Segment(b, at + 1 + b[at]))
    && (JUMP_MARK <= b[at] ==> at + 1 < |b|)
  }

  /** Offset of the terminator: a zero byte or a pointer. */
  ghost function SegmentEnd(b: seq<byte>, at: nat): (e: nat)
    requires Segment(b, at)
    ensures at <= e < |b| && (b[e] == 0 || (JUMP_MARK <= b[e] && e + 1 < |b|))
    decreases |b| - at
  {
    if 0 < b[at] < JUMP_MARK then SegmentEnd(b, at + 1 + b[at]) else at
  }

  /** The labels in front of the terminator. */
  ghost function SegmentLabels(b: seq<byte>, at: nat): seq<Label>
    requires Segment(b, at)
    decreases |b| - at
  {
    if 0 < b[at] < JUMP_MARK then [b[at + 1..at + 1 + b[at]]] + SegmentLabels(b, at + 1 + b[at]) else []
  }

  /** `load_BE_u16(..) & 0x3FFF` */
  function Target(b: seq<byte>, e: nat): nat
    requires e + 1 < |b|
  {
    U16(b[e], b[e + 1]) % 0x4000
  }

  /** The name at `at` is read to its end, inside the message, after following exactly `n` pointers. */
  ghost predicate ReadIn(b: seq<byte>, at: nat, n: nat)
    decreases n
  {
    && Segment(b, at)
    && var e := SegmentEnd(b, at);
       if b[e] == 0 then n == 0 else 0 < n && ReadIn(b, Target(b, e), n - 1)
  }

  /** Reading the name at `at` ends, and without leaving the message. */
  ghost predicate Ends(b: seq<byte>, at: nat) {
    exists n: nat :: ReadIn(b, at, n)
  }

  lemma {:induction false} ReadInIsUnique(b: seq<byte>, at: nat, n: nat, m: nat)
    requires ReadIn(b, at, n) && ReadIn(b, at, m)
    ensures n == m
    decreases n
  {
    if 0 < n {
      ReadInIsUnique(b, Target(b, SegmentEnd(b, at)), n - 1, m - 1);
    }
  }

  /** The number of pointers followed. */
  ghost function Hops(b: seq<byte>, at: nat): (n: nat)
    requires Ends(b, at)
    ensures ReadIn(b, at, n) && Segment(b, at)
  {
    var n: nat :| ReadIn(b, at, n);
    n
  }

  lemma HopsAre(b: seq<byte>, at: nat, n: nat)
    requires ReadIn(b, at, n)
    ensures Ends(b, at) && Hops(b, at) == n
  {
    ReadInIsUnique(b, at, n, Hops(b, at));
  }

  /** Following one pointer. */
  lemma EndsStep(b: seq<byte>, at: nat)
    requires Segment(b, at) && b[SegmentEnd(b, at)] != 0
    ensures var t := Target(b, SegmentEnd(b, at));
            && (Ends(b, at) <==> Ends(b, t))
            && (Ends(b, at) ==> Hops(b, at) == Hops(b, t) + 1)
  {
    var t := Target(b, SegmentEnd(b, at));
    if Ends(b, at) {
      HopsAre(b, t, Hops(b, at) - 1);
    }
    if Ends(b, t) {
      HopsAre(b, at, Hops(b, t) + 1);
    }
  }

  /** The labels of a name, with pointers followed. */
  ghost function Labels(b: seq<byte>, at: nat): seq<Label>
    requires Ends(b, at)
    decreases Hops(b, at)
  {
    var e := SegmentEnd(b, at);
    if b[e] == 0 then SegmentLabels(b, at)
    else
      EndsStep(b, at);
      SegmentLabels(b, at) + Labels(b, Target(b, e))
  }

  /** Bytes the name takes where it stands: through the zero byte, or through the pointer. */
  ghost function Extent(b: seq<byte>, at: nat): nat
    requires Segment(b, at)
  {
    var e := SegmentEnd(b, at);
    e - at + if b[e] == 0 then 1 else 2
  }

  function Joined(labels: seq<Label>): seq<byte> {
    if labels == [] then []
    else if |labels| == 1 then labels[0]
    else Joined(labels[..|labels| - 1]) + [DOT] + labels[|labels| - 1]
  }

  lemma {:induction false} JoinedConcat(a: seq<Label>, b: seq<Label>)
    requires a != [] && b != []
    ensures Joined(a + b) == Joined(a) + [DOT] + Joined(b)
    decreases |b|
  {
    var init := b[..|b| - 1];
    assert (a + b)[..|a + b| - 1] == a + init;
    if |b| == 1 {
      assert a + init == a;
    } else {
      JoinedConcat(a, init);
    }
  }

  /** A pointer behind at least one label leads, over more pointers or at once, to the root. */
  ghost predicate RootBehindLabel(b: seq<byte>, at: nat)
    requires Ends(b, at)
    decreases Hops(b, at)
  {
    var e := SegmentEnd(b, at);
    if b[e] == 0 then false
    else
      EndsStep(b, at);
      if Labels(b, Target(b, e)) == [] then SegmentLabels(b, at) != [] else RootBehindLabel(b, Target(b, e))
  }

  /** What the reader returns, segment by segment. */
  ghost function Text(b: seq<byte>, at: nat): seq<byte>
    requires Ends(b, at)
    decreases Hops(b, at)
  {
    var e, here := SegmentEnd(b, at), Joined(SegmentLabels(b, at));
    if b[e] == 0 then here
    else
      EndsStep(b, at);
      if e == at then Text(b, Target(b, e)) else here + [DOT] + Text(b, Target(b, e))
  }

  /** The loop over the labels in place; returns their text and the distance to the terminator. */
  method ReadSegment(b: seq<byte>, at: nat) returns (name: seq<byte>, i: nat)
    requires Segment(b, at)
    ensures name == Joined(SegmentLabels(b, at)) && at + i == SegmentEnd(b, at)
  {
    name, i := [], 0;
    var j := b[at];
    ghost var done: seq<Label>, pos := [], at;
    while j != 0 && j < JUMP_MARK
      invariant pos == at + i && Read(b, at, pos, done) && j == b[pos]
      invariant name == Joined(done) && (i == 0 <==> done == [])
      decreases |b| - i
    {
      ReadStep(b, at, pos, done);
      i := i + 1;
      var word := b[at + i..at + i + j];
      if i != 1 {
        name := name + [DOT];
      }
      name := name + word;
      JoinedSnoc(done, word);
      done, pos := done + [word], pos + 1 + j;
      i := i + |word|;
      j := b[at + i];
    }
    assert done + [] == done;
  }

  /** From `at` to `pos` the labels are `done`, and the rest of the segment follows. */
  ghost predicate Read(b: seq<byte>, at: nat, pos: nat, done: seq<Label>)
    requires Segment(b, at)
  {
    && Segment(b, pos) && SegmentEnd(b, pos) == SegmentEnd(b, at)
    && done + SegmentLabels(b, pos) == SegmentLabels(b, at)
  }

  lemma ReadStep(b: seq<byte>, at: nat, pos: nat, done: seq<Label>)
    requires Segment(b, at) && Read(b, at, pos, done) && 0 < b[pos] < JUMP_MARK
    ensures var next := pos + 1 + b[pos];
            next < |b| && Read(b, at, next, done + [b[pos + 1..next]])
  {
    SegmentStep(b, pos);
    var next := pos + 1 + b[pos];
    ExtendLabels(done, b[pos + 1..next], SegmentLabels(b, next));
  }

  lemma SegmentStep(b: seq<byte>, at: nat)
    requires Segment(b, at) && 0 < b[at] < JUMP_MARK
    ensures var next := at + 1 + b[at];
            && next < |b| && Segment(b, next) && SegmentEnd(b, at) == SegmentEnd(b, next)
            && SegmentLabels(b, at) == [b[at + 1..next]] + SegmentLabels(b, next)
  {
  }

  lemma JoinedSnoc(done: seq<Label>, word: Label)
    ensures Joined(done + [word]) == if done == [] then word else Joined(done) + [DOT] + word
  {
    assert (done + [word])[..|done|] == done;
  }

  lemma ExtendLabels(done: seq<Label>, word: Label, rest: seq<Label>)
    ensures done + ([word] + rest) == done + [word] + rest
  {
  }

  /**
   `read_dns_name`: `consumed` is a 16-bit counter that grows by the bytes occupied in place. Every name
   that ends is read, wherever its pointers go.
   */
  method ReadName(b: seq<byte>, at: nat, consumed: nat) returns (name: seq<byte>, consumed': nat)
    requires Ends(b, at)
    ensures name == Text(b, at)
    ensures consumed' == (consumed + Extent(b, at)) % 0x1_0000
    decreases Hops(b, at)
  {
    ghost var hops := Hops(b, at);
    if b[at] < JUMP_MARK {
      var i;
      name, i := ReadSegment(b, at);
      var e := at + i;
      if b[e] != 0 {
        EndsStep(b, at);
        consumed' := (consumed + i + 2) % 0x1_0000;
        var rest, _ := ReadName(b, Target(b, e), 0);
        name := name + [DOT] + rest;
      } else {
        consumed' := (consumed + i + 1) % 0x1_0000;
      }
    } else {
      EndsStep(b, at);
      name, consumed' := ReadName(b, Target(b, at), 0);
      consumed' := (consumed + 2) % 0x1_0000;
    }
  }

  /** The text is the labels joined by dots, and one dot more if a pointer behind a label leads to the root. */
  lemma {:induction false} TextIsJoinedLabels(b: seq<byte>, at: nat)
    requires Ends(b, at)
    ensures Text(b, at) == Joined(Labels(b, at)) + if RootBehindLabel(b, at) then [DOT] else []
    decreases Hops(b, at)
  {
    var e, here := SegmentEnd(b, at), SegmentLabels(b, at);
    if b[e] != 0 {
      var t := Target(b, e);
      EndsStep(b, at);
      TextIsJoinedLabels(b, t);
      NoLabelsNoDot(b, t);
      if here == [] {
        assert Labels(b, at) == Labels(b, t);
      } else {
        JoinedTail(here, Labels(b, t), RootBehindLabel(b, t));
      }
    }
  }

  lemma {:induction false} NoLabelsNoDot(b: seq<byte>, at: nat)
    requires Ends(b, at)
    ensures Labels(b, at) == [] ==> !RootBehindLabel(b, at)
    decreases Hops(b, at)
  {
    if b[SegmentEnd(b, at)] != 0 {
      EndsStep(b, at);
      NoLabelsNoDot(b, Target(b, SegmentEnd(b, at)));
    }
  }

  lemma JoinedTail(a: seq<Label>, b: seq<Label>, dot: bool)
    requires a != [] && (b == [] ==> !dot)
    ensures Joined(a + b) + (if b == [] || dot then [DOT] else [])
            == Joined(a) + [DOT] + (Joined(b) + if dot then [DOT] else [])
  {
    if b == [] {
      assert a + b == a;
    } else {
      JoinedConcat(a, b);
    }
  }

  /** The reader returns exactly the dot-joined labels unless a pointer behind a label leads to the root. */
  lemma ReadsTheLabelsExactlyWhen(b: seq<byte>, at: nat)
    requires Ends(b, at)
    ensures Text(b, at) == Joined(Labels(b, at)) <==> !RootBehindLabel(b, at)
  {
    TextIsJoinedLabels(b, at);
    if RootBehindLabel(b, at) {
      assert |Text(b, at)| == |Joined(Labels(b, at))| + 1;
    }
  }

  // ---------------------------------------------------------------------------------------------
  // Round trip with an encoder
  // ---------------------------------------------------------------------------------------------

  /**
   Labels as section 3.1 of RFC 1035 writes them: a length byte and the label. The section allows up to
   63 bytes; the reader takes up to 191.
   */
  function Encoded(labels: seq<Label>): seq<byte>
    requires forall i :: 0 <= i < |labels| ==> 0 < |labels[i]| < 192
  {
    if labels == [] then [] else [|labels[0]|] + labels[0] + Encoded(labels[1..])
  }

  lemma CutLabel(b: seq<byte>, at: nat, e: nat, l: Label, rest: seq<byte>)
    requires |l| < 192 && at <= e <= |b| && b[at..e] == [|l|] + l + rest
    ensures at + 1 + |l| <= e && b[at] == |l| && b[at + 1..at + 1 + |l|] == l && b[at + 1 + |l|..e] == rest
  {
    var s: seq<byte> := [|l|] + l + rest;
    assert s[0] == |l| && s[1..1 + |l|] == l && s[1 + |l|..] == rest;
    assert |b[at..e]| == e - at && b[at] == b[at..e][0];
    SliceOfSlice(b, at, e, 1, 1 + |l|);
    SliceOfSlice(b, at, e, 1 + |l|, e - at);
  }

  lemma PrependLabel(b: seq<byte>, at: nat, l: Label, next: nat)
    requires 0 < |l| < 192 && next == at + 1 + |l| < |b| && b[at] == |l| && b[at + 1..next] == l && Segment(b, next)
    ensures Segment(b, at) && SegmentEnd(b, at) == SegmentEnd(b, next)
    ensures SegmentLabels(b, at) == [l] + SegmentLabels(b, next)
  {
  }

  lemma {:induction false} EncodedSegment(b: seq<byte>, at: nat, labels: seq<Label>)
    requires forall i :: 0 <= i < |labels| ==> 0 < |labels[i]| < 192
    requires var e := at + |Encoded(labels)|;
             && e < |b| && b[at..e] == Encoded(labels)
             && (b[e] == 0 || (JUMP_MARK <= b[e] && e + 1 < |b|))
    ensures Segment(b, at) && SegmentEnd(b, at) == at + |Encoded(labels)| && SegmentLabels(b, at) == labels
    decreases |labels|
  {
    if labels != [] {
      var next := at + 1 + |labels[0]|;
      CutLabel(b, at, at + |Encoded(labels)|, labels[0], Encoded(labels[1..]));
      EncodedSegment(b, next, labels[1..]);
      PrependLabel(b, at, labels[0], next);
      assert [labels[0]] + labels[1..] == labels;
    }
  }

  /** Labels written in full read back as their dotted form, and the reader consumes what was written. */
  lemma NameRoundTrip(b: seq<byte>, at: nat, labels: seq<Label>)
    requires forall i :: 0 <= i < |labels| ==> 0 < |labels[i]| < 192
    requires at + |Encoded(labels)| < |b| && b[at..at + |Encoded(labels)|] == Encoded(labels)
    requires b[at + |Encoded(labels)|] == 0
    ensures Ends(b, at) && Labels(b, at) == labels
    ensures Text(b, at) == Joined(labels) && Extent(b, at) == |Encoded(labels)| + 1
  {
    EncodedSegment(b, at, labels);
    HopsAre(b, at, 0);
  }

  /** A pointer as section 4.1.4 of RFC 1035 writes it: two bits set, and the offset in the other fourteen. */
  ghost predicate PointsTo(b: seq<byte>, e: nat, t: nat) {
    t < 0x4000 && e + 1 < |b| && b[e] as int == 0xC0 + t / 256 && b[e + 1] as int == t % 256
  }

  lemma PointerTarget(b: seq<byte>, e: nat, t: nat)
    requires PointsTo(b, e, t)
    ensures JUMP_MARK <= b[e] && Target(b, e) == t
  {
    assert U16(b[e], b[e + 1]) == 3 * 0x4000 + t;
  }

  /** The same for labels that continue with another name of the message, before or behind them. */
  lemma CompressedRoundTrip(b: seq<byte>, at: nat, labels: seq<Label>, t: nat)
    requires forall i :: 0 <= i < |labels| ==> 0 < |labels[i]| < 192
    requires at + |Encoded(labels)| < |b| && b[at..at + |Encoded(labels)|] == Encoded(labels)
    requires PointsTo(b, at + |Encoded(labels)|, t)
    requires Ends(b, t) && Labels(b, t) != [] && !RootBehindLabel(b, t)
    ensures Ends(b, at) && Labels(b, at) == labels + Labels(b, t)
    ensures Text(b, at) == Joined(labels + Labels(b, t)) && Extent(b, at) == |Encoded(labels)| + 2
  {
    PointerTarget(b, at + |Encoded(labels)|, t);
    EncodedSegment(b, at, labels);
    EndsStep(b, at);
    TextIsJoinedLabels(b, at);
  }

  /** Every two bytes from 0xC0 0x00 on point somewhere, and to one place only. */
  lemma PointersAreUnique(b: seq<byte>, e: nat)
    requires e + 1 < |b| && 0xC0 <= b[e]
    ensures PointsTo(b, e, Target(b, e)) && forall t: nat :: PointsTo(b, e, t) ==> t == Target(b, e)
  {
    var t := (b[e] as int - 0xC0) * 256 + b[e + 1] as int;
    assert t / 256 == b[e] as int - 0xC0 && t % 256 == b[e + 1] as int;
    PointerTarget(b, e, t);
    forall u: nat | PointsTo(b, e, u) ensures u == t {
      PointerTarget(b, e, u);
    }
  }

  // ---------------------------------------------------------------------------------------------
  // The dotted form
  // ---------------------------------------------------------------------------------------------

  /** Cuts a text at every byte 46, the full stop. */
  function SplitAtDots(text: seq<byte>): (r: seq<Label>)
    ensures r != []
  {
    if text == [] then [[]]
    else if text[|text| - 1] == 46 then SplitAtDots(text[..|text| - 1]) + [[]]
    else
      var r := SplitAtDots(text[..|text| - 1]);
      r[|r| - 1 := r[|r| - 1] + [text[|text| - 1]]]
  }

  lemma {:induction false} SplitExtends(text: seq<byte>, more: seq<byte>)
    requires 46 !in more
    ensures var r := SplitAtDots(text);
            SplitAtDots(text + more) == r[|r| - 1 := r[|r| - 1] + more]
    decreases |more|
  {
    var r := SplitAtDots(text);
    if more == [] {
      assert text + more == text && r[|r| - 1] + more == r[|r| - 1];
    } else {
      var init, x := more[..|more| - 1], more[|more| - 1];
      assert (text + more)[..|text + more| - 1] == text + init && (text + more)[|text + more| - 1] == x;
      SplitExtends(text, init);
      assert r[|r| - 1] + init + [x] == r[|r| - 1] + more;
    }
  }

  /** Labels without a full stop can be told apart again in their dotted form. */
  lemma {:induction false} SplitJoined(labels: seq<Label>)
    requires labels != [] && forall i :: 0 <= i < |labels| ==> 46 !in labels[i]
    ensures SplitAtDots(Joined(labels)) == labels
    decreases |labels|
  {
    var init, last := labels[..|labels| - 1], labels[|labels| - 1];
    if |labels| == 1 {
      SplitExtends([], last);
      assert [] + last == last && labels == [last];
    } else {
      var dotted := Joined(init) + [DOT];
      SplitJoined(init);
      assert dotted[..|dotted| - 1] == Joined(init) && dotted[|dotted| - 1] == 46;
      assert SplitAtDots(dotted) == SplitAtDots(Joined(init)) + [[]];
      SplitExtends(dotted, last);
      assert [] + last == last && init + [last] == labels;
      assert (init + [[]])[|init| := last] == init + [last];
    }
  }

  // ---------------------------------------------------------------------------------------------
  // When reading ends
  // ---------------------------------------------------------------------------------------------

  /** The part of a name at `x` ends in a pointer to `y`. */
  ghost predicate Follows(b: seq<byte>, x: nat, y: nat) {
    Segment(b, x) && b[SegmentEnd(b, x)] != 0 && Target(b, SegmentEnd(b, x)) == y
  }

  /** Offsets that pointers lead through, one after the other. */
  ghost predicate Chain(b: seq<byte>, path: seq<nat>) {
    path != [] && forall i :: 0 <= i < |path| - 1 ==> Follows(b, path[i], path[i + 1])
  }

  predicate NoRepeat(path: seq<nat>) {
    forall i, j :: 0 <= i < j < |path| ==> path[i] != path[j]
  }

  /** No pointers from `at` lead out of the message or twice to the same place. */
  ghost predicate Straight(b: seq<byte>, at: nat) {
    forall path :: Chain(b, path) && path[0] == at ==> Segment(b, path[|path| - 1]) && NoRepeat(path)
  }

  /** Reading ends exactly when the pointers stay in the message and never come back to where they were. */
  lemma EndsExactlyWhen(b: seq<byte>, at: nat)
    ensures Ends(b, at) <==> Straight(b, at)
  {
    if Ends(b, at) {
      forall path | Chain(b, path) && path[0] == at ensures Segment(b, path[|path| - 1]) && NoRepeat(path) {
        ChainNoRepeat(b, path);
      }
    } else if Straight(b, at) {
      ChainEnds(b, at, [at]);
    }
  }

  /** Along a chain from a name that ends, the number of pointers left falls by one at each step. */
  lemma {:induction false} HopsFall(b: seq<byte>, path: seq<nat>, i: nat)
    requires Chain(b, path) && Ends(b, path[0]) && i < |path|
    ensures Ends(b, path[i]) && Hops(b, path[i]) + i == Hops(b, path[0])
    decreases i
  {
    if 0 < i {
      HopsFall(b, path, i - 1);
      assert Follows(b, path[i - 1], path[i - 1 + 1]);
      EndsStep(b, path[i - 1]);
    }
  }

  lemma ChainNoRepeat(b: seq<byte>, path: seq<nat>)
    requires Chain(b, path) && Ends(b, path[0])
    ensures Segment(b, path[|path| - 1]) && NoRepeat(path)
  {
    HopsFall(b, path, |path| - 1);
    forall i, j | 0 <= i < j < |path| ensures path[i] != path[j] {
      HopsFall(b, path, i);
      HopsFall(b, path, j);
    }
  }

  lemma ExtendChain(b: seq<byte>, path: seq<nat>, t: nat)
    requires Chain(b, path) && Follows(b, path[|path| - 1], t)
    ensures Chain(b, path + [t])
  {
    var longer := path + [t];
    forall i | 0 <= i < |longer| - 1 ensures Follows(b, longer[i], longer[i + 1]) {
      if i < |path| - 1 {
        assert Follows(b, path[i], path[i + 1]);
      }
    }
  }

  /** A chain in a straight name cannot be longer than the message, so following it ends. */
  lemma {:induction false} ChainEnds(b: seq<byte>, at: nat, path: seq<nat>)
    requires Straight(b, at) && Chain(b, path) && path[0] == at
    ensures Ends(b, path[|path| - 1])
    decreases |b| - |path|
  {
    var last := path[|path| - 1];
    var e := SegmentEnd(b, last);
    if b[e] == 0 {
      HopsAre(b, last, 0);
    } else {
      var longer := path + [Target(b, e)];
      ExtendChain(b, path, Target(b, e));
      ChainFits(b, longer);
      ChainEnds(b, at, longer);
      EndsStep(b, last);
    }
  }

  lemma ChainFits(b: seq<byte>, path: seq<nat>)
    requires Chain(b, path) && Segment(b, path[|path| - 1]) && NoRepeat(path)
    ensures |path| <= |b|
  {
    forall i | 0 <= i < |path| ensures path[i] < |b| {
      assert i < |path| - 1 ==> Follows(b, path[i], path[i + 1]);
    }
    Pigeonhole(path, |b|);
  }

  lemma {:induction false} Pigeonhole(path: seq<nat>, n: nat)
    requires NoRepeat(path) && forall i :: 0 <= i < |path| ==> path[i] < n
    ensures |path| <= n
    decreases n
  {
    if path != [] {
      assert path[0] < n;
      if i :| 0 <= i < |path| && path[i] == n - 1 {
        Pigeonhole(path[..i] + path[i + 1..], n - 1);
      } else {
        Pigeonhole(path, n - 1);
      }
    }
  }

  /** So a bounded search decides it: fewer pointers are followed than the message has bytes. */
  lemma FewerHopsThanBytes(b: seq<byte>, at: nat)
    requires Ends(b, at)
    ensures Hops(b, at) < |b|
  {
    var path := PathOf(b, at);
    ChainNoRepeat(b, path);
    ChainFits(b, path);
  }

  lemma {:induction false} PathOf(b: seq<byte>, at: nat) returns (path: seq<nat>)
    requires Ends(b, at)
    ensures Chain(b, path) && path[0] == at && |path| == Hops(b, at) + 1
    decreases Hops(b, at)
  {
    path := [at];
    if b[SegmentEnd(b, at)] != 0 {
      EndsStep(b, at);
      var rest := PathOf(b, Target(b, SegmentEnd(b, at)));
      path := [at] + rest;
      forall i | 0 <= i < |path| - 1 ensures Follows(b, path[i], path[i + 1]) {
        assert 0 < i ==> Follows(b, rest[i - 1], rest[i - 1 + 1]);
      }
    }
  }

  /** A name whose pointers all go back, each to before the part of the name it ends. */
  ghost predicate Backward(b: seq<byte>, at: nat)
    decreases at
  {
    && Segment(b, at)
    && var e := SegmentEnd(b, at);
       b[e] != 0 ==> Target(b, e) < at && Backward(b, Target(b, e))
  }

  /** Pointers as section 4.1.4 of RFC 1035 has them, to prior occurrences, always end. */
  lemma {:induction false} BackwardNamesEnd(b: seq<byte>, at: nat)
    requires Backward(b, at)
    ensures Ends(b, at) && Hops(b, at) <= at
    decreases at
  {
    var e := SegmentEnd(b, at);
    if b[e] == 0 {
      HopsAre(b, at, 0);
    } else {
      BackwardNamesEnd(b, Target(b, e));
      EndsStep(b, at);
    }
  }

  /** No name on a cycle of pointers of any length, one included, is read to its end. */
  lemma CyclesNeverEnd(b: seq<byte>, path: seq<nat>)
    requires Chain(b, path) && 1 < |path| && path[0] == path[|path| - 1]
    ensures !Ends(b, path[0])
  {
    if Ends(b, path[0]) {
      HopsFall(b, path, |path| - 1);
    }
  }

  lemma SelfPointerNeverEnds(b: seq<byte>, at: nat)
    requires Follows(b, at, at)
    ensures !Ends(b, at)
  {
    CyclesNeverEnd(b, [at, at]);
  }

  /** Two names that point to each other. */
  lemma TwoCycle(b: seq<byte>)
    requires b == [0xC0, 2, 0xC0, 0]
    ensures !Ends(b, 0) && !Ends(b, 2)
  {
    assert Follows(b, 0, 2) && Follows(b, 2, 0);
    CyclesNeverEnd(b, [0, 2, 0]);
    CyclesNeverEnd(b, [2, 0, 2]);
  }

  /** A pointer that goes forward and is read all the same. */
  lemma ForwardPointer(b: seq<byte>)
    requires b == [0xC0, 2, 1, 97, 0]
    ensures !Backward(b, 0) && Ends(b, 0) && Text(b, 0) == [97] && Extent(b, 0) == 2
  {
    assert Segment(b, 4) && Segment(b, 2) && Follows(b, 0, 2);
    assert SegmentLabels(b, 4) == [] && b[3..4] == [97] && SegmentLabels(b, 2) == [[97]];
    HopsAre(b, 2, 0);
    EndsStep(b, 0);
  }
}
