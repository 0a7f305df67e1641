/**
 The wire format of serialised messages, on values: a 16-bit total length followed by a body of
 length-prefixed strings, and the reader that cuts a byte stream back into messages.
 */
module WireFormat {
  import opened Options

  type byte = b: nat | b < 256 witness 0

  /** Capacity of a serialisation buffer. */
  const MAX_DATA: nat := 65536

  /** `htons((uint16_t) v)`; a negative `int` is truncated like any other. */
  function Be16(v: int): (r: seq<byte>)
    ensures |r| == 2
  {
    [v / 256 % 256, v % 256]
  }

  function U16(hi: nat, lo: nat): nat { hi * 256 + lo }

  /** `(int) (int16_t) ntohs(..)`: the unsigned value is sign-extended. */
  function Signed16(b: seq<byte>): int
    requires |b| >= 2
  {
    var u := U16(b[0], b[1]);
    if u < 0x8000 then u else u - 0x1_0000
  }

  function Be32(v: int): (r: seq<byte>)
    ensures |r| == 4
  {
    Be16(v / 0x1_0000) + Be16(v)
  }

  function Signed32(b: seq<byte>): int
    requires |b| >= 4
  {
    var u := U16(b[0], b[1]) * 0x1_0000 + U16(b[2], b[3]);
    if u < 0x8000_0000 then u else u - 0x1_0000_0000
  }

  /** Every `int16_t` reads back unchanged, and a larger length reads as negative or zero. */
  lemma Be16RoundTrip(v: int, more: seq<byte>)
    requires -0x8000 <= v <= 65536
    ensures Signed16(Be16(v) + more) == if v < 0x8000 then v else if v < 0x1_0000 then v - 0x1_0000 else 0
  {
  }

  lemma Be32RoundTrip(v: int, more: seq<byte>)
    requires -0x8000_0000 <= v < 0x8000_0000
    ensures Signed32(Be32(v) + more) == v
  {
    var hi, lo := v / 0x1_0000, v % 0x1_0000;
    var b := Be32(v) + more;
    assert b[0] == hi / 256 % 256 && b[1] == hi % 256 && b[2] == v / 256 % 256 && b[3] == v % 256;
    LowHalf(v);
    Halves(hi);
    Halves(lo);
  }

  lemma LowHalf(v: int)
    ensures v / 256 % 256 == v % 0x1_0000 / 256 && v % 256 == v % 0x1_0000 % 256
  {
    var hi, lo := v / 0x1_0000, v % 0x1_0000;
    LastByte(v, hi * 256 + lo / 256, lo % 256);
    LastByte(v / 256, hi, lo / 256);
  }

  lemma LastByte(v: int, k: int, r: nat)
    requires v == k * 256 + r && r < 256
    ensures v / 256 == k && v % 256 == r
  {
  }

  lemma Halves(v: int)
    requires -0x8000 <= v < 0x1_0000
    ensures U16(v / 256 % 256, v % 256) == if v < 0 then v + 0x1_0000 else v
  {
  }

  lemma SliceOfSlice(b: seq<byte>, at: nat, e: nat, i: nat, j: nat)
    requires i <= j && at + j <= e <= |b|
    ensures b[at..e][i..j] == b[at + i..at + j]
  {
    var whole, part := b[at..e], b[at + i..at + j];
    assert forall k :: 0 <= k < j - i ==> whole[i..j][k] == whole[i + k] == b[at + (i + k)] == part[k];
  }

  // ---------------------------------------------------------------------------------------------
  // Messages and their encoding
  // ---------------------------------------------------------------------------------------------

  datatype Message = WordRecord(words: seq<seq<byte>>) | Tweet(text: seq<byte>)

  /** The message type a source was configured for. */
  datatype Kind = Words | Text

  predicate IsKind(m: Message, kind: Kind) { if kind == Words then m.WordRecord? else m.Tweet? }

  /** `put_data` */
  function EncodeString(s: seq<byte>): seq<byte> { Be16(|s|) + s }

  function EncodeStrings(ss: seq<seq<byte>>): seq<byte> {
    if ss == [] then [] else EncodeString(ss[0]) + EncodeStrings(ss[1..])
  }

  function Body(m: Message): seq<byte> {
    match m
    case WordRecord(words) => Be32(|words|) + EncodeStrings(words)
    case Tweet(text) => EncodeString(text)
  }

  function EncodedLen(m: Message): nat { 2 + |Body(m)| }

  /** `serialize` followed by `finalize`. */
  function Encode(m: Message): (r: seq<byte>)
    ensures |r| == EncodedLen(m)
  {
    Be16(EncodedLen(m)) + Body(m)
  }

  function EncodeAll(ms: seq<Message>): seq<byte> {
    if ms == [] then [] else Encode(ms[0]) + EncodeAll(ms[1..])
  }

  // ---------------------------------------------------------------------------------------------
  // Decoding
  // ---------------------------------------------------------------------------------------------

  /** `Fault` is a failed cursor assertion or a read past the end of the data. */
  datatype Parsed<T> = Got(value: T, rest: seq<byte>) | Fault

  /** `consume_all_data_into_string` */
  function GetString(b: seq<byte>): Parsed<seq<byte>> {
    if |b| < 2 then Fault
    else
      var n := Signed16(b);
      if n < 0 || n > |b| - 2 then Fault else Got(b[2..2 + n], b[2 + n..])
  }

  function GetStrings(b: seq<byte>, n: nat): Parsed<seq<seq<byte>>> {
    if n == 0 then Got([], b)
    else match GetString(b)
      case Fault => Fault
      case Got(s, rest) =>
        match GetStrings(rest, n - 1)
        case Fault => Fault
        case Got(ss, rest') => Got([s] + ss, rest')
  }

  /** `build_same` */
  function Build(kind: Kind, b: seq<byte>): Parsed<Message> {
    match kind
    case Text =>
      (match GetString(b)
       case Fault => Fault
       case Got(s, rest) => Got(Tweet(s), rest))
    case Words =>
      if |b| == 0 then Got(WordRecord([]), b)
      else if |b| < 4 then Fault
      else
        var n := Signed32(b);
        match GetStrings(b[4..], if n < 0 then 0 else n)
        case Fault => Fault
        case Got(ss, rest) => Got(WordRecord(ss), rest)
  }

  lemma StringRoundTrip(s: seq<byte>, more: seq<byte>)
    requires |s| < 0x8000
    ensures GetString(EncodeString(s) + more) == Got(s, more)
  {
    var b := EncodeString(s) + more;
    assert b == Be16(|s|) + (s + more);
    Be16RoundTrip(|s|, s + more);
    assert b[2..2 + |s|] == s && b[2 + |s|..] == more;
  }

  lemma {:induction false} StringsRoundTrip(ss: seq<seq<byte>>, more: seq<byte>)
    requires |EncodeStrings(ss)| < 0x8000
    ensures GetStrings(EncodeStrings(ss) + more, |ss|) == Got(ss, more)
    decreases |ss|
  {
    if ss == [] {
      assert [] + more == more;
    } else {
      assert EncodeStrings(ss) + more == EncodeString(ss[0]) + (EncodeStrings(ss[1..]) + more);
      StringRoundTrip(ss[0], EncodeStrings(ss[1..]) + more);
      StringsRoundTrip(ss[1..], more);
      assert [ss[0]] + ss[1..] == ss;
    }
  }

  lemma {:induction false} StringsLen(ss: seq<seq<byte>>)
    ensures 2 * |ss| <= |EncodeStrings(ss)|
    decreases |ss|
  {
    if ss != [] {
      StringsLen(ss[1..]);
    }
  }

  /** Decoding a body gives the message back and consumes exactly the bytes of that body. */
  lemma BuildRoundTrip(m: Message, kind: Kind, more: seq<byte>)
    requires IsKind(m, kind) && EncodedLen(m) <= 32767
    ensures Build(kind, Body(m) + more) == Got(m, more)
  {
    match m
    case Tweet(text) => StringRoundTrip(text, more);
    case WordRecord(words) => WordsRoundTrip(words, more);
  }

  lemma WordsRoundTrip(words: seq<seq<byte>>, more: seq<byte>)
    requires EncodedLen(WordRecord(words)) <= 32767
    ensures Build(Words, Body(WordRecord(words)) + more) == Got(WordRecord(words), more)
  {
    var strings := EncodeStrings(words) + more;
    var b := Be32(|words|) + strings;
    assert Body(WordRecord(words)) + more == b && b[4..] == strings;
    StringsLen(words);
    Be32RoundTrip(|words|, strings);
    StringsRoundTrip(words, more);
  }

  // ---------------------------------------------------------------------------------------------
  // The bytes of an encoding
  // ---------------------------------------------------------------------------------------------

  lemma Be16Bytes(v: int)
    ensures Be16(v)[0] as int * 256 + Be16(v)[1] as int == v % 0x1_0000
  {
  }

  lemma Be32Bytes(v: int)
    ensures var b := Be32(v);
            ((b[0] as int * 256 + b[1] as int) * 256 + b[2] as int) * 256 + b[3] as int == v % 0x1_0000_0000
  {
    Be16Bytes(v / 0x1_0000);
    Be16Bytes(v);
    TwoHalves(v);
  }

  lemma TwoHalves(v: int)
    ensures (v / 0x1_0000 % 0x1_0000) * 0x1_0000 + v % 0x1_0000 == v % 0x1_0000_0000
  {
    var hi := v / 0x1_0000;
    Remainder(v, hi / 0x1_0000, (hi % 0x1_0000) * 0x1_0000 + v % 0x1_0000);
  }

  lemma Remainder(v: int, k: int, r: int)
    requires v == k * 0x1_0000_0000 + r && 0 <= r < 0x1_0000_0000
    ensures v % 0x1_0000_0000 == r
  {
  }

  /** Where word `i` of a record starts: behind the total length, the word count and the words before it. */
  function WordOffset(words: seq<seq<byte>>, i: nat): nat
    requires i <= |words|
  {
    if i == 0 then 6 else WordOffset(words, i - 1) + 2 + |words[i - 1]|
  }

  /** `b` holds word `w` at `o`: its length, high byte first, and then its bytes. */
  ghost predicate WordAt(b: seq<byte>, o: nat, w: seq<byte>) {
    o + 2 + |w| <= |b| && b[o] as int * 256 + b[o + 1] as int == |w| && b[o + 2..o + 2 + |w|] == w
  }

  /** The bytes that go over the wire for `m`: every number has its most significant byte first. */
  ghost predicate Layout(b: seq<byte>, m: Message) {
    && 4 <= |b| && b[0] as int * 256 + b[1] as int == |b|
    && match m
       case Tweet(text) => |b| == 4 + |text| && WordAt(b, 2, text)
       case WordRecord(words) =>
         && |b| == WordOffset(words, |words|)
         && 6 <= |b| && ((b[2] as int * 256 + b[3] as int) * 256 + b[4] as int) * 256 + b[5] as int == |words|
         && forall i :: 0 <= i < |words| ==> WordAt(b, WordOffset(words, i), words[i])
  }

  lemma StringAt(before: seq<byte>, w: seq<byte>, after: seq<byte>)
    requires |w| < 0x1_0000
    ensures WordAt(before + EncodeString(w) + after, |before|, w)
  {
    Be16Bytes(|w|);
    var b, o := before + EncodeString(w) + after, |before|;
    assert b[o] == Be16(|w|)[0] && b[o + 1] == Be16(|w|)[1] && b[o + 2..o + 2 + |w|] == w;
  }

  /** The words of a record one after the other, `before` standing in front of them. */
  lemma {:induction false} WordsAt(before: seq<byte>, words: seq<seq<byte>>, k: nat)
    requires k <= |words| && |before| == WordOffset(words, k) && |before + EncodeStrings(words[k..])| < 0x1_0000
    ensures var b := before + EncodeStrings(words[k..]);
            && |b| == WordOffset(words, |words|)
            && forall i :: k <= i < |words| ==> WordAt(b, WordOffset(words, i), words[i])
    decreases |words| - k
  {
    if k < |words| {
      var w, rest := words[k], EncodeStrings(words[k + 1..]);
      assert words[k..][1..] == words[k + 1..];
      assert before + (EncodeString(w) + rest) == before + EncodeString(w) + rest;
      StringAt(before, w, rest);
      WordsAt(before + EncodeString(w), words, k + 1);
    }
  }

  lemma TweetLayout(text: seq<byte>)
    requires EncodedLen(Tweet(text)) < 0x1_0000
    ensures Layout(Encode(Tweet(text)), Tweet(text))
  {
    var head := Be16(4 + |text|);
    Be16Bytes(4 + |text|);
    StringAt(head, text, []);
    assert head + EncodeString(text) + [] == Encode(Tweet(text));
  }

  lemma WordsLayout(words: seq<seq<byte>>)
    requires EncodedLen(WordRecord(words)) < 0x1_0000
    ensures Layout(Encode(WordRecord(words)), WordRecord(words))
  {
    var m := WordRecord(words);
    var front := Be16(EncodedLen(m)) + Be32(|words|);
    assert front + EncodeStrings(words) == Encode(m);
    StringsLen(words);
    CountLayout(Encode(m), EncodedLen(m), |words|, EncodeStrings(words));
    assert words[0..] == words;
    WordsAt(front, words, 0);
  }

  lemma CountLayout(b: seq<byte>, len: nat, count: nat, strings: seq<byte>)
    requires b == Be16(len) + Be32(count) + strings && len < 0x1_0000 && count < 0x1_0000
    ensures b[0] as int * 256 + b[1] as int == len
    ensures ((b[2] as int * 256 + b[3] as int) * 256 + b[4] as int) * 256 + b[5] as int == count
  {
    Be16Bytes(len);
    Be32Bytes(count);
  }

  /** What an encoding looks like on the wire, for every message whose length fits the length field. */
  lemma EncodingLayout(m: Message)
    requires EncodedLen(m) < 0x1_0000
    ensures Layout(Encode(m), m)
  {
    match m
    case Tweet(text) => TweetLayout(text);
    case WordRecord(words) => WordsLayout(words);
  }
}
