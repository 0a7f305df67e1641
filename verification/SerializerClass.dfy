/**
 The serialisation buffer as an object: one array of 65536 bytes with a data and a tail cursor (the head
 is index 0). The cursor assertions of the program are the preconditions of the methods.
 */
module SerializerClass {
  import opened WireFormat

  class Serializer {
    const buf: array<byte>
    var data: nat
    var tail: nat

    ghost predicate Valid()
      reads this
    {
      buf.Length == MAX_DATA && data <= tail <= MAX_DATA
    }

    /** The bytes between the cursors. */
    ghost function View(): seq<byte>
      requires Valid()
      reads this, buf
    {
      buf[data..tail]
    }

    constructor ()
      ensures Valid() && fresh(buf) && data == 0 && |View()| == 2
    {
      buf := new byte[MAX_DATA](_ => 0);
      data, tail := 0, 2;
    }

    /** Clears the buffer and leaves room for the length field, whose two bytes are not initialised. */
    method Reset()
      requires Valid()
      modifies this
      ensures Valid() && data == 0 && |View()| == 2
    {
      Empty();
      Put(2);
    }

    method Empty()
      requires Valid()
      modifies this
      ensures Valid() && data == 0 && View() == []
    {
      data, tail := 0, 0;
    }

    method Put(offset: nat)
      requires Valid() && tail + offset <= MAX_DATA
      modifies this
      ensures Valid() && data == old(data) && tail == old(tail) + offset
    {
      tail := tail + offset;
    }

    /** The assertion of the program measures from the head: it lets the data cursor pass the tail. */
    method Consume(offset: nat)
      requires Valid() && offset <= tail
      modifies this
      ensures data == old(data) + offset && tail == old(tail)
      ensures data <= tail <==> Valid()
      ensures data <= tail ==> View() == old(View())[offset..]
    {
      data := data + offset;
    }

    /** `memmove` of the data to the head of the buffer. */
    method Compact()
      requires Valid()
      modifies this, buf
      ensures Valid() && data == 0 && View() == old(View())
    {
      var len := tail - data;
      for i := 0 to len
        modifies buf
        invariant forall j :: 0 <= j < i ==> buf[j] == old(buf[data + j])
        invariant forall j :: data + i <= j < tail ==> buf[j] == old(buf[j])
      {
        buf[i] := buf[data + i];
      }
      data := 0;
      tail := len;
    }

    method PutInt16(v: int)
      requires Valid() && tail + 2 <= MAX_DATA
      modifies this, buf
      ensures Valid() && data == old(data) && View() == old(View()) + Be16(v)
      ensures var n := |old(View())|; View()[n] as int * 256 + View()[n + 1] as int == v % 0x1_0000
    {
      Be16Bytes(v);
      buf[tail] := v / 256 % 256;
      buf[tail + 1] := v % 256;
      tail := tail + 2;
    }

    method PutInt32(v: int)
      requires Valid() && tail + 4 <= MAX_DATA
      modifies this, buf
      ensures Valid() && data == old(data) && View() == old(View()) + Be32(v)
      ensures var b, n := View(), |old(View())|;
              ((b[n] as int * 256 + b[n + 1] as int) * 256 + b[n + 2] as int) * 256 + b[n + 3] as int == v % 0x1_0000_0000
    {
      Be32Bytes(v);
      PutInt16(v / 0x1_0000);
      PutInt16(v);
    }

    method PutRawData(bytes: seq<byte>)
      requires Valid() && tail + |bytes| <= MAX_DATA
      modifies this, buf
      ensures Valid() && data == old(data) && View() == old(View()) + bytes
    {
      for i := 0 to |bytes|
        modifies buf
        invariant buf[data..tail] == old(View())
        invariant buf[tail..tail + i] == bytes[..i]
      {
        buf[tail + i] := bytes[i];
      }
      assert buf[data..tail + |bytes|] == buf[data..tail] + buf[tail..tail + |bytes|];
      tail := tail + |bytes|;
    }

    method PutData(bytes: seq<byte>)
      requires Valid() && tail + 2 + |bytes| <= MAX_DATA
      modifies this, buf
      ensures Valid() && data == old(data) && View() == old(View()) + EncodeString(bytes)
    {
      PutInt16(|bytes|);
      PutRawData(bytes);
    }

    method ConsumeInt32() returns (v: int)
      requires Valid() && data + 4 <= tail
      modifies this
      ensures Valid() && v == Signed32(old(View())) && View() == old(View())[4..]
      ensures var b := old(View());
              var u := ((b[0] as int * 256 + b[1] as int) * 256 + b[2] as int) * 256 + b[3] as int;
              v == if u < 0x8000_0000 then u else u - 0x1_0000_0000
    {
      var u: int := U16(buf[data], buf[data + 1]) * 0x1_0000 + U16(buf[data + 2], buf[data + 3]);
      data := data + 4;
      v := if u < 0x8000_0000 then u else u - 0x1_0000_0000;
    }

    method ConsumeInt16() returns (v: int)
      requires Valid() && data + 2 <= tail
      modifies this
      ensures Valid() && v == Signed16(old(View())) && View() == old(View())[2..] && data == old(data) + 2
      ensures tail == old(tail)
    {
      v := GetInt16(0);
      data := data + 2;
    }

    /**
     Reading the string length and the string. Only the length field is checked against the tail: a
     string that runs past it is made up of whatever the buffer holds there.
     */
    method ConsumeString() returns (s: seq<byte>)
      requires Valid() && data + 2 <= tail && 0 <= Signed16(View()) <= MAX_DATA - data - 2
      modifies this
      ensures |s| == Signed16(old(View())) && data == old(data) + 2 + |s| && s == buf[old(data) + 2..data]
      ensures tail == old(tail) && (data <= tail <==> Valid()) && (data <= tail <==> GetString(old(View())).Got?)
      ensures data <= tail ==> GetString(old(View())) == Got(s, View())
    {
      ghost var all, start := buf[..], data;
      var len := ConsumeInt16();
      s := buf[data..data + len];
      data := data + len;
      if data <= tail {
        assert old(View()) == all[start..tail] && s == all[start + 2..data] && View() == all[data..tail];
        SliceOfSlice(all, start, tail, 2, 2 + len);
        SliceOfSlice(all, start, tail, 2 + len, tail - start);
      }
    }

    /** The same for a string that is there as a whole. */
    method ConsumeWholeString() returns (s: seq<byte>)
      requires Valid() && GetString(View()).Got?
      modifies this
      ensures Valid() && GetString(old(View())) == Got(s, View())
    {
      s := ConsumeString();
    }

    method SetInt16(v: int, offset: nat)
      requires Valid() && offset + 2 <= tail - data
      modifies buf
      ensures View() == old(View())[..offset] + Be16(v) + old(View())[offset + 2..]
      ensures View()[offset] as int * 256 + View()[offset + 1] as int == v % 0x1_0000
    {
      Be16Bytes(v);
      buf[data + offset] := v / 256 % 256;
      buf[data + offset + 1] := v % 256;
    }

    method GetInt16(offset: nat) returns (v: int)
      requires Valid() && offset + 2 <= tail - data
      ensures v == Signed16(View()[offset..])
      ensures var u := View()[offset] as int * 256 + View()[offset + 1] as int; v == if u < 0x8000 then u else u - 0x1_0000
    {
      var u: int := U16(buf[data + offset], buf[data + offset + 1]);
      v := if u < 0x8000 then u else u - 0x1_0000;
    }

    method Len() returns (n: nat)
      requires Valid()
      ensures n == |View()|
    {
      n := tail - data;
    }

    /** Fills in the length field and hands out the encoded message. */
    method Finalize() returns (bytes: seq<byte>)
      requires Valid() && 2 <= tail - data
      modifies buf
      ensures bytes == View() == Be16(|old(View())|) + old(View())[2..]
    {
      var n := Len();
      SetInt16(n, 0);
      bytes := buf[data..tail];
    }
  }

  /** `serialize` of either message type: everything but the length field. */
  method Serialize(m: Message, ser: Serializer)
    requires ser.Valid() && EncodedLen(m) <= 65536
    modifies ser, ser.buf
    ensures ser.Valid() && |ser.View()| == EncodedLen(m) && ser.View()[2..] == Body(m)
  {
    ser.Reset();
    ghost var head := ser.View();
    match m
    case Tweet(text) =>
      ser.PutData(text);
      BehindHead(head, Body(m));
    case WordRecord(words) =>
      SerializeWords(words, ser);
      BehindHead(head, Body(m));
  }

  method SerializeWords(words: seq<seq<byte>>, ser: Serializer)
    requires ser.Valid() && ser.tail + |Body(WordRecord(words))| <= MAX_DATA
    modifies ser, ser.buf
    ensures ser.Valid() && ser.View() == old(ser.View()) + Body(WordRecord(words))
  {
    WordsBody(ser.View(), words);
    ser.PutInt32(|words|);
    PutWords(words, ser);
  }

  lemma WordsBody(head: seq<byte>, words: seq<seq<byte>>)
    ensures head + Be32(|words|) + EncodeStrings(words) == head + Body(WordRecord(words))
    ensures |Body(WordRecord(words))| == 4 + |EncodeStrings(words)|
  {
    assert head + Be32(|words|) + EncodeStrings(words) == head + (Be32(|words|) + EncodeStrings(words));
  }

  lemma BehindHead(head: seq<byte>, body: seq<byte>)
    requires |head| == 2
    ensures (head + body)[2..] == body
  {
  }

  method PutWords(words: seq<seq<byte>>, ser: Serializer)
    requires ser.Valid() && ser.tail + |EncodeStrings(words)| <= MAX_DATA
    modifies ser, ser.buf
    ensures ser.Valid() && ser.View() == old(ser.View()) + EncodeStrings(words)
  {
    ghost var start := ser.View();
    for i := 0 to |words|
      invariant ser.Valid() && ser.data == old(ser.data)
      invariant ser.View() == start + EncodeStrings(words[..i])
    {
      EncodeStringsStep(words, i);
      ser.PutData(words[i]);
    }
    assert words[..|words|] == words;
  }

  lemma {:induction false} EncodeStringsAppend(ss: seq<seq<byte>>, s: seq<byte>)
    ensures EncodeStrings(ss + [s]) == EncodeStrings(ss) + EncodeString(s)
    decreases |ss|
  {
    if ss == [] {
      assert [] + [s] == [s] && [s][1..] == [] && EncodeString(s) + [] == EncodeString(s);
      assert [] + EncodeString(s) == EncodeString(s);
    } else {
      assert (ss + [s])[1..] == ss[1..] + [s];
      EncodeStringsAppend(ss[1..], s);
      assert EncodeString(ss[0]) + (EncodeStrings(ss[1..]) + EncodeString(s))
          == EncodeString(ss[0]) + EncodeStrings(ss[1..]) + EncodeString(s);
    }
  }

  /** One more string, and the room that the remaining ones need. */
  lemma EncodeStringsStep(ss: seq<seq<byte>>, i: nat)
    requires i < |ss|
    ensures EncodeStrings(ss[..i + 1]) == EncodeStrings(ss[..i]) + EncodeString(ss[i])
    ensures |EncodeStrings(ss[..i])| + 2 + |ss[i]| <= |EncodeStrings(ss)|
  {
    assert ss[..i + 1] == ss[..i] + [ss[i]];
    EncodeStringsAppend(ss[..i], ss[i]);
    EncodeStringsSplit(ss, i + 1);
  }

  lemma {:induction false} EncodeStringsSplit(ss: seq<seq<byte>>, i: nat)
    requires i <= |ss|
    ensures EncodeStrings(ss) == EncodeStrings(ss[..i]) + EncodeStrings(ss[i..])
    decreases i
  {
    if i == 0 {
      assert ss[..0] == [] && ss[0..] == ss && [] + EncodeStrings(ss) == EncodeStrings(ss);
    } else {
      EncodeStringsSplit(ss, i - 1);
      assert ss[..i] == ss[..i - 1] + [ss[i - 1]] && ss[i - 1..][1..] == ss[i..];
      EncodeStringsAppend(ss[..i - 1], ss[i - 1]);
      assert EncodeStrings(ss[..i - 1]) + (EncodeString(ss[i - 1]) + EncodeStrings(ss[i..]))
          == EncodeStrings(ss[..i - 1]) + EncodeString(ss[i - 1]) + EncodeStrings(ss[i..]);
    }
  }

  /** `serialize` and `finalize` together produce the encoding. */
  method SerializeAndFinalize(m: Message, ser: Serializer) returns (bytes: seq<byte>)
    requires ser.Valid() && EncodedLen(m) <= 65536
    modifies ser, ser.buf
    ensures bytes == Encode(m)
    ensures EncodedLen(m) < 0x1_0000 ==> Layout(bytes, m)
  {
    if EncodedLen(m) < 0x1_0000 {
      EncodingLayout(m);
    }
    Serialize(m, ser);
    bytes := ser.Finalize();
  }

  /** `build_same`, for a buffer from which a message can be decoded without a cursor error. */
  method BuildSame(kind: Kind, ser: Serializer) returns (m: Message)
    requires ser.Valid() && Build(kind, ser.View()).Got?
    modifies ser
    ensures ser.Valid() && Build(kind, old(ser.View())) == Got(m, ser.View())
  {
    if kind == Text {
      var s := ser.ConsumeWholeString();
      return Tweet(s);
    }
    var words := [];
    var len := ser.Len();
    if len > 0 {
      var n := ser.ConsumeInt32();
      words := GetWords(ser, if n < 0 then 0 else n);
    }
    m := WordRecord(words);
  }

  method GetWords(ser: Serializer, count: nat) returns (words: seq<seq<byte>>)
    requires ser.Valid() && GetStrings(ser.View(), count).Got?
    modifies ser
    ensures ser.Valid() && GetStrings(old(ser.View()), count) == Got(words, ser.View())
  {
    words := [];
    ghost var view, whole := ser.View(), GetStrings(ser.View(), count);
    assert [] + whole.value == whole.value;
    for i := 0 to count
      invariant ser.Valid() && view == ser.View()
      invariant Continues(whole, words, view, count - i)
    {
      ContinuesStep(whole, words, view, count - i);
      var s := ser.ConsumeWholeString();
      words := words + [s];
      view := ser.View();
    }
    assert words + [] == words;
  }

  /** Having read `words`, the `n` strings at the front of `view` complete the result `whole`. */
  ghost predicate Continues(whole: Parsed<seq<seq<byte>>>, words: seq<seq<byte>>, view: seq<byte>, n: nat) {
    var left := GetStrings(view, n);
    left.Got? && whole == Got(words + left.value, left.rest)
  }

  lemma ContinuesStep(whole: Parsed<seq<seq<byte>>>, words: seq<seq<byte>>, view: seq<byte>, n: nat)
    requires n > 0 && Continues(whole, words, view, n)
    ensures GetString(view).Got?
    ensures Continues(whole, words + [GetString(view).value], GetString(view).rest, n - 1)
  {
    var s, rest := GetString(view).value, GetString(view).rest;
    var later := GetStrings(rest, n - 1).value;
    assert words + ([s] + later) == words + [s] + later;
  }
}
