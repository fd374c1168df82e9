/**
  From the write API to the wire and back: what is serialized is read back equal
  and is framed as one message, however it is built, paged, buffered or delivered.
 */
module RoundTrip {
  import opened Format
  import opened Wrappers
  import opened Encoding
  import opened Reading
  import opened BuildPages
  import opened Writing
  import opened Building
  import opened Framing

  /** Serializes one run of writes; buffer and page sizes leave no trace in the result. */
  method Serialize(item: Item, capacity: nat, pageSize: nat) returns (data: array<byte>, size: nat)
    requires WellNested(item) && capacity >= MINIMUM_BUFFER
    requires pageSize >= PAGE_HEADER + BUILD_HEADER + MINIMUM_BUFFER
    ensures Writable(ValueOf(item)) && size <= data.Length
    ensures data[..size] == Encode(ValueOf(item))
    ensures DecodeValue(data[..size], 0) == Done(Canonical(ValueOf(item)), size)
  {
    hide WellNested, Encode, Writable, ValueOf, DecodeValue, Writer.Valid, Writer.Written, Writer.Log, Firsts,
         AfterElements, Since;
    var w := new Writer(capacity, pageSize);
    StartsEmpty(w);
    ghost var tokens := Emit(w, item);
    data, size := w.Teardown();
    assert data[0..size] == data[..size];
    ValueReadsBack(data[..size], 0, ValueOf(item));
  }

  lemma StartsEmpty(w: Writer)
    requires w.Valid() && w.current == Null && w.Log() == []
    ensures w.Written() == []
  {
  }

  /** A reader over serialized bytes consumes exactly the serialized value. */
  method DiscardSerialized(item: Item, capacity: nat, pageSize: nat) returns (ok: bool, consumed: nat, size: nat)
    requires WellNested(item) && capacity >= MINIMUM_BUFFER
    requires pageSize >= PAGE_HEADER + BUILD_HEADER + MINIMUM_BUFFER
    ensures ok && consumed == size && Writable(ValueOf(item)) && size == |Encode(ValueOf(item))|
  {
    hide WellNested, Encode, Writable, ValueOf, DecodeValue;
    var data;
    data, size := Serialize(item, capacity, pageSize);
    var reader := new Reader(data, size);
    reader.Discard();
    ok, consumed := reader.flag == Ok, reader.data;
  }

  function EncodedEach(vs: seq<Value>): (r: seq<seq<byte>>)
    requires AllWritable(vs)
    ensures |r| == |vs|
  {
    seq(|vs|, i requires 0 <= i < |vs| => Encode(vs[i]))
  }

  /** A stream of written values, with an incomplete tail, is framed into exactly those values. */
  lemma {:induction false} WrittenValuesAreFramed(vs: seq<Value>, tail: seq<byte>)
    requires AllWritable(vs) && DecodeValue(tail, 0).Failed?
    ensures Messages(EncodeAll(vs) + tail) == EncodedEach(vs)
    ensures Remainder(EncodeAll(vs) + tail) == tail
    decreases |vs|
  {
    hide DecodeValue, Encode, Writable, EncodeAll, Messages, Remainder;
    if vs == [] {
      NothingEncoded();
      assert EncodeAll(vs) + tail == tail;
      NoFirstMessage(tail);
    } else {
      var head, rest := Encode(vs[0]), EncodeAll(vs[1..]) + tail;
      EncodeAllFront(vs);
      Grouped(head, EncodeAll(vs[1..]), tail);
      FramedFirst(vs[0], rest);
      WrittenValuesAreFramed(vs[1..], tail);
      assert EncodedEach(vs) == [head] + EncodedEach(vs[1..]);
    }
  }

  lemma NothingEncoded()
    ensures EncodeAll([]) == []
  {
  }

  /** A written value at the front of a stream is its first message. */
  lemma FramedFirst(v: Value, rest: seq<byte>)
    requires Writable(v)
    ensures Messages(Encode(v) + rest) == [Encode(v)] + Messages(rest)
    ensures Remainder(Encode(v) + rest) == Remainder(rest)
  {
    hide DecodeValue, Encode, Writable, Messages, Remainder;
    var head := Encode(v);
    var s := head + rest;
    assert s[..|head|] == head && s[|head|..] == rest;
    assert Occurs(head, s, 0);
    ValueReadsBack(s, 0, v);
    FirstMessage(s);
  }

  lemma {:induction false} EncodeAllFront(vs: seq<Value>)
    requires vs != [] && AllWritable(vs)
    ensures EncodeAll(vs) == Encode(vs[0]) + EncodeAll(vs[1..])
    decreases |vs|
  {
    hide Encode, Writable;
    if |vs| > 1 {
      EncodeAllFront(vs[..|vs| - 1]);
      assert vs[..|vs| - 1][1..] == vs[1..][..|vs| - 2];
    } else {
      assert vs[..0] == [] && vs[1..] == [];
    }
  }

  /** Whatever pieces they arrive in, the values that were written come out as messages. */
  method Deliver(vs: seq<Value>, chunks: seq<seq<byte>>) returns (receiver: Receiver)
    requires AllWritable(vs) && Joined(chunks) == EncodeAll(vs)
    ensures receiver.Valid()
    ensures receiver.handed == EncodedEach(vs) && receiver.Pending() == []
  {
    hide DecodeValue, Encode, Writable, Messages, Remainder;
    receiver := ReadLoop(chunks);
    NothingPending([]);
    assert EncodeAll(vs) + [] == EncodeAll(vs);
    WrittenValuesAreFramed(vs, []);
  }
}
