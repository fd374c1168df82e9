/**
  The C client's receive loop: bytes arrive in arbitrary pieces, are collected in
  a growing buffer, and every complete leading message is handed on.
 */
module Framing {
  import opened Format
  import opened Wrappers
  import opened Reading

  const RECV_BUF_SIZE: nat := 65536

  // ------------------------------------------------------ the stream's meaning

  /** The complete messages at the front of a stream, decoded greedily. */
  function Messages(s: seq<byte>): seq<seq<byte>> {
    match DecodeValue(s, 0)
    case Done(_, end) => [s[..end]] + Messages(s[end..])
    case Failed(_) => []
  }

  /** What is left of a stream once its complete messages are gone. */
  function Remainder(s: seq<byte>): (r: seq<byte>)
    ensures |r| <= |s|
  {
    match DecodeValue(s, 0)
    case Done(_, end) => Remainder(s[end..])
    case Failed(_) => s
  }

  /** Nothing is lost, invented or reordered by framing. */
  lemma {:induction false} FramingConserves(s: seq<byte>)
    ensures Joined(Messages(s)) + Remainder(s) == s
    decreases |s|
  {
    hide DecodeValue, Joined, Messages, Remainder;
    var r := DecodeValue(s, 0);
    if r.Done? {
      var head, tail := s[..r.end], s[r.end..];
      FirstMessage(s);
      FramingConserves(tail);
      JoinedPrepends(head, Messages(tail));
      Grouped(head, Joined(Messages(tail)), Remainder(tail));
    } else {
      NoFirstMessage(s);
      JoinedNothing(Messages(s));
    }
  }

  /** Framing a stream piece by piece agrees with framing it in one go. */
  lemma {:induction false} FramingResumes(s: seq<byte>, more: seq<byte>)
    ensures Messages(s + more) == Messages(s) + Messages(Remainder(s) + more)
    ensures Remainder(s + more) == Remainder(Remainder(s) + more)
    decreases |s|
  {
    hide DecodeValue;
    var r := DecodeValue(s, 0);
    if r.Done? {
      DecodeStable(s, s + more, 0);
      assert (s + more)[..r.end] == s[..r.end];
      assert (s + more)[r.end..] == s[r.end..] + more;
      FramingResumes(s[r.end..], more);
    }
  }

  /** The remainder holds no complete message. */
  lemma {:induction false} RemainderIsIncomplete(s: seq<byte>)
    ensures DecodeValue(Remainder(s), 0).Failed?
    decreases |s|
  {
    hide DecodeValue;
    var r := DecodeValue(s, 0);
    if r.Done? {
      RemainderIsIncomplete(s[r.end..]);
    }
  }

  // -------------------------------------------------------------- the receiver

  // ------------------------------------------------------- when it gets stuck

  /** The walk over headers that skips n values meets a lead byte that no value starts with. */
  predicate Blocked(s: seq<byte>, pos: nat, n: nat)
    requires pos <= |s|
    decreases |s| - pos
  {
    if n == 0 || pos == |s| then false
    else if LeadOf(s[pos]).Rejected? then true
    else
      match HeaderAt(s, pos)
      case NoHead(_) => false
      case Head(tag, size) =>
        var body := pos + size + Payload(tag);
        body <= |s| && Blocked(s, body, n - 1 + Children(tag))
  }

  /** More data does not help a blocked walk. */
  lemma {:induction false} BlockedStays(s: seq<byte>, more: seq<byte>, pos: nat, n: nat)
    requires pos <= |s| && Blocked(s, pos, n)
    ensures Skip(s + more, pos, n) == Stuck
    decreases |s| - pos
  {
    hide Payload, Children;
    assert (s + more)[pos] == s[pos];
    if !LeadOf(s[pos]).Rejected? {
      var Head(tag, size) := HeaderAt(s, pos);
      HeaderStable(s, s + more, pos);
      BlockedStays(s, more, pos + size + Payload(tag), n - 1 + Children(tag));
    }
  }

  function Nils(n: nat): (s: seq<byte>)
    ensures |s| == n && forall i :: 0 <= i < n ==> s[i] == 0xc0
  {
    seq(n, _ => 0xc0)
  }

  /** n bytes for nil are n values. */
  lemma {:induction false} NilsSkip(s: seq<byte>, pos: nat, n: nat)
    requires pos + n == |s| && forall i :: pos <= i < |s| ==> s[i] == 0xc0
    ensures Skip(s, pos, n) == At(|s|)
    decreases n
  {
    if n > 0 {
      assert LeadOf(s[pos]) == Fixed(NilTag);
      NilsSkip(s, pos + 1, n - 1);
    }
  }

  /** A walk that is not blocked can be brought to its end: whatever header or content is cut off is filled up. */
  lemma {:induction false} Completable(s: seq<byte>, pos: nat, n: nat) returns (more: seq<byte>)
    requires pos <= |s| && !Blocked(s, pos, n)
    ensures Skip(s + more, pos, n).At?
    decreases |s| - pos
  {
    hide Payload, Children;
    if n == 0 {
      more := [];
      assert s + more == s;
      return;
    }
    if pos == |s| {
      more := Nils(n);
      NilsSkip(s + more, pos, n);
      return;
    }
    match HeaderAt(s, pos)
    case Head(tag, size) =>
      var body := pos + size + Payload(tag);
      if body <= |s| {
        more := Completable(s, body, n - 1 + Children(tag));
        HeaderStable(s, s + more, pos);
      } else {
        assert s + [] == s;
        more := Filled(s, pos, n, []);
      }
    case NoHead(_) =>
      more := Filled(s, pos, n, Nils(pos + 1 + LeadOf(s[pos]).width - |s|));
  }

  /** The field of a header, its content and nil for everything owed after it. */
  lemma Filled(s: seq<byte>, pos: nat, n: nat, field: seq<byte>) returns (more: seq<byte>)
    requires pos < |s| && n > 0 && HeaderAt(s + field, pos).Head?
    requires var Head(tag, size) := HeaderAt(s + field, pos); pos + size + Payload(tag) >= |s + field|
    ensures Skip(s + more, pos, n).At?
  {
    hide HeaderAt, Payload, Children;
    var t := s + field;
    var Head(tag, size) := HeaderAt(t, pos);
    var body := pos + size + Payload(tag);
    var owed := n - 1 + Children(tag);
    var content := Nils(body - |t|);
    more := field + (content + Nils(owed));
    var whole := t + (content + Nils(owed));
    Grouped(s, field, content + Nils(owed));
    assert s + more == whole && |whole| == body + owed;
    HeaderStable(t, whole, pos);
    assert forall i :: body <= i < |whole| ==> whole[i] == Nils(owed)[i - body];
    NilsSkip(whole, body, owed);
    SkipHead(whole, pos, n);
  }

  lemma SkipHead(s: seq<byte>, pos: nat, n: nat)
    requires pos <= |s| && n > 0 && HeaderAt(s, pos).Head?
    requires var Head(tag, size) := HeaderAt(s, pos); pos + size + Payload(tag) <= |s|
    ensures var Head(tag, size) := HeaderAt(s, pos);
            Skip(s, pos, n) == Skip(s, pos + size + Payload(tag), n - 1 + Children(tag))
  {
    hide HeaderAt, Payload, Children;
  }

  /**
    The loop takes every error for an incomplete message. That is right exactly when the
    walk over the pending bytes meets no rejected lead byte: some continuation then
    completes a message, and otherwise no continuation ever does.
   */
  lemma WaitsInVainIffBlocked(s: seq<byte>)
    ensures (forall more :: Messages(s + more) == Messages(s)) <==> Blocked(Remainder(s), 0, 1)
  {
    hide Messages, Remainder, Blocked, Skip, DecodeValue;
    var rest := Remainder(s);
    if Blocked(rest, 0, 1) {
      forall more
        ensures Messages(s + more) == Messages(s)
      {
        FramingResumes(s, more);
        BlockedStays(rest, more, 0, 1);
        DecodeSkips(rest + more, 0);
        NoFirstMessage(rest + more);
        assert Messages(s) + [] == Messages(s);
      }
    } else {
      var more := Completable(rest, 0, 1);
      DecodeSkips(rest + more, 0);
      FramingResumes(s, more);
      FirstMessage(rest + more);
      assert |Messages(s + more)| > |Messages(s)|;
    }
  }

  /** The byte 0xc1 at the front of a message: from then on the client hears nothing. */
  lemma ReservedByteSilences(more: seq<byte>)
    ensures Messages([0xc1] + more) == []
  {
    assert ([0xc1] + more)[0] == 0xc1;
    NoFirstMessage([0xc1] + more);
  }

  class Receiver {
    var recvBuf: array<byte>
    var recvLen: nat
    /** The messages handed to process_message so far. */
    var handed: seq<seq<byte>>

    ghost predicate Valid()
      reads this
    {
      recvLen <= recvBuf.Length
    }

    ghost function Pending(): (s: seq<byte>)
      reads this, recvBuf
      requires Valid()
      ensures |s| == recvLen
    {
      recvBuf[..recvLen]
    }

    constructor ()
      ensures Valid() && Pending() == [] && handed == []
      ensures fresh(recvBuf)
    {
      recvBuf := new byte[0];
      recvLen := 0;
      handed := [];
    }

    /** Doubles the buffer until `need` bytes fit; an empty buffer starts at its initial size. */
    method Grow(need: nat)
      requires Valid()
      modifies this`recvBuf
      ensures Valid() && need <= recvBuf.Length
      ensures recvBuf == old(recvBuf) || fresh(recvBuf)
      ensures Pending() == old(Pending())
      ensures need <= old(recvBuf.Length) ==> recvBuf == old(recvBuf)
      ensures need > old(recvBuf.Length) ==>
                DoubledTo(if old(recvBuf.Length) > 0 then old(recvBuf.Length) else 0x1_0000, need, recvBuf.Length)
    {
      if need > recvBuf.Length {
        var capacity := if recvBuf.Length != 0 then recvBuf.Length else RECV_BUF_SIZE;
        ghost var first, times := capacity, 0;
        while capacity < need
          invariant capacity > 0 && capacity >= recvBuf.Length
          invariant capacity == Doublings(first, times) && (times > 0 ==> Doublings(first, times - 1) < need)
          decreases need - capacity
        {
          capacity := 2 * capacity;
          times := times + 1;
        }
        DoubledBy(first, need, capacity, times);
        var larger := new byte[capacity](_ => 0);
        forall i | 0 <= i < recvLen {
          larger[i] := recvBuf[i];
        }
        recvBuf := larger;
      }
    }

    method Append(chunk: seq<byte>)
      requires Valid()
      modifies this, recvBuf
      ensures Valid() && handed == old(handed)
      ensures recvBuf == old(recvBuf) || fresh(recvBuf)
      ensures Pending() == old(Pending()) + chunk
    {
      Grow(recvLen + |chunk|);
      forall i | 0 <= i < |chunk| {
        recvBuf[recvLen + i] := chunk[i];
      }
      recvLen := recvLen + |chunk|;
    }

    /** Removes the first count bytes, moving the rest to the front. */
    method Drop(count: nat)
      requires Valid() && count <= recvLen
      modifies this`recvLen, recvBuf
      ensures Valid()
      ensures Pending() == old(Pending())[count..]
    {
      var remaining := recvLen - count;
      if remaining > 0 {
        forall i | 0 <= i < remaining {
          recvBuf[i] := recvBuf[count + i];
        }
      }
      recvLen := remaining;
    }

    /**
      One turn of the read loop. The messages handed on are exactly those that the
      pending bytes and the new piece together hold.
     */
    method Receive(chunk: seq<byte>)
      requires Valid()
      modifies this, recvBuf
      ensures Valid()
      ensures recvBuf == old(recvBuf) || fresh(recvBuf)
      ensures handed == old(handed) + Messages(old(Pending()) + chunk)
      ensures Pending() == Remainder(old(Pending()) + chunk)
    {
      hide DecodeValue, Messages, Remainder;
      Append(chunk);
      ghost var all := Pending();
      var scanning := true;
      while scanning && recvLen > 0
        invariant Valid() && (recvBuf == old(recvBuf) || fresh(recvBuf))
        invariant handed + Messages(Pending()) == old(handed) + Messages(all)
        invariant Remainder(Pending()) == Remainder(all)
        invariant !scanning ==> DecodeValue(Pending(), 0).Failed?
        decreases scanning, recvLen
      {
        ghost var before := Pending();
        var reader := new Reader(recvBuf, recvLen);
        reader.Discard();
        if reader.flag != Ok {
          scanning := false;
        } else {
          var length := recvLen - (reader.end - reader.data);
          ghost var earlier, message := handed, before[..length];
          assert recvBuf[..length] == message;
          handed := handed + [recvBuf[..length]];
          FirstMessage(before);
          Drop(length);
          Grouped(earlier, [message], Messages(Pending()));
        }
      }
      if scanning {
        NothingPending(Pending());
      }
      NoFirstMessage(Pending());
    }
  }

  lemma FirstMessage(s: seq<byte>)
    requires DecodeValue(s, 0).Done?
    ensures Messages(s) == [s[..DecodeValue(s, 0).end]] + Messages(s[DecodeValue(s, 0).end..])
    ensures Remainder(s) == Remainder(s[DecodeValue(s, 0).end..])
  {
    hide DecodeValue;
  }

  lemma NoFirstMessage(s: seq<byte>)
    requires DecodeValue(s, 0).Failed?
    ensures Messages(s) == [] && Remainder(s) == s
  {
    hide DecodeValue;
  }

  lemma NothingPending(s: seq<byte>)
    requires s == []
    ensures DecodeValue(s, 0).Failed?
  {
  }

  /**
    The whole read loop over any division of a stream into reads: the messages
    handed on depend on the stream alone.
   */
  method ReadLoop(chunks: seq<seq<byte>>) returns (receiver: Receiver)
    ensures fresh(receiver) && receiver.Valid()
    ensures receiver.handed == Messages(Joined(chunks))
    ensures receiver.Pending() == Remainder(Joined(chunks))
  {
    receiver := new Receiver();
    hide Messages, Remainder;
    NoMessages();
    var i := 0;
    while i < |chunks|
      invariant i <= |chunks|
      invariant fresh(receiver) && fresh(receiver.recvBuf) && receiver.Valid()
      invariant receiver.handed == Messages(Joined(chunks[..i]))
      invariant receiver.Pending() == Remainder(Joined(chunks[..i]))
    {
      assert chunks[..i + 1][..i] == chunks[..i];
      FramingResumes(Joined(chunks[..i]), chunks[i]);
      receiver.Receive(chunks[i]);
      i := i + 1;
    }
    assert chunks[..i] == chunks;
  }

  lemma NoMessages()
    ensures Messages([]) == [] && Remainder([]) == []
  {
  }
}
