/**
  Counting the nodes of a message, below a value and along the flat run of headers
  that the parser follows.
 */
module NodeCount {
  import opened Format

  /** Nodes below a value: its children, and theirs. */
  function Below(v: Value): nat {
    match v
    case Array(items) => |items| + BelowAll(items)
    case Map(items) => |items| + BelowAll(items)
    case _ => 0
  }

  function BelowAll(items: seq<Value>): nat {
    if items == [] then 0 else BelowAll(items[..|items| - 1]) + Below(items[|items| - 1])
  }

  /** All nodes of a value's tree. */
  function Nodes(v: Value): nat {
    1 + Below(v)
  }

  /** The children announced by the headers of the next n values, as far as they can be skipped. */
  function Weigh(s: seq<byte>, pos: nat, n: nat): nat
    requires pos <= |s|
    decreases |s| - pos
  {
    if n == 0 then 0
    else
      match HeaderAt(s, pos)
      case NoHead(_) => 0
      case Head(tag, size) =>
        var body := pos + size + Payload(tag);
        if body > |s| then 0 else Children(tag) + Weigh(s, body, n - 1 + Children(tag))
  }

  lemma {:induction false} WeighSplits(s: seq<byte>, pos: nat, a: nat, b: nat)
    requires pos <= |s|
    ensures Weigh(s, pos, a + b)
            == Weigh(s, pos, a) + if Skip(s, pos, a).At? then Weigh(s, Skip(s, pos, a).pos, b) else 0
    decreases |s| - pos
  {
    hide HeaderAt, Payload, Children;
    if a > 0 {
      var header := HeaderAt(s, pos);
      if header.Head? {
        var body := pos + header.size + Payload(header.tag);
        if body <= |s| {
          assert a + b - 1 + Children(header.tag) == (a - 1 + Children(header.tag)) + b;
          WeighSplits(s, body, a - 1 + Children(header.tag), b);
        }
      }
    }
  }

  /** Weighing a value that decodes counts the nodes below it. */
  lemma {:induction false} DecodeWeighs(s: seq<byte>, pos: nat)
    requires pos <= |s| && DecodeValue(s, pos).Done?
    ensures Weigh(s, pos, 1) == Below(DecodeValue(s, pos).value)
    decreases |s| - pos, 0, 0
  {
    hide HeaderAt, Payload, DecodeValues, BelowAll;
    var Head(tag, size) := HeaderAt(s, pos);
    DecodeWeighsAll(s, pos + size + Payload(tag), Children(tag));
    NothingBelow();
  }

  lemma {:induction false} DecodeWeighsAll(s: seq<byte>, pos: nat, n: nat)
    requires pos <= |s| && DecodeValues(s, pos, n).Done?
    ensures Weigh(s, pos, n) == BelowAll(DecodeValues(s, pos, n).value)
    decreases |s| - pos, 1, n
  {
    hide HeaderAt, DecodeValue, Skip, Below, Weigh;
    if n > 0 {
      var front := DecodeValues(s, pos, n - 1);
      DecodeWeighsAll(s, pos, n - 1);
      DecodeSkipsAll(s, pos, n - 1);
      WeighSplits(s, pos, n - 1, 1);
      DecodeWeighs(s, front.end);
      BelowOneMore(front.value, DecodeValue(s, front.end).value);
    } else {
      NothingBelow();
      NothingWeighs(s, pos);
    }
  }

  lemma NothingBelow()
    ensures BelowAll([]) == 0
  {
  }

  lemma NothingWeighs(s: seq<byte>, pos: nat)
    requires pos <= |s|
    ensures Weigh(s, pos, 0) == 0
  {
  }

  lemma BelowOneMore(items: seq<Value>, v: Value)
    ensures BelowAll(items + [v]) == BelowAll(items) + Below(v)
  {
    assert (items + [v])[..|items|] == items;
  }

  /** A message never has more nodes than bytes. */
  lemma {:induction false} NodesAreBytes(s: seq<byte>, pos: nat)
    requires pos <= |s| && DecodeValue(s, pos).Done?
    ensures pos + Nodes(DecodeValue(s, pos).value) <= DecodeValue(s, pos).end
    decreases |s| - pos, 0, 0
  {
    hide HeaderAt, Payload, DecodeValues, BelowAll;
    var Head(tag, size) := HeaderAt(s, pos);
    NodesAreBytesAll(s, pos + size + Payload(tag), Children(tag));
  }

  lemma {:induction false} NodesAreBytesAll(s: seq<byte>, pos: nat, n: nat)
    requires pos <= |s| && DecodeValues(s, pos, n).Done?
    ensures pos + n + BelowAll(DecodeValues(s, pos, n).value) <= DecodeValues(s, pos, n).end
    decreases |s| - pos, 1, n
  {
    hide HeaderAt, DecodeValue, Below;
    if n > 0 {
      var front := DecodeValues(s, pos, n - 1);
      NodesAreBytesAll(s, pos, n - 1);
      NodesAreBytes(s, front.end);
      BelowOneMore(front.value, DecodeValue(s, front.end).value);
    } else {
      NothingBelow();
    }
  }

  // ------------------------------------------------------- along the parse

  /**
    A parse that has read up to pos, owes that many more values and has handed out
    that many nodes is on its way through the whole message.
   */
  ghost predicate OnTrack(s: seq<byte>, pos: nat, owed: nat, handed: nat) {
    && pos <= |s| && handed > 0
    && Skip(s, 0, 1) == Skip(s, pos, owed)
    && handed + Weigh(s, pos, owed) == 1 + Weigh(s, 0, 1)
  }

  lemma TrackStarts(s: seq<byte>)
    ensures OnTrack(s, 0, 1, 1)
  {
  }

  /** The node at pos is read: its children are owed and have been handed nodes. */
  lemma TrackStep(s: seq<byte>, pos: nat, owed: nat, handed: nat)
    requires OnTrack(s, pos, owed, handed) && owed > 0 && HeaderAt(s, pos).Head?
    requires var Head(tag, size) := HeaderAt(s, pos); pos + size + Payload(tag) <= |s|
    ensures var Head(tag, size) := HeaderAt(s, pos);
            OnTrack(s, pos + size + Payload(tag), owed - 1 + Children(tag), handed + Children(tag))
  {
    hide HeaderAt, Payload, Children;
  }

  /** A container that has been met belongs to the message's count. */
  lemma TrackMeets(s: seq<byte>, pos: nat, owed: nat, handed: nat)
    requires OnTrack(s, pos, owed, handed) && owed > 0 && HeaderAt(s, pos).Head?
    requires Payload(HeaderAt(s, pos).tag) == 0
    ensures handed + Children(HeaderAt(s, pos).tag) <= 1 + Weigh(s, 0, 1)
  {
    hide HeaderAt, Children;
  }

  /** With nothing owed, every node of the message has been handed out. */
  lemma TrackEnds(s: seq<byte>, pos: nat, handed: nat)
    requires OnTrack(s, pos, 0, handed)
    ensures handed == 1 + Weigh(s, 0, 1)
  {
  }

  /** While values are owed, the handed nodes are no more than the message has. */
  lemma TrackBounds(s: seq<byte>, pos: nat, owed: nat, handed: nat)
    requires OnTrack(s, pos, owed, handed)
    ensures handed <= 1 + Weigh(s, 0, 1)
  {
  }

  // ------------------------------------------------------------------ limits

  datatype Limit = Unlimited | AtMost(n: nat)

  predicate IsContainer(v: Value) {
    v.Array? || v.Map?
  }

  /** What a node limit promises: a message without a container is never held against it. */
  predicate Accepts(limit: Limit, v: Value) {
    limit.AtMost? && IsContainer(v) ==> Nodes(v) <= limit.n
  }

  predicate ContainerTag(tag: Tag) {
    tag.ArrayTag? || tag.MapTag?
  }

  predicate StartsContainer(s: seq<byte>) {
    HeaderAt(s, 0).Head? && ContainerTag(HeaderAt(s, 0).tag)
  }

  lemma ContainerDecoded(s: seq<byte>)
    requires DecodeValue(s, 0).Done?
    ensures HeaderAt(s, 0).Head? && (IsContainer(DecodeValue(s, 0).value) <==> StartsContainer(s))
    ensures Children(HeaderAt(s, 0).tag) == 0 <==> Weigh(s, 0, 1) == 0
  {
    hide HeaderAt, DecodeValues;
  }
}
