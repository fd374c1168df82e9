/**
  Whole runs of the tree parser: against the reader on the same bytes, over a
  stream with pauses anywhere, and on the messages the receive loop hands on.
 */
module TreeRuns {
  import opened Format
  import opened Wrappers
  import opened Encoding
  import opened Reading
  import opened Framing
  import opened BuildPages
  import opened Writing
  import opened Building
  import opened RoundTrip
  import opened NodeCount
  import opened TreeLayout
  import opened TreeStorage
  import opened TreeParsing

  /**
    The parser accepts exactly what the reader can discard, its tree holds the
    decoded value, and both stop at the same byte.
   */
  method ParseAndDiscard(buffer: array<byte>, nodesPerPage: nat) returns (tree: Tree, consumed: nat)
    requires nodesPerPage > 0
    ensures tree.Valid() && consumed <= buffer.Length
    ensures tree.flag == Ok <==> DecodeValue(buffer[..], 0).Done?
    ensures tree.flag == Ok ==>
              && tree.size == consumed
              && DecodeValue(buffer[..], 0) == Done(tree.value, consumed)
              && Represents(tree.nodes, tree.done, buffer[..], tree.root, tree.value)
  {
    hide DecodeValue, Represents;
    tree := new Tree(buffer[..], [], [], false, nodesPerPage, Unlimited);
    assert buffer[..] + [] == buffer[..];
    tree.Parse();
    var reader := new Reader(buffer, buffer.Length);
    assert buffer[..buffer.Length] == buffer[..];
    reader.Discard();
    consumed := reader.data;
  }

  /** The values at the front of a stream, decoded greedily. */
  function Values(s: seq<byte>): seq<Value> {
    match DecodeValue(s, 0)
    case Done(v, end) => [v] + Values(s[end..])
    case Failed(_) => []
  }

  /**
    Any number of attempts on a stream that delivers in any pieces and pauses
    anywhere: the trees obtained so far and those of the rest of the stream are
    the trees of the whole stream.
   */
  method ParseStream(tree: Tree, attempts: nat) returns (values: seq<Value>, paused: bool)
    requires tree.Valid() && tree.flag == Ok && tree.maxNodes.Unlimited?
    modifies tree
    ensures tree.Valid() && Values(old(tree.Rest())) == values + Values(tree.Rest())
    ensures tree.flag.Flagged? ==> values == Values(old(tree.Rest()))
    ensures paused && tree.incoming == [] ==> values == Values(old(tree.Rest()))
  {
    hide Values, Tree.Valid;
    values, paused := [], false;
    var n := attempts;
    while n > 0 && tree.flag == Ok
      invariant tree.Valid()
      invariant Values(old(tree.Rest())) == values + Values(tree.Rest())
      invariant tree.flag.Flagged? || (paused && tree.incoming == []) ==> Values(tree.Rest()) == []
    {
      n := n - 1;
      var more := Attempt(tree);
      paused := more == [];
      Grouped(values, more, Values(tree.Rest()));
      values := values + more;
    }
  }

  /** One attempt: the next tree of the stream, or none yet. */
  method Attempt(tree: Tree) returns (more: seq<Value>)
    requires tree.Valid() && tree.flag == Ok && tree.maxNodes.Unlimited?
    modifies tree
    ensures tree.Valid() && Values(old(tree.Rest())) == more + Values(tree.Rest())
    ensures tree.flag.Flagged? || (more == [] && tree.incoming == []) ==> Values(tree.Rest()) == []
  {
    hide DecodeValue, Represents, Tree.Running, Tree.Counting, BlobsOk, OwnBlocks, Values;
    var ok := tree.TryParse();
    if ok {
      var v := TakeTree(tree);
      more := [v];
    } else {
      more := [];
      assert [] + Values(tree.Rest()) == Values(tree.Rest());
      NoValues(tree.Rest());
    }
  }

  lemma NoValues(s: seq<byte>)
    ensures DecodeValue(s, 0).Failed? ==> Values(s) == []
  {
    hide DecodeValue;
  }

  /** The value of the tree just parsed; the stream goes on after it. */
  method TakeTree(tree: Tree) returns (v: Value)
    requires tree.Valid() && tree.state == Parsed
    ensures v == tree.value && Values(tree.Stream()) == [v] + Values(tree.Rest())
  {
    hide DecodeValue, Represents, Tree.Running, Tree.Counting;
    WithinData(tree);
    v := tree.Extract(tree.root, tree.value);
  }

  lemma WithinData(tree: Tree)
    requires tree.Valid() && tree.state == Parsed
    ensures BlobsOk(tree.nodes, tree.done, |tree.data|)
  {
    hide DecodeValue, Represents;
  }

  /**
    While a message is being parsed the ledger is exact, and there are never more nodes than
    bytes to make them from.
   */
  lemma NodesFit(tree: Tree)
    requires tree.Valid() && tree.state == InProgress
    ensures 0 < tree.level + 1 <= |tree.stack| && tree.size <= |tree.data|
    ensures tree.possible + tree.size + Owed(tree.stack, tree.level + 1) == |tree.data|
    ensures tree.handedOut + tree.possible <= |tree.data|
  {
    hide Parsing, OnTrack, Storage;
  }

  /**
    The children of every container, open or finished, lie among the nodes, without the
    root; while parsing, none of them is still free.
   */
  lemma BlocksAreHandedOut(tree: Tree, a: nat)
    requires tree.Valid() && tree.state != NotStarted && IsParent(tree.nodes, tree.done, a)
    ensures var f := BlockOf(tree.nodes[a]);
            && Within(f, |tree.nodes|) && Apart(f, Block(tree.root, 1))
            && (tree.state == InProgress ==> Apart(f, Block(tree.free, tree.nodesLeft)))
  {
    hide Parsing, OnTrack, Represents, DecodeValue;
  }

  /** No two containers, open or finished, share a child. */
  lemma BlocksNeverOverlap(tree: Tree, a: nat, b: nat)
    requires tree.Valid() && tree.state != NotStarted
    requires IsParent(tree.nodes, tree.done, a) && IsParent(tree.nodes, tree.done, b) && a != b
    ensures Apart(BlockOf(tree.nodes[a]), BlockOf(tree.nodes[b]))
  {
    hide Parsing, OnTrack, Represents, DecodeValue;
  }

  // --------------------------------------------------- with the other components

  /** A value that decodes depends on no byte past its end. */
  lemma {:induction false} DecodeTight(s: seq<byte>, pos: nat, limit: nat)
    requires pos <= limit <= |s| && DecodeValue(s, pos).Done? && DecodeValue(s, pos).end <= limit
    ensures DecodeValue(s[..limit], pos) == DecodeValue(s, pos)
    decreases |s| - pos, 0, 0
  {
    hide HeaderAt, Payload, Children, Assemble, DecodeValues;
    var Head(tag, size) := HeaderAt(s, pos);
    var body := pos + size + Payload(tag);
    var t := s[..limit];
    HeaderTight(s, pos, limit);
    assert t[pos + size..body] == s[pos + size..body];
    DecodeAllTight(s, body, Children(tag), limit);
  }

  lemma {:induction false} DecodeAllTight(s: seq<byte>, pos: nat, n: nat, limit: nat)
    requires pos <= limit <= |s| && DecodeValues(s, pos, n).Done? && DecodeValues(s, pos, n).end <= limit
    ensures DecodeValues(s[..limit], pos, n) == DecodeValues(s, pos, n)
    decreases |s| - pos, 1, n
  {
    hide HeaderAt, DecodeValue;
    if n > 0 {
      DecodeAllTight(s, pos, n - 1, limit);
      DecodeTight(s, DecodeValues(s, pos, n - 1).end, limit);
    }
  }

  lemma HeaderTight(s: seq<byte>, pos: nat, limit: nat)
    requires pos < limit <= |s| && HeaderAt(s, pos).Head? && pos + HeaderAt(s, pos).size <= limit
    ensures HeaderAt(s[..limit], pos) == HeaderAt(s, pos)
  {
    var t := s[..limit];
    assert t[pos] == s[pos];
    if LeadOf(s[pos]).Wide? {
      var w := LeadOf(s[pos]).width;
      assert t[pos + 1..pos + 1 + w] == s[pos + 1..pos + 1 + w];
      HeaderStable(t, s, pos);
    }
  }

  /** Every message the receive loop hands on is one value from its first byte to its last. */
  lemma {:induction false} MessagesAreWhole(s: seq<byte>)
    ensures |Messages(s)| == |Values(s)|
    ensures forall i :: 0 <= i < |Messages(s)| ==>
              DecodeValue(Messages(s)[i], 0) == Done(Values(s)[i], |Messages(s)[i]|)
    decreases |s|
  {
    hide DecodeValue;
    var r := DecodeValue(s, 0);
    if r.Done? {
      DecodeTight(s, 0, r.end);
      MessagesAreWhole(s[r.end..]);
    }
  }

  /** The tree parser, given each handed message, parses it completely, into the values of the stream in order. */
  method ParseMessages(chunks: seq<seq<byte>>, nodesPerPage: nat) returns (values: seq<Value>)
    requires nodesPerPage > 0
    ensures values == Values(Joined(chunks))
  {
    hide DecodeValue, Represents, Messages, Values, Remainder;
    var receiver := ReadLoop(chunks);
    ghost var s := Joined(chunks);
    MessagesAreWhole(s);
    var messages := receiver.handed;
    values := [];
    while |values| < |messages|
      invariant |values| <= |messages| && values == Values(s)[..|values|]
    {
      var v := ParseWhole(messages[|values|], nodesPerPage, Values(s)[|values|]);
      values := values + [v];
    }
  }

  method ParseWhole(message: seq<byte>, nodesPerPage: nat, ghost expected: Value) returns (v: Value)
    requires nodesPerPage > 0 && DecodeValue(message, 0) == Done(expected, |message|)
    ensures v == expected
  {
    hide DecodeValue, Represents, Values;
    var tree := new Tree(message, [], [], false, nodesPerPage, Unlimited);
    assert message + [] == message;
    tree.Parse();
    v := TakeTree(tree);
  }

  /** What one side writes, by any run of calls, is the tree the other side gets. */
  method WriteThenParse(item: Item, capacity: nat, pageSize: nat, nodesPerPage: nat) returns (v: Value)
    requires WellNested(item) && capacity >= MINIMUM_BUFFER && nodesPerPage > 0
    requires pageSize >= PAGE_HEADER + BUILD_HEADER + MINIMUM_BUFFER
    ensures v == Canonical(ValueOf(item))
  {
    hide WellNested, DecodeValue;
    var data, size := Serialize(item, capacity, pageSize);
    v := ParseWhole(data[..size], nodesPerPage, Canonical(ValueOf(item)));
  }

  // ------------------------------------------------------------- the node limit

  /**
    In memory, a limit is kept to exactly when the message has no more nodes than it
    allows, or is no container at all.
   */
  method ParseWithin(s: seq<byte>, limit: Limit, nodesPerPage: nat) returns (tree: Tree)
    requires nodesPerPage > 0
    ensures fresh(tree) && tree.Valid() && tree.maxNodes == limit
    ensures tree.flag == Ok <==> DecodeValue(s, 0).Done? && Accepts(limit, DecodeValue(s, 0).value)
    ensures tree.flag == Ok ==>
              && DecodeValue(s, 0) == Done(tree.value, tree.size)
              && Represents(tree.nodes, tree.done, s, tree.root, tree.value)
              && OwnBlocks(tree.nodes, tree.done, tree.root)
  {
    hide DecodeValue, Represents, Tree.Running, BlobsOk, OwnBlocks;
    tree := new Tree(s, [], [], false, nodesPerPage, limit);
    assert s + [] == s;
    tree.Parse();
  }

  /**
    A message whose root has no children is parsed under every limit that accepts it,
    whatever is read when and however often parsing pauses.
   */
  method ParseChildless(tree: Tree, attempts: nat) returns (ok: bool)
    requires tree.Valid() && tree.flag == Ok && DecodeValue(tree.Rest(), 0).Done?
    requires Accepts(tree.maxNodes, DecodeValue(tree.Rest(), 0).value)
    requires Children(HeaderAt(tree.Rest(), 0).tag) == 0
    modifies tree
    ensures tree.Valid() && tree.flag == Ok
    ensures ok ==> tree.state == Parsed && DecodeValue(old(tree.Rest()), 0) == Done(tree.value, tree.size)
    ensures !ok && attempts > 0 ==> tree.incoming != []
  {
    hide DecodeValue, HeaderAt, Represents, Tree.Running, BlobsOk, OwnBlocks, Accepts, Children;
    ghost var s := tree.Rest();
    ok := false;
    var n := 0;
    while n < attempts && !ok
      invariant tree.Valid() && tree.flag == Ok
      invariant !ok ==> tree.Rest() == s && (n > 0 ==> tree.incoming != [])
      invariant ok ==> tree.state == Parsed && tree.Stream() == s
    {
      n := n + 1;
      ok := tree.TryParse();
      if tree.flag == Flagged(TooBig) {
        tree.LimitTripped();
      }
    }
  }

  /**
    A message whose root has children exceeds every limit under some delivery: its
    header comes alone, and each pause after it counts the children once more.
   */
  method PauseUntilTooBig(s: seq<byte>, n: nat, nodesPerPage: nat) returns (tree: Tree)
    requires nodesPerPage > 0 && DecodeValue(s, 0).Done? && Children(HeaderAt(s, 0).tag) > 0
    ensures fresh(tree) && tree.Valid() && tree.streaming && tree.Stream() == s && tree.maxNodes == AtMost(n)
    ensures tree.flag == Flagged(TooBig)
  {
    hide DecodeValue, Represents, Tree.Running, BlobsOk, OwnBlocks, Children, HeaderAt, Tree.Counting;
    RootHeader(s);
    var h := HeaderAt(s, 0).size;
    tree := new Tree([], s, [h], true, nodesPerPage, AtMost(n));
    assert [] + s == s;
    var ok := tree.TryParse();
    while tree.flag == Ok
      invariant tree.Valid() && tree.Starved() && tree.streaming && tree.Stream() == s && tree.maxNodes == AtMost(n)
      invariant tree.data == s[..h] && tree.size == 0
      invariant if tree.flag == Ok then tree.nodeCount <= n else tree.flag == Flagged(TooBig)
      decreases n + 1 - tree.nodeCount
    {
      ok := tree.TryParse();
    }
  }

  /** A root with children starts with the header of a container, which fits a first read. */
  lemma RootHeader(s: seq<byte>)
    requires DecodeValue(s, 0).Done? && Children(HeaderAt(s, 0).tag) > 0
    ensures HeaderAt(s, 0).Head?
    ensures var Head(tag, h) := HeaderAt(s, 0);
            && ContainerTag(tag) && 0 < h <= |s| && h <= BUFFER_SIZE && |s[..h]| == h
            && HeaderAt(s[..h], 0) == HeaderAt(s, 0)
  {
    var h := HeaderAt(s, 0).size;
    HeaderTight(s, 0, h);
  }

  /** The bytes of [1, 2]. */
  const PAIR: seq<byte> := [0x92, 0x01, 0x02]

  lemma OneAndTwo()
    ensures var items := [UInt(1), UInt(2)];
            && AllWritable(items) && EncodeAll(items) == [0x01, 0x02]
            && CanonicalAll(items) == items && BelowAll(items) == 0
  {
    var one, items := [UInt(1)], [UInt(1), UInt(2)];
    assert items[..1] == one && one[..0] == [];
    assert EncodeAll(one) == EncodeAll([]) + Encode(UInt(1)) == [0x01];
    assert BelowAll(one) == 0;
  }

  lemma PairDecodes()
    ensures DecodeValue(PAIR, 0) == Done(Array([UInt(1), UInt(2)]), 3)
    ensures HeaderAt(PAIR, 0) == Head(ArrayTag(2), 1)
    ensures Nodes(Array([UInt(1), UInt(2)])) == 3
  {
    hide DecodeValue, EncodeAll, CanonicalAll, BelowAll, AllWritable;
    var items := [UInt(1), UInt(2)];
    OneAndTwo();
    assert EncodeTag(ArrayTag(2)) == [0x92];
    assert Encode(Array(items)) == PAIR;
    assert Occurs(Encode(Array(items)), PAIR, 0);
    ValueReadsBack(PAIR, 0, Array(items));
  }

  /**
    The array [1, 2] has three nodes: a limit of three accepts it at once, but not after a
    pause behind its first byte. A limit of two never does.
   */
  method PairUnderLimitThree() returns (whole: Tree, paused: Tree, tight: Tree)
    ensures whole.maxNodes == paused.maxNodes == AtMost(3) && paused.Valid() && paused.Stream() == PAIR
    ensures whole.flag == Ok && paused.flag == Flagged(TooBig)
    ensures tight.maxNodes == AtMost(2) && tight.flag != Ok
  {
    hide DecodeValue, HeaderAt, Tree.Running, Nodes;
    PairDecodes();
    whole := ParseWithin(PAIR, AtMost(3), 170);
    tight := ParseWithin(PAIR, AtMost(2), 170);
    paused := PauseUntilTooBig(PAIR, 3, 170);
  }
}
