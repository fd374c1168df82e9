/**
  The tree parser: one loop over nodes with an explicit stack, a ledger of bytes
  promised to children not yet read, and the ability to pause when data runs out.
 */
module TreeParsing {
  import opened Format
  import opened Reading
  import opened NodeCount
  import opened TreeLayout
  import opened TreeStorage

  datatype State = NotStarted | InProgress | Parsed

  const INITIAL_DEPTH: nat := 8
  const BUFFER_SIZE: nat := 4096

  class Tree {
    const nodesPerPage: nat
    const maxNodes: Limit
    /** Whether there is a read function; without one, all the data is there from the start. */
    const streaming: bool

    /**
      What the source has yet to deliver, how many bytes it has for each read to come
      (none once the list is used up), the data at hand, and the room for it.
     */
    var incoming: seq<byte>
    var plan: seq<nat>
    var data: seq<byte>
    var capacity: nat

    var size: nat
    var nodeCount: nat
    var state: State
    var flag: Flag

    var possible: nat
    var reserved: nat
    var stack: seq<Level>
    var level: nat

    var nodes: seq<Node>
    var free: nat
    var nodesLeft: nat
    var root: nat

    ghost var done: set<nat>
    ghost var frames: seq<Frame>
    /** Nodes given to the root and to child blocks so far. */
    ghost var handedOut: nat
    ghost var value: Value

    /** Everything from the start of the current message on, delivered or not. */
    ghost function Stream(): seq<byte>
      reads this
    {
      data + incoming
    }

    /** The stream from the next message to be returned on. */
    ghost function Rest(): seq<byte>
      reads this
      requires Valid()
    {
      if state == Parsed then Stream()[size..] else Stream()
    }

    /** The parts of the storage that the parse relies on. */
    ghost predicate StorageOk()
      reads this
    {
      Storage(nodes, done, frames, root, size, free, nodesLeft)
    }

    /**
      Every byte is consumed, promised to a node still owed, or possibly a node;
      and no more nodes are handed out than bytes that are consumed or promised.
     */
    ghost predicate Ledger(levels: seq<Level>)
      reads this
      requires level < |levels|
    {
      var owed := Owed(levels, level + 1);
      && possible + size + owed == |data|
      && OnTrack(Stream(), size, owed, handedOut)
      && handedOut <= size + owed
    }

    ghost predicate Running(levels: seq<Level>)
      reads this
    {
      && level < |levels| && |frames| == level + 1
      && Parsing(nodes, done, Stream(), frames, levels, root, size)
      && Ledger(levels)
      && StorageOk()
    }

    predicate OverLimit()
      reads this`nodeCount
    {
      maxNodes.AtMost? && nodeCount > maxNodes.n
    }

    /** Whether the root, open or just finished, is a container. */
    ghost predicate RootCounted()
      reads this
    {
      level > 0 || (frames != [] && frames[0].vals != [] && IsContainer(frames[0].vals[0]))
    }

    /**
      The node count, with the children of the current node counted but not handed out
      yet: exact without pauses, and too large only by what pauses counted again.
     */
    ghost predicate Charged(children: nat)
      reads this
    {
      && handedOut + children <= nodeCount
      && (!streaming ==> nodeCount == handedOut + children)
      && (Weigh(Stream(), 0, 1) == 0 ==> nodeCount == 1)
    }

    ghost predicate Counting()
      reads this
    {
      if flag == Ok then Charged(0) && (RootCounted() ==> !OverLimit())
      else
        && (Weigh(Stream(), 0, 1) == 0 ==> nodeCount == 1)
        && (!streaming ==> nodeCount <= 1 + Weigh(Stream(), 0, 1))
        && (flag == Flagged(TooBig) ==> OverLimit() && StartsContainer(Stream()))
    }

    ghost predicate Valid()
      reads this
    {
      && nodesPerPage > 0 && (!streaming ==> incoming == [])
      && match state
         case NotStarted => size == 0
         case InProgress => Running(stack) && stack[level].left > 0 && Counting()
         case Parsed =>
           && size <= |data|
           && DecodeValue(Stream(), 0) == Done(value, size)
           && Represents(nodes, done, Stream(), root, value)
           && BlobsOk(nodes, done, size) && OwnBlocks(nodes, done, root)
    }

    /** mpack_tree_init_data, mpack_tree_init_stream. */
    constructor (data: seq<byte>, incoming: seq<byte>, plan: seq<nat>, streaming: bool, nodesPerPage: nat,
      maxNodes: Limit)
      requires nodesPerPage > 0 && (if streaming then data == [] else incoming == [])
      ensures Valid() && state == NotStarted && flag == Ok && Stream() == data + incoming
      ensures this.data == data && this.incoming == incoming && this.plan == plan && capacity == 0
      ensures this.streaming == streaming && this.maxNodes == maxNodes
    {
      this.data, this.incoming, this.plan, this.streaming := data, incoming, plan, streaming;
      this.nodesPerPage, this.maxNodes := nodesPerPage, maxNodes;
      size, nodeCount, capacity := 0, 0, 0;
      state, flag := NotStarted, Ok;
      possible, reserved, stack, level := 0, 0, [], 0;
      nodes, free, nodesLeft, root := [], 0, 0, 0;
      done, frames, handedOut, value := {}, [], 0, Nil;
    }

    // ------------------------------------------------------------- more data

    /** The bytes the next read gets: as planned, as far as they are there and fit. */
    function Arriving(): (n: nat)
      reads this
      requires |data| <= capacity
      ensures n <= |incoming| && n <= capacity - |data|
    {
      var n: nat := if plan == [] then 0 else plan[0];
      if n <= |incoming| && n <= capacity - |data| then n
      else if |incoming| <= capacity - |data| then |incoming|
      else capacity - |data|
    }

    /** A reservation leaves the stream as it is and moves its front to the data at hand. */
    twostate predicate Fetched()
      reads this
    {
      && Stream() == old(Stream()) && old(data) <= data
      && (!streaming ==> incoming == [])
      && possible - |data| == old(possible - |data|)
      && (old(plan) == [] ==> plan == [] && data == old(data))
    }

    /** A source that has been given room for one planned read. */
    ghost predicate OneRead()
      reads this
    {
      && streaming && data == [] && capacity == 0
      && |plan| == 1 && 0 < plan[0] <= |incoming| && plan[0] <= BUFFER_SIZE
    }

    /** mpack_tree_reserve_fill: reads until the reservation is covered, or pauses. */
    method ReserveFill() returns (ok: bool)
      requires reserved > possible && flag == Ok
      requires !streaming ==> incoming == []
      modifies this`incoming, this`plan, this`data, this`capacity, this`possible, this`flag
      ensures Fetched()
      ensures ok ==> flag == Ok && reserved <= possible
      ensures !ok ==> reserved > possible && flag == if streaming then Ok else Flagged(Invalid)
      ensures old(OneRead()) && reserved == 1 && old(possible) == 0 ==>
                ok && data == old(incoming[..plan[0]]) && plan == []
    {
      if !streaming {
        flag := Flagged(Invalid);
        return false;
      }
      if |data| + reserved > capacity {
        var larger := if capacity == 0 then BUFFER_SIZE else capacity;
        while larger < |data| + reserved
          invariant larger > 0
          invariant |data| + reserved <= BUFFER_SIZE && capacity == 0 ==> larger == BUFFER_SIZE
          decreases |data| + reserved - larger
        {
          larger := 2 * larger;
        }
        capacity := larger;
      }
      ok := FillUp();
    }

    /** The reading loop of mpack_tree_reserve_fill. */
    method FillUp() returns (ok: bool)
      requires reserved > possible && flag == Ok && streaming
      requires |data| + (reserved - possible) <= capacity
      modifies this`incoming, this`plan, this`data, this`possible
      ensures Fetched()
      ensures ok == (reserved <= possible)
      ensures |old(plan)| == 1 && old(Arriving()) > 0 && reserved == 1 && old(possible) == 0 ==>
                ok && data == old(data + incoming[..Arriving()]) && plan == []
    {
      ghost var whole := Stream();
      while possible < reserved
        invariant Stream() == whole && old(data) <= data
        invariant possible - |data| == old(possible - |data|)
        invariant |data| + (reserved - possible) <= capacity
        invariant old(plan) == [] ==> plan == [] && data == old(data)
        invariant (plan == old(plan) && data == old(data) && incoming == old(incoming))
                  || (|old(plan)| == 1 && old(Arriving()) > 0 ==>
                        data == old(data + incoming[..Arriving()]) && plan == [])
        decreases |plan|
      {
        var read := Arriving();
        if read == 0 {
          plan := if plan == [] then [] else plan[1..];
          return false;
        }
        assert data + incoming[..read] + incoming[read..] == data + incoming;
        plan := plan[1..];
        data := data + incoming[..read];
        incoming := incoming[read..];
        possible := possible + read;
      }
      return true;
    }

    /** mpack_tree_reserve_bytes: room for the current node beyond what is promised to others. */
    method ReserveBytes(extra: nat) returns (ok: bool)
      requires flag == Ok && (!streaming ==> incoming == [])
      modifies this`incoming, this`plan, this`data, this`capacity, this`possible, this`flag, this`reserved
      ensures reserved == old(reserved) + extra && Fetched()
      ensures ok ==> flag == Ok && reserved <= possible
      ensures !ok ==> reserved > possible && flag == if streaming then Ok else Flagged(Invalid)
      ensures old(OneRead()) && reserved == 1 && old(possible) == 0 ==>
                ok && data == old(incoming[..plan[0]]) && plan == []
    {
      reserved := reserved + extra;
      if reserved <= possible {
        return true;
      }
      ok := ReserveFill();
    }

    // ------------------------------------------------------------ node storage

    /** A block of nodes for the children: from the current page, a page of its own, or a fresh page. */
    method AllocateChildren(total: nat) returns (children: nat)
      requires nodesPerPage > 0 && StorageOk()
      modifies this`nodes, this`free, this`nodesLeft
      ensures StorageOk() && |nodes| >= old(|nodes|) && nodes[..old(|nodes|)] == old(nodes)
      ensures Vacant(nodes, done, frames, root, Block(children, total), free, nodesLeft)
    {
      hide Storage, Vacant;
      ghost var before := nodes;
      if total <= nodesLeft {
        TakeFromPage(nodes, done, frames, root, size, free, nodesLeft, total);
        children := free;
        free, nodesLeft := free + total, nodesLeft - total;
      } else if total > nodesPerPage || nodesLeft > nodesPerPage / 8 {
        children := |nodes|;
        nodes := nodes + BlankPage(total);
        OwnPage(before, nodes, done, frames, root, size, free, nodesLeft);
      } else {
        children := |nodes|;
        nodes := nodes + BlankPage(nodesPerPage);
        FreshPage(before, nodes, done, frames, root, size, free, nodesLeft, total);
        free, nodesLeft := children + total, nodesPerPage - total;
      }
    }

    // ------------------------------------------------------------ one node

    /** The stack once the current node has been counted off, which the loop does after parsing it. */
    function CountedOff(at: nat): (r: seq<Level>)
      reads this
      requires at < |stack| && stack[at].left > 0
      ensures |r| == |stack|
    {
      stack[at := Level(stack[at].child + 1, stack[at].left - 1)]
    }

    /** A step that did not finish its node: the node is still owed and nothing is lost. */
    twostate predicate Stopped()
      reads this
    {
      && Valid() && state == InProgress && size == old(size) && Fetched()
      && (flag == Ok ==> streaming)
      && (flag.Flagged? && flag != Flagged(TooBig) ==> DecodeValue(Stream(), 0).Failed?)
      && (flag == Ok && incoming == [] ==> DecodeValue(Stream(), 0).Failed?)
    }

    /** A finished node, before the loop counts it off. */
    ghost predicate Moved(at: nat, from: nat, whole: seq<byte>)
      reads this
    {
      && nodesPerPage > 0 && (!streaming ==> incoming == [])
      && state == InProgress && flag == Ok && Stream() == whole && from < size
      && at < |stack| && stack[at].left > 0 && at <= level
      && Running(CountedOff(at)) && Counting()
    }

    /** What the data at hand must hold for a node whose reservation succeeds. */
    twostate predicate Covers(need: nat)
      reads this
    {
      need <= old(possible) + |data| - old(|data|) && (old(plan) == [] ==> |data| == old(|data|))
    }

    /** A node whose reservation the ledger cannot cover cannot be read from what has been delivered. */
    lemma NotEnough(need: nat)
      requires level < |stack| && Running(stack) && stack[level].left > 0
      requires need > possible
      requires match HeaderAt(Stream(), size)
               case NoHead(_) => true
               case Head(tag, header) => need <= Reserve(tag, header)
      ensures incoming == [] ==> DecodeValue(Stream(), 0).Failed?
    {
      hide HeaderAt, Skip, Weigh, Parsing, Payload, Children, Storage;
      if incoming == [] {
        assert Stream() == data;
        OwesOne(stack, level);
        TooFewBytes(Stream(), size, Owed(stack, level + 1));
        StuckFails(Stream(), size, Owed(stack, level + 1));
      }
    }

    /** mpack_tree_parse_node for a node without children, whose content is reserved. */
    method FinishLeaf(tag: Tag, children: nat)
      requires level < |stack| && Running(stack) && stack[level].left > 0
      requires Children(tag) == 0
      requires ContainerTag(tag) ==> Vacant(nodes, done, frames, root, Block(children, 0), free, nodesLeft)
      requires HeaderAt(data, size).Head? && HeaderAt(data, size).tag == tag
      requires reserved == HeaderAt(data, size).size - 1 + Payload(tag) && reserved <= possible
      modifies this`nodes, this`possible, this`size, this`done, this`frames
      ensures stack[level].left > 0 && Running(CountedOff(level))
      ensures size > old(size) && frames != []
      ensures level == 0 ==> frames[0].vals != [] && (IsContainer(frames[0].vals[0]) <==> ContainerTag(tag))
    {
      hide LeadOf, HeaderAt, OnTrack, Parsing, Payload, Children, LeafNode, Assemble, Storage, Vacant;
      ghost var s, top, header := Stream(), level, HeaderAt(data, size).size;
      HeaderStable(data, s, size);
      var cell := stack[level].child;
      var node := LeafNode(tag, size + reserved + 1 - Payload(tag), children);
      assert size + reserved + 1 - Payload(tag) == size + header;
      ghost var v := Assemble(tag, s[size + header..size + header + Payload(tag)], []);
      LeafStep(nodes, done, s, frames, stack, root, size, tag, node, children, free, nodesLeft);
      TrackStep(s, size, Owed(stack, level + 1), handedOut);
      OwedLess(stack, level);
      RootLeaf(frames, tag, s[size + header..size + header + Payload(tag)]);
      nodes := nodes[cell := node];
      done := done + {cell};
      frames := frames[top := frames[top].(vals := frames[top].vals + [v])];
      possible := possible - reserved;
      size := size + reserved + 1;
    }

    /** mpack_tree_push_stack: a level for the children, doubling the stack when it is full. */
    method PushStack(children: nat, total: nat)
      requires level < |stack|
      modifies this`stack, this`level
      ensures level == old(level) + 1 < |stack|
      ensures stack[..level] == old(stack[..level + 1]) && stack[level] == Level(children, total)
      ensures |stack| == if old(level) + 1 == old(|stack|) then 2 * old(|stack|) else old(|stack|)
    {
      if level + 1 == |stack| {
        stack := stack + seq(|stack|, _ => Level(0, 0));
      }
      level := level + 1;
      stack := stack[level := Level(children, total)];
    }

    /** The parts of a running parse, to take it apart and put it together again. */
    lemma RunningParts(levels: seq<Level>)
      requires level < |levels| && |frames| == level + 1
      ensures Running(levels) <==>
                && Parsing(nodes, done, Stream(), frames, levels, root, size)
                && possible + size + Owed(levels, level + 1) == |data|
                && OnTrack(Stream(), size, Owed(levels, level + 1), handedOut)
                && handedOut <= size + Owed(levels, level + 1)
                && Storage(nodes, done, frames, root, size, free, nodesLeft)
    {
      hide Parsing, OnTrack, Storage, Owed;
    }

    /** The current node with children: its cell, its level on the stack and its share of the ledger. */
    method OpenChildren(tag: Tag, children: nat)
      requires level < |stack| && |frames| == level + 1 && Running(stack) && stack[level].left > 0
      requires ContainerTag(tag) && Children(tag) > 0
      requires HeaderAt(data, size).Head? && HeaderAt(data, size).tag == tag
      requires reserved == HeaderAt(data, size).size - 1 + Children(tag) && reserved <= possible
      requires Vacant(nodes, done, frames, root, Block(children, Children(tag)), free, nodesLeft)
      modifies this`nodes, this`stack, this`level, this`possible, this`size, this`done, this`frames, this`handedOut
      ensures old(level) < level && old(level) < |stack| && stack[old(level)].left > 0
      ensures Running(CountedOff(old(level)))
      ensures size > old(size) && handedOut == old(handedOut) + Children(tag)
    {
      hide HeaderAt, OnTrack, Parsing, Payload, Children, Owed, Storage, Vacant, Running;
      ghost var s, top, header, total := Stream(), level, HeaderAt(data, size).size, Children(tag);
      ghost var g := Frame(children, total, [], size + header);
      RunningParts(stack);
      DataLeads(data, incoming, size);
      ghost var stackBefore, nodesBefore := stack, nodes;
      var cell := stack[level].child;
      CellInRange(nodes, done, s, frames, stack, root, size);
      nodes := nodes[cell := Compound(tag.MapTag?, tag.count, children)];
      PushStack(children, ChildCount(tag));
      OpenStorage(nodesBefore, done, s, frames, stackBefore, root, size, tag, g, free, nodesLeft);
      OpenStep(nodesBefore, nodes, done, s, frames, stackBefore, stack, root, size, tag, g);
      OpenLedger(s, stackBefore, stack, top, size, tag, g.total, handedOut);
      done := done + {cell};
      frames := frames + [g];
      handedOut := handedOut + total;
      possible := possible - reserved;
      size := size + (reserved + 1 - ChildCount(tag));
      RunningParts(CountedOff(top));
    }

    /** What the count says about a container met now: its children belong to the message. */
    lemma ContainerMet(tag: Tag)
      requires level < |stack| && Running(stack) && stack[level].left > 0
      requires ContainerTag(tag) && HeaderAt(Stream(), size).Head? && HeaderAt(Stream(), size).tag == tag
      ensures handedOut > 0 && handedOut + Children(tag) <= 1 + Weigh(Stream(), 0, 1)
      ensures StartsContainer(Stream())
    {
      hide HeaderAt, Weigh, Skip, Parsing, Children, Storage, StartsContainer;
      OwesOne(stack, level);
      NoPayload(tag);
      TrackMeets(Stream(), size, Owed(stack, level + 1), handedOut);
      RootMet(nodes, done, Stream(), frames, stack, root, size);
    }

    /** mpack_tree_parse_children: counts the nodes, promises them a byte each and makes room for them. */
    method ParseChildren(tag: Tag) returns (ok: bool)
      requires Valid() && state == InProgress && flag == Ok
      requires ContainerTag(tag)
      requires HeaderAt(data, size) == Head(tag, reserved + 1) && reserved <= possible
      modifies this
      ensures ok ==> Moved(old(level), old(size), old(Stream())) && Covers(old(reserved) + Children(tag))
      ensures !ok ==> Stopped()
      ensures nodeCount == old(nodeCount) + Children(tag)
      ensures flag == Flagged(TooBig) <==> OverLimit()
    {
      hide HeaderAt, OnTrack, Parsing, Payload, Storage, DecodeValue, Represents, Owed, Weigh, StartsContainer;
      var total := ChildCount(tag);
      NoPayload(tag);
      HeaderStable(data, Stream(), size);
      ContainerMet(tag);
      nodeCount := nodeCount + total;
      if OverLimit() {
        flag := Flagged(TooBig);
        return false;
      }
      ok := ClaimChildren(tag);
    }

    /** A byte is promised to each child, and the children are placed. */
    method ClaimChildren(tag: Tag) returns (ok: bool)
      requires nodesPerPage > 0 && (!streaming ==> incoming == [])
      requires state == InProgress && flag == Ok
      requires level < |stack| && Running(stack) && stack[level].left > 0
      requires ContainerTag(tag) && Charged(Children(tag)) && !OverLimit()
      requires !streaming ==> nodeCount <= 1 + Weigh(Stream(), 0, 1)
      requires HeaderAt(data, size) == Head(tag, reserved + 1) && reserved <= possible
      modifies this
      ensures ok ==> Moved(old(level), old(size), old(Stream())) && Covers(old(reserved) + Children(tag))
      ensures !ok ==> Stopped()
      ensures nodeCount == old(nodeCount) && flag != Flagged(TooBig)
    {
      hide HeaderAt, OnTrack, Parsing, Payload, Storage, DecodeValue, Represents, Owed, Weigh, StartsContainer;
      NoPayload(tag);
      ok := ReserveBytes(ChildCount(tag));
      HeaderStable(old(data), data, size);
      HeaderStable(data, Stream(), size);
      if !ok {
        NotEnough(reserved);
        return false;
      }
      PlaceChildren(tag);
    }

    /** The children's nodes are found room for, and the container is opened unless it is empty. */
    method PlaceChildren(tag: Tag)
      requires nodesPerPage > 0 && (!streaming ==> incoming == [])
      requires state == InProgress && flag == Ok
      requires level < |stack| && Running(stack) && stack[level].left > 0
      requires ContainerTag(tag) && Charged(Children(tag)) && !OverLimit()
      requires HeaderAt(data, size).Head? && HeaderAt(data, size).tag == tag
      requires reserved == HeaderAt(data, size).size - 1 + Children(tag) && reserved <= possible
      modifies this`nodes, this`free, this`nodesLeft, this`stack, this`level, this`possible, this`size, this`done,
               this`frames, this`handedOut
      ensures Moved(old(level), old(size), old(Stream()))
    {
      hide HeaderAt, OnTrack, Parsing, Storage, Vacant, DecodeValue, Represents, Owed, Weigh;
      NoPayload(tag);
      var total := ChildCount(tag);
      ghost var before := nodes;
      var children := AllocateChildren(total);
      ParsingGrows(before, nodes, done, Stream(), frames, stack, root, size);
      if total == 0 {
        FinishLeaf(tag, children);
      } else {
        OpenChildren(tag, children);
      }
    }

    /** The part of mpack_tree_parse_node_contents that follows a complete header. */
    method ParseContents(tag: Tag) returns (ok: bool)
      requires Valid() && state == InProgress && flag == Ok
      requires HeaderAt(data, size) == Head(tag, reserved + 1) && reserved <= possible
      modifies this
      ensures ok ==> Moved(old(level), old(size), old(Stream())) && Covers(old(reserved) + Payload(tag) + Children(tag))
      ensures !ok ==> Stopped()
      ensures nodeCount == old(nodeCount) + Children(tag)
      ensures flag == Flagged(TooBig) <==> ContainerTag(tag) && OverLimit()
    {
      hide LeadOf, HeaderAt, OnTrack, Parsing, Storage, Vacant, Weigh, StartsContainer, DecodeValue, Represents, Owed;
      if ContainerTag(tag) {
        NoPayload(tag);
        ok := ParseChildren(tag);
        return;
      }
      ok := ReserveForNode(Payload(tag));
      HeaderStable(old(data), data, size);
      HeaderStable(data, Stream(), size);
      if !ok {
        NotEnough(reserved);
        return false;
      }
      FinishLeaf(tag, 0);
    }

    /** mpack_tree_parse_node: the current node, or a pause or an error that leaves it to be read. */
    method ParseNode() returns (ok: bool)
      requires Valid() && state == InProgress && flag == Ok
      modifies this
      ensures ok ==> Moved(old(level), old(size), old(Stream()))
      ensures !ok ==> Stopped()
      ensures old(HeaderReserved()) ==> Counted(old(nodeCount), old(HeaderAt(data, size).tag))
      ensures ok && old(HeaderReserved()) ==> Covers(old(Reserve(HeaderAt(data, size).tag, HeaderAt(data, size).size)))
    {
      hide OnTrack, Parsing, Storage, WideTag, Load, Children, Payload, Weigh, StartsContainer, DecodeValue, Represents;
      reserved := 0;
      NodeFits();
      match LeadOf(data[size])
      case Rejected(error) =>
        BadLead();
        CountBound();
        LeadsDiffer(data[size]);
        flag := Flagged(error);
        return false;
      case Fixed(tag) =>
        ok := ParseContents(tag);
      case Wide(family, w) =>
        ok := ParseWide(family, w);
    }

    /** What is reserved for the node being read is there, behind its first byte. */
    lemma NodeFits()
      requires Valid() && state == InProgress
      ensures level < |stack| && size + 1 + possible <= |data|
    {
      hide OnTrack, Parsing, Storage, DecodeValue, Represents, Weigh, StartsContainer;
      OwesOne(stack, level);
    }

    /** A reservation for the node being read: nothing else about the parse changes. */
    method ReserveForNode(extra: nat) returns (ok: bool)
      requires Valid() && state == InProgress && flag == Ok
      modifies this`incoming, this`plan, this`data, this`capacity, this`possible, this`flag, this`reserved
      ensures Valid() && Fetched()
      ensures reserved == old(reserved) + extra
      ensures ok ==> flag == Ok && reserved <= possible
      ensures !ok ==> reserved > possible && flag == if streaming then Ok else Flagged(Invalid)
    {
      hide OnTrack, Parsing, Storage, Owed, DecodeValue, Represents, Weigh, StartsContainer;
      CountBound();
      ok := ReserveBytes(extra);
    }

    /** Without pauses the count never exceeds the message's nodes. */
    lemma CountBound()
      requires Valid() && state == InProgress && flag == Ok
      ensures !streaming ==> nodeCount <= 1 + Weigh(Stream(), 0, 1)
    {
      hide Skip, Weigh, Parsing, Storage, DecodeValue, Represents;
      TrackBounds(Stream(), size, Owed(stack, level + 1), handedOut);
    }

    /** A node whose length or value is a field of its own. */
    method ParseWide(family: Family, w: nat) returns (ok: bool)
      requires Valid() && state == InProgress && flag == Ok && reserved == 0
      requires size < |data| && LeadOf(data[size]) == Wide(family, w)
      modifies this
      ensures ok ==> Moved(old(level), old(size), old(Stream()))
      ensures !ok ==> Stopped()
      ensures old(HeaderReserved()) ==> Counted(old(nodeCount), old(HeaderAt(data, size).tag))
      ensures ok && old(HeaderReserved()) ==> Covers(old(Reserve(HeaderAt(data, size).tag, HeaderAt(data, size).size)))
    {
      hide OnTrack, Parsing, Storage, WideTag, Load, Children, LeadOf, HeaderAt, Payload, DecodeValue, Running,
           Counting;
      WideHeader(data, size);
      WideHeader(Stream(), size);
      ok := ReserveForNode(w);
      NodeFits();
      WideHeader(data, size);
      if !ok {
        NotEnough(w);
        return false;
      }
      if old(HeaderAt(data, size).Head?) {
        HeaderStable(old(data), data, size);
      }
      ok := ParseContents(WideTag(family, Load(data, size + 1, w), w));
    }

    /** The current node's header is there, and not only thanks to bytes promised to other nodes. */
    ghost predicate HeaderReserved()
      reads this
    {
      size <= |data| && HeaderAt(data, size).Head? && HeaderAt(data, size).size <= possible + 1
    }

    /** A visit to a node adds its children to the count, whether or not it then has to pause. */
    predicate Counted(before: nat, tag: Tag)
      reads this
    {
      && nodeCount == before + Children(tag)
      && (flag == Flagged(TooBig) <==> ContainerTag(tag) && OverLimit())
    }

    /** A container is met with its header complete, its children are not covered, and nothing arrives. */
    ghost predicate Starved()
      reads this
    {
      && state == InProgress && plan == [] && HeaderReserved()
      && ContainerTag(HeaderAt(data, size).tag)
      && Reserve(HeaderAt(data, size).tag, HeaderAt(data, size).size) > possible
    }

    lemma BadLead()
      requires level < |stack| && Running(stack) && stack[level].left > 0
      requires size < |data| && LeadOf(data[size]).Rejected?
      ensures DecodeValue(Stream(), 0).Failed?
    {
      hide Skip, Weigh, Parsing, Payload, Children, Storage;
      OwesOne(stack, level);
      assert Stream()[size] == data[size];
      TooFewBytes(Stream(), size, Owed(stack, level + 1));
      StuckFails(Stream(), size, Owed(stack, level + 1));
    }

    // ------------------------------------------------------------ the loop

    /** mpack_tree_continue_parsing: node after node until the stack is empty or data runs out. */
    method ContinueParsing() returns (ok: bool)
      requires Valid() && state == InProgress && flag == Ok
      modifies this
      ensures ok ==> Valid() && state == Parsed && flag == Ok && Stream() == old(Stream()) && Accepts(maxNodes, value)
      ensures !ok ==> Valid() && state == InProgress && Stream() == old(Stream())
      ensures !ok ==> (flag == Ok ==> streaming)
      ensures !ok ==> (flag.Flagged? && flag != Flagged(TooBig) ==> DecodeValue(Stream(), 0).Failed?)
      ensures !ok ==> (flag == Ok && incoming == [] ==> DecodeValue(Stream(), 0).Failed?)
      ensures old(Starved()) ==> !ok && Starved() && data == old(data) && size == old(size)
      ensures old(Starved()) ==> Counted(old(nodeCount), HeaderAt(data, size).tag)
    {
      hide OnTrack, Parsing, Storage, HeaderAt, DecodeValue, Represents, Weigh, StartsContainer, Payload, Children;
      ok := false;
      ghost var first := true;
      while !ok
        invariant flag == Ok && Stream() == old(Stream())
        invariant ok ==> Valid() && state == Parsed && Accepts(maxNodes, value)
        invariant !ok ==> Valid() && state == InProgress
        invariant first ==> !ok && Untouched()
        invariant old(Starved()) ==> first
        decreases !ok, |Stream()| - size
      {
        var at := level;
        ok := ParseNode();
        if !ok {
          return;
        }
        ok := AfterNode(at);
        first := false;
      }
    }

    /** What a visit to a node depends on is as it was. */
    twostate predicate Untouched()
      reads this
    {
      data == old(data) && size == old(size) && plan == old(plan) && possible == old(possible)
        && nodeCount == old(nodeCount)
    }

    /** The rest of the loop's body: the node is counted off and emptied levels are popped. */
    method AfterNode(at: nat) returns (finished: bool)
      requires exists from, whole :: Moved(at, from, whole)
      modifies this`stack, this`level, this`frames, this`state, this`value
      ensures Valid() && finished == (state == Parsed) && (finished ==> Accepts(maxNodes, value))
      ensures !finished ==> state == InProgress
    {
      hide OnTrack, Parsing, Storage, HeaderAt, DecodeValue, Represents, Weigh, StartsContainer;
      stack := CountedOff(at);
      while stack[level].left == 0
        invariant level < |stack| && Running(stack) && state == InProgress && Counting()
        invariant nodesPerPage > 0 && (!streaming ==> incoming == [])
        decreases level
      {
        if level == 0 {
          Finish();
          return true;
        }
        Pop();
      }
      return false;
    }

    /** An emptied level is left; its container has become a value of the level below. */
    method Pop()
      requires level < |stack| && Running(stack) && stack[level].left == 0 && level > 0
      requires flag == Ok && Counting()
      modifies this`level, this`frames
      ensures level == old(level) - 1 && Running(stack) && Counting()
    {
      hide OnTrack, Parsing, Storage, Weigh;
      StepClose(nodes, done, Stream(), frames, stack, root, size);
      SameBlocks(nodes, frames);
      StorageFrames(nodes, done, frames, Closed(nodes, frames), root, size, free, nodesLeft);
      frames := Closed(nodes, frames);
      level := level - 1;
    }

    /** The stack is empty: the message is complete. Its callers then mark the tree as parsed. */
    method Finish()
      requires nodesPerPage > 0 && (!streaming ==> incoming == [])
      requires level < |stack| && Running(stack) && stack[level].left == 0 && level == 0
      requires flag == Ok && Counting()
      modifies this`state, this`value
      ensures Valid() && state == Parsed && Accepts(maxNodes, value)
    {
      hide Skip, Parsing, Weigh, BlobsOk, OwnBlocks, Unused;
      StepFinish(nodes, done, Stream(), frames, stack, root, size);
      NothingOwed(stack);
      TrackEnds(Stream(), size, handedOut);
      DecodeWeighs(Stream(), 0);
      value := frames[0].vals[0];
      state := Parsed;
    }

    // ----------------------------------------------------------- whole messages

    /** The start of mpack_tree_parse_start: the previous message is dropped. */
    method DropMessage()
      requires Valid() && state != InProgress && flag == Ok
      modifies this`data, this`size, this`nodeCount, this`state, this`possible, this`reserved
      ensures Stream() == old(Rest()) && state == NotStarted && size == 0 && reserved == 0 && possible == |data|
      ensures old(size) == 0 ==> data == old(data)
    {
      hide DecodeValue, Represents, Running;
      reserved := 0;
      if size > 0 {
        assert (data + incoming)[size..] == data[size..] + incoming;
        data := data[size..];
        size := 0;
        nodeCount := 0;
      }
      state := NotStarted;
      possible := |data|;
    }

    /** mpack_tree_parse_start: drops the previous message, and waits for a first byte. */
    method ParseStart() returns (ok: bool)
      requires Valid() && state != InProgress && flag == Ok
      modifies this
      ensures Valid() && Stream() == old(Rest())
      ensures ok ==> state == InProgress && flag == Ok
      ensures !ok ==> state == NotStarted && flag == if streaming then Ok else Flagged(Invalid)
      ensures !ok && incoming == [] ==> Stream() == []
      ensures old(state == NotStarted && OneRead()) ==>
                ok && data == old(incoming[..plan[0]]) && plan == [] && size == 0 && possible + 1 == |data|
                  && nodeCount == 1
    {
      hide Running, DecodeValue, Represents, Weigh, StartsContainer;
      DropMessage();
      ok := ReserveBytes(1);
      if !ok {
        return;
      }
      state := InProgress;
      InitParser();
    }

    /** The rest of mpack_tree_parse_start: the first page, the root node and the bottom of the stack. */
    method InitParser()
      requires nodesPerPage > 0 && flag == Ok
      requires size == 0 && possible == |data| > 0
      modifies this`possible, this`nodeCount, this`stack, this`nodes, this`root, this`free, this`nodesLeft, this`level,
               this`done, this`frames, this`handedOut
      ensures level < |stack| && Running(stack) && stack[level].left > 0 && Counting()
      ensures possible + 1 == |data| && nodeCount == 1
    {
      hide Running, Counting, BlankPage, FirstStack;
      possible := possible - 1;
      nodeCount := 1;
      stack := FirstStack();
      nodes := BlankPage(nodesPerPage);
      root, free, nodesLeft := 0, 1, nodesPerPage - 1;
      level := 0;
      done, frames, handedOut := {}, [Frame(root, 1, [], 0)], 1;
      Started();
    }

    lemma Started()
      requires flag == Ok && nodeCount == 1
      requires size == 0 && possible + 1 == |data| && level == 0 && root == 0 && handedOut == 1
      requires |stack| > 0 && stack[0] == Level(0, 1)
      requires |nodes| > 0 && free == 1 && nodesLeft == |nodes| - 1 && done == {} && frames == [Frame(0, 1, [], 0)]
      ensures Running(stack) && Counting()
    {
      hide OnTrack, Parsing, Storage, Owed, Weigh;
      FreshParse(nodes, Stream(), stack);
      StorageFresh(nodes, frames[0]);
      TrackStarts(Stream());
      OneOwed(stack);
    }

    /** mpack_tree_try_parse: one message, if all of it has been delivered and read; nothing after an error. */
    method TryParse() returns (ok: bool)
      requires Valid()
      modifies this
      ensures Valid()
      ensures old(flag) != Ok ==> !ok && flag == old(flag) && state == old(state) && Rest() == old(Rest())
      ensures ok ==> state == Parsed && flag == Ok && Stream() == old(Rest()) && Accepts(maxNodes, value)
      ensures !ok && old(flag) == Ok ==> state != Parsed && Stream() == old(Rest())
      ensures !ok && flag == Ok ==> streaming
      ensures old(flag) == Ok && !ok && flag.Flagged? && flag != Flagged(TooBig) ==> DecodeValue(old(Rest()), 0).Failed?
      ensures old(flag) == Ok && flag == Flagged(TooBig) ==> state == InProgress && OverLimit()
      ensures old(flag) == Ok && !ok && flag == Ok && incoming == [] ==> DecodeValue(old(Rest()), 0).Failed?
      ensures old(flag == Ok && Starved()) ==> !ok && Starved() && data == old(data) && size == old(size)
      ensures old(flag == Ok && Starved()) ==> Counted(old(nodeCount), HeaderAt(data, size).tag)
      ensures old(flag == Ok && HeaderFirst()) ==>
                && !ok && Starved() && data == old(incoming[..plan[0]]) && size == 0
                && Counted(1, HeaderAt(data, 0).tag)
    {
      hide OnTrack, DecodeValue, Represents, Parsing, Storage, Weigh, StartsContainer, HeaderAt, Payload, Children,
           Running;
      if flag != Ok {
        return false;
      }
      if state != InProgress {
        ok := ParseStart();
        if !ok {
          EmptyFails(Stream());
          return false;
        }
      }
      ok := ContinueParsing();
    }

    /** The first read is planned to bring just the header of a container with children, and nothing comes after it. */
    ghost predicate HeaderFirst()
      reads this
    {
      && state == NotStarted && OneRead()
      && var first := incoming[..plan[0]];
         && HeaderAt(first, 0).Head? && HeaderAt(first, 0).size == |first|
         && ContainerTag(HeaderAt(first, 0).tag) && Children(HeaderAt(first, 0).tag) > 0
    }

    /** A limit that trips does so at a container, and without pauses only for a message that has too many nodes. */
    lemma LimitTripped()
      requires Valid() && state == InProgress && flag == Flagged(TooBig) && DecodeValue(Stream(), 0).Done?
      ensures IsContainer(DecodeValue(Stream(), 0).value)
      ensures !streaming || Children(HeaderAt(Stream(), 0).tag) == 0 ==>
                !Accepts(maxNodes, DecodeValue(Stream(), 0).value)
    {
      hide Running, DecodeValue, Represents, Weigh, StartsContainer;
      DecodeWeighs(Stream(), 0);
      ContainerDecoded(Stream());
    }

    /** mpack_tree_parse: one message, all of which must be there or arrive at once; nothing after an error. */
    method Parse()
      requires Valid()
      modifies this
      ensures Valid()
      ensures old(flag) != Ok ==> flag == old(flag) && state == old(state) && Rest() == old(Rest())
      ensures old(flag) == Ok ==> (flag == Ok <==> state == Parsed) && Stream() == old(Rest())
      ensures old(flag) == Ok && !streaming ==>
                (flag == Ok <==>
                   DecodeValue(old(Rest()), 0).Done? && Accepts(maxNodes, DecodeValue(old(Rest()), 0).value))
    {
      hide DecodeValue, Represents, Parsing, Storage, OnTrack, Weigh, StartsContainer;
      if flag != Ok {
        return;
      }
      var ok := TryParse();
      if flag == Flagged(TooBig) && DecodeValue(Stream(), 0).Done? {
        LimitTripped();
      }
      if !ok && flag == Ok {
        flag := Flagged(if streaming then Io else Invalid);
      }
    }

    /** Reads a finished node and everything below it, as the node accessors do. */
    method Extract(addr: nat, ghost v: Value) returns (r: Value)
      requires Represents(nodes, done, Stream(), addr, v) && BlobsOk(nodes, done, |data|)
      ensures r == v
      decreases v
    {
      match nodes[addr]
      case Scalar(tag) =>
        r := Assemble(tag, [], []);
      case Blob(isStr, offset, len) =>
        assert data[offset..offset + len] == Stream()[offset..offset + len];
        r := if isStr then Str(data[offset..offset + len]) else Bin(data[offset..offset + len]);
      case Compound(isMap, len, children) =>
        var count := if isMap then 2 * len else len;
        var items: seq<Value> := [];
        ghost var whole := v.items;
        while |items| < count
          invariant |items| <= count && items == whole[..|items|]
        {
          var item := Extract(children + |items|, whole[|items|]);
          items := items + [item];
        }
        r := if isMap then Map(items) else Array(items);
    }
  }

  function BlankPage(n: nat): (nodes: seq<Node>)
    ensures |nodes| == n
  {
    seq(n, _ => Unset)
  }

  /** The local stack, with the root at the bottom. */
  function FirstStack(): (stack: seq<Level>)
    ensures |stack| == INITIAL_DEPTH && stack[0] == Level(0, 1)
  {
    [Level(0, 1)] + seq(INITIAL_DEPTH - 1, _ => Level(0, 0))
  }

  lemma EmptyFails(s: seq<byte>)
    ensures s == [] ==> DecodeValue(s, 0).Failed?
  {
  }

  lemma FreshParse(nodes: seq<Node>, s: seq<byte>, stack: seq<Level>)
    requires |nodes| > 0 && |stack| > 0 && stack[0] == Level(0, 1)
    ensures Parsing(nodes, {}, s, [Frame(0, 1, [], 0)], stack, 0, 0)
  {
    hide DecodeValues, Represents;
    NothingYet(nodes, {}, s, Frame(0, 1, [], 0));
  }

  lemma OneOwed(stack: seq<Level>)
    requires |stack| > 0 && stack[0].left == 1
    ensures Owed(stack, 1) == 1
  {
    assert Owed(stack, 0) == 0;
  }

  lemma NothingOwed(stack: seq<Level>)
    requires |stack| > 0 && stack[0].left == 0
    ensures Owed(stack, 1) == 0
  {
    assert Owed(stack, 0) == 0;
  }

  lemma SameBlocks(nodes: seq<Node>, frames: seq<Frame>)
    requires |frames| > 1
    requires var f := frames[|frames| - 2]; f.base + |f.vals| < |nodes| && nodes[f.base + |f.vals|].Compound?
    ensures |Closed(nodes, frames)| == |frames| - 1 && SameExtents(frames, Closed(nodes, frames))
  {
  }

  /** A container is met: the root is one, open or being read. */
  lemma RootMet(nodes: seq<Node>, done: set<nat>, s: seq<byte>, frames: seq<Frame>, stack: seq<Level>, root: nat,
                pos: nat)
    requires Parsing(nodes, done, s, frames, stack, root, pos) && stack[|frames| - 1].left > 0
    requires pos <= |s| && HeaderAt(s, pos).Head? && ContainerTag(HeaderAt(s, pos).tag)
    ensures StartsContainer(s)
  {
    hide HeaderAt, Represents, BlocksOk, DecodeValue;
    var f := frames[0];
    assert FrameOk(nodes, done, s, f) && AtLevel(stack[0], f, 0 < |frames| - 1);
    if |frames| > 1 {
      assert Linked(nodes, done, s, f, frames[1]);
    }
    assert f.vals == [];
    NoneDecoded(s);
  }

  lemma NoneDecoded(s: seq<byte>)
    ensures DecodeValues(s, 0, 0) == Done([], 0)
  {
  }

  /** The value of a node without children, as the root's value. */
  lemma RootLeaf(frames: seq<Frame>, tag: Tag, payload: seq<byte>)
    ensures frames != [] && frames[0].vals == [] ==>
              IsContainer((frames[0].vals + [Assemble(tag, payload, [])])[0]) == ContainerTag(tag)
  {
  }

  lemma WideHeader(s: seq<byte>, pos: nat)
    requires pos < |s| && LeadOf(s[pos]).Wide?
    ensures var w := LeadOf(s[pos]).width;
            HeaderAt(s, pos) == if pos + 1 + w <= |s| then Head(WideTag(LeadOf(s[pos]).family, Load(s, pos + 1, w),
              w), 1 + w)
                                else NoHead(Invalid)
  {
  }

  /** What is read from the data at hand holds of the whole stream. */
  lemma DataLeads(data: seq<byte>, incoming: seq<byte>, pos: nat)
    requires pos <= |data| && HeaderAt(data, pos).Head?
    ensures HeaderAt(data + incoming, pos) == HeaderAt(data, pos)
  {
    HeaderStable(data, data + incoming, pos);
  }

  /** No lead byte is rejected for its size. */
  lemma LeadsDiffer(b: byte)
    ensures LeadOf(b) != Rejected(TooBig)
  {
  }

  /** A node without children, seen from the proof's side. */
  lemma LeafStep(nodes: seq<Node>, done: set<nat>, s: seq<byte>, frames: seq<Frame>, stack: seq<Level>, root: nat,
                 pos: nat,
                 tag: Tag, node: Node, children: nat, free: nat, left: nat)
    requires 0 < |frames| <= |stack|
    requires Parsing(nodes, done, s, frames, stack, root, pos) && stack[|frames| - 1].left > 0
    requires Storage(nodes, done, frames, root, pos, free, left)
    requires pos <= |s| && HeaderAt(s, pos).Head? && HeaderAt(s, pos).tag == tag && Children(tag) == 0
    requires pos + HeaderAt(s, pos).size + Payload(tag) <= |s|
    requires node == LeafNode(tag, pos + HeaderAt(s, pos).size, children)
    requires ContainerTag(tag) ==> Vacant(nodes, done, frames, root, Block(children, 0), free, left)
    ensures var top := |frames| - 1;
            var cell := stack[top].child;
            var content := pos + HeaderAt(s, pos).size;
            var v := Assemble(tag, s[content..content + Payload(tag)], []);
            var grown := frames[top := frames[top].(vals := frames[top].vals + [v])];
            && cell < |nodes|
            && Parsing(nodes[cell := node], done + {cell}, s, grown,
                       stack[top := Level(stack[top].child + 1, stack[top].left - 1)], root, content + Payload(tag))
            && Storage(nodes[cell := node], done + {cell}, grown, root, content + Payload(tag), free, left)
            && (top == 0 ==> frames[0].vals == [])
  {
    hide HeaderAt, Parsing, Payload, LeafNode, Assemble, Storage, Vacant;
    var top := |frames| - 1;
    var cell := stack[top].child;
    var content := pos + HeaderAt(s, pos).size;
    CellInRange(nodes, done, s, frames, stack, root, pos);
    StepLeaf(nodes, done, s, frames, stack, root, pos, nodes[cell := node], children);
    LeafStored(tag, content, children);
    StorageDone(nodes, done, frames, root, pos, free, left, cell, node, content + Payload(tag));
    var v := Assemble(tag, s[content..content + Payload(tag)], []);
    var grown := frames[top := frames[top].(vals := frames[top].vals + [v])];
    StorageFrames(nodes[cell := node], done + {cell}, frames, grown, root, content + Payload(tag), free, left);
  }

  lemma LeafStored(tag: Tag, content: nat, children: nat)
    requires Children(tag) == 0
    ensures var node := LeafNode(tag, content, children);
            && (node.Blob? ==> node.offset + node.len == content + Payload(tag))
            && (node.Compound? ==> ContainerTag(tag) && BlockOf(node) == Block(children, 0))
  {
  }

  /** Opening a container, seen from the proof's side. */
  lemma OpenStep(nodes: seq<Node>, later: seq<Node>, done: set<nat>, s: seq<byte>, frames: seq<Frame>,
                 stack: seq<Level>, pushed: seq<Level>, root: nat, pos: nat, tag: Tag, g: Frame)
    requires 0 < |frames| <= |stack| && Parsing(nodes, done, s, frames, stack, root, pos)
    requires ContainerTag(tag)
    requires var top := |frames| - 1;
             && stack[top].left > 0
             && |pushed| > top + 1 && pushed[..top + 1] == stack[..top + 1] && pushed[top + 1] == Level(g.base, g.total)
             && stack[top].child < |nodes|
             && later == nodes[stack[top].child := Compound(tag.MapTag?, tag.count, g.base)]
    requires pos <= |s| && Children(tag) == g.total > 0
    requires HeaderAt(s, pos).Head? && HeaderAt(s, pos).tag == tag
    requires g.from == pos + HeaderAt(s, pos).size && g.vals == []
    requires Unused(nodes, done, frames, root, Block(g.base, g.total))
    ensures var top := |frames| - 1;
            && pushed[top].left > 0
            && var counted := pushed[top := Level(pushed[top].child + 1, pushed[top].left - 1)];
               Parsing(later, done + {stack[top].child}, s, frames + [g], counted, root, g.from)
  {
    hide HeaderAt, Parsing, Payload, Children, Apart;
    var top := |frames| - 1;
    var cell := stack[top].child;
    CellInRange(nodes, done, s, frames, stack, root, pos);
    ApartCell(frames[top], Block(g.base, g.total), cell);
    assert pushed[top] == pushed[..top + 1][top] == stack[top];
    assert pushed[..top] == pushed[..top + 1][..top] == stack[..top];
    var counted := pushed[top := Level(pushed[top].child + 1, pushed[top].left - 1)];
    StepOpen(nodes, done, s, frames, stack, root, pos, later, counted, g.base);
  }

  lemma OpenLedger(s: seq<byte>, stack: seq<Level>, pushed: seq<Level>, top: nat, pos: nat, tag: Tag, total: nat,
                   handed: nat)
    requires top < |stack| && stack[top].left > 0 && |pushed| > top + 1
    requires pushed[..top + 1] == stack[..top + 1] && pushed[top + 1].left == total == Children(tag)
    requires OnTrack(s, pos, Owed(stack, top + 1), handed)
    requires ContainerTag(tag) && HeaderAt(s, pos).Head? && HeaderAt(s, pos).tag == tag
    ensures pushed[top].left > 0
    ensures var counted := pushed[top := Level(pushed[top].child + 1, pushed[top].left - 1)];
            && Owed(stack, top + 1) > 0
            && Owed(counted, top + 2) == Owed(stack, top + 1) - 1 + total
            && OnTrack(s, pos + HeaderAt(s, pos).size, Owed(counted, top + 2), handed + total)
  {
    hide HeaderAt, Skip, Weigh, Payload, Children, Owed;
    assert pushed[top] == pushed[..top + 1][top] == stack[top];
    OwesOne(stack, top);
    OwedMore(stack, pushed, top);
    NoPayload(tag);
    TrackStep(s, pos, Owed(stack, top + 1), handed);
  }

  lemma OpenStorage(nodes: seq<Node>, done: set<nat>, s: seq<byte>, frames: seq<Frame>, stack: seq<Level>, root: nat,
                    pos: nat,
                    tag: Tag, g: Frame, free: nat, left: nat)
    requires 0 < |frames| <= |stack|
    requires Parsing(nodes, done, s, frames, stack, root, pos) && stack[|frames| - 1].left > 0
    requires Storage(nodes, done, frames, root, pos, free, left)
    requires Vacant(nodes, done, frames, root, Block(g.base, g.total), free, left)
    requires ContainerTag(tag) && Children(tag) == g.total && pos <= g.from
    ensures var cell := stack[|frames| - 1].child;
            && cell < |nodes|
            && Storage(nodes[cell := Compound(tag.MapTag?, tag.count, g.base)], done + {cell}, frames + [g], root,
               g.from,
                       free, left)
            && Unused(nodes, done, frames, root, Block(g.base, g.total))
  {
    hide Parsing, Storage, Unused, Apart;
    var cell := stack[|frames| - 1].child;
    var node := Compound(tag.MapTag?, tag.count, g.base);
    CellInRange(nodes, done, s, frames, stack, root, pos);
    assert BlockOf(node) == Block(g.base, g.total);
    StorageDone(nodes, done, frames, root, pos, free, left, cell, node, g.from);
    VacantFits(nodes, done, frames, root, Block(g.base, g.total), free, left);
    StorageOpens(nodes[cell := node], done + {cell}, frames, root, g.from, free, left, g);
  }

  lemma VacantFits(nodes: seq<Node>, done: set<nat>, frames: seq<Frame>, root: nat, f: Frame, free: nat, left: nat)
    requires Vacant(nodes, done, frames, root, f, free, left)
    ensures Within(f, |nodes|) && Apart(f, Block(free, left))
  {
  }

  /** The number of child nodes: two per pair of a map. */
  function ChildCount(tag: Tag): (n: nat)
    requires tag.ArrayTag? || tag.MapTag?
    ensures n == Children(tag)
  {
    if tag.MapTag? then 2 * tag.count else tag.count
  }

  lemma NoPayload(tag: Tag)
    requires tag.ArrayTag? || tag.MapTag?
    ensures Payload(tag) == 0
  {
  }

  lemma OwedMore(before: seq<Level>, after: seq<Level>, level: nat)
    requires level < |before| && level + 1 < |after| && before[level].left > 0
    requires after[..level + 1] == before[..level + 1]
    ensures var counted := after[level := Level(after[level].child + 1, after[level].left - 1)];
            Owed(counted, level + 2) == Owed(before, level + 1) - 1 + after[level + 1].left
  {
    assert after[level] == after[..level + 1][level] == before[level];
    var counted := after[level := Level(after[level].child + 1, after[level].left - 1)];
    assert counted[..level] == after[..level + 1][..level] == before[..level];
    OwedAgrees(counted, before, level);
    assert Owed(counted, level + 2) == Owed(counted, level + 1) + counted[level + 1].left;
  }

  lemma CellInRange(nodes: seq<Node>, done: set<nat>, s: seq<byte>, frames: seq<Frame>, stack: seq<Level>, root: nat,
                    pos: nat)
    requires Parsing(nodes, done, s, frames, stack, root, pos)
    requires stack[|frames| - 1].left > 0
    ensures var top := |frames| - 1;
            && stack[top].child < |nodes| && stack[top].child !in done
            && frames[top].base <= stack[top].child < frames[top].base + frames[top].total
    ensures forall j :: 0 <= j < |frames| ==> frames[j].base + frames[j].total <= |nodes|
    ensures |frames| == 1 ==> frames[0].vals == []
  {
    hide Represents, DecodeValues, Linked;
    var top := |frames| - 1;
    assert FrameOk(nodes, done, s, frames[top]);
    assert AtLevel(stack[top], frames[top], false) && BlockDone(done, frames[top], false);
  }

  /** New pages do not disturb the parse. */
  lemma ParsingGrows(nodes: seq<Node>, later: seq<Node>, done: set<nat>, s: seq<byte>, frames: seq<Frame>,
                     stack: seq<Level>, root: nat, pos: nat)
    requires Parsing(nodes, done, s, frames, stack, root, pos)
    requires |nodes| <= |later| && later[..|nodes|] == nodes
    ensures Parsing(later, done, s, frames, stack, root, pos)
  {
    hide FrameOk, Linked, Mirrors, BlocksOk, DecodeValues;
    forall a | 0 <= a < |nodes|
      ensures later[a] == nodes[a]
    {
      assert later[..|nodes|][a] == nodes[a];
    }
    OpenedLater(nodes, done, later, done, s, frames);
  }

  lemma ApartCell(f: Frame, g: Frame, cell: nat)
    requires Apart(f, g) && f.base <= cell < f.base + f.total
    ensures !(g.base <= cell < g.base + g.total)
  {
  }

  lemma OwesOne(stack: seq<Level>, level: nat)
    requires level < |stack| && stack[level].left > 0
    ensures Owed(stack, level + 1) > 0
  {
  }

  lemma OwedLess(stack: seq<Level>, level: nat)
    requires level < |stack| && stack[level].left > 0
    ensures Owed(stack[level := Level(stack[level].child + 1, stack[level].left - 1)], level + 1)
              == Owed(stack, level + 1) - 1
  {
    var later := stack[level := Level(stack[level].child + 1, stack[level].left - 1)];
    assert later[..level] == stack[..level];
    OwedAgrees(later, stack, level);
  }
}
