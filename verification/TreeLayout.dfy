/**
  What a half-parsed tree means: nodes already built, the open containers on the
  parse stack, and the part of the message each of them accounts for.
 */
module TreeLayout {
  import opened Format

  /** A node of the tree; strings and binaries point into the data, containers at their children. */
  datatype Node =
    | Unset
    | Scalar(tag: Tag)
    | Blob(isStr: bool, offset: nat, len: nat)
    | Compound(isMap: bool, len: nat, children: nat)

  /** One level of the parse stack: the next child to read and the number left. */
  datatype Level = Level(child: nat, left: nat)

  /** An open container, for the proof: its block of nodes, the values complete so far and where its content starts. */
  datatype Frame = Frame(base: nat, total: nat, vals: seq<Value>, from: nat)

  // ------------------------------------------------------------ built values

  predicate IsScalar(v: Value) {
    !v.Str? && !v.Bin? && !v.Array? && !v.Map?
  }

  function ScalarTag(v: Value): Tag
    requires IsScalar(v)
  {
    match v
    case Nil => NilTag
    case Bool(b) => BoolTag(b)
    case UInt(u) => UIntTag(u)
    case Int(i) => IntTag(i)
    case Float(bits) => FloatTag(bits)
    case Double(bits) => DoubleTag(bits)
  }

  /** The nodes from addr on, all finished, are the tree of v. */
  ghost predicate Represents(nodes: seq<Node>, done: set<nat>, s: seq<byte>, addr: nat, v: Value)
    decreases v
  {
    && addr < |nodes| && addr in done
    && match v
       case Str(bytes) => IsBlob(nodes[addr], s, true, bytes)
       case Bin(bytes) => IsBlob(nodes[addr], s, false, bytes)
       case Array(items) =>
         && nodes[addr].Compound? && !nodes[addr].isMap && nodes[addr].len == |items|
         && forall i :: 0 <= i < |items| ==> Represents(nodes, done, s, nodes[addr].children + i, items[i])
       case Map(items) =>
         && nodes[addr].Compound? && nodes[addr].isMap && 2 * nodes[addr].len == |items|
         && forall i :: 0 <= i < |items| ==> Represents(nodes, done, s, nodes[addr].children + i, items[i])
       case _ => nodes[addr] == Scalar(ScalarTag(v))
  }

  predicate IsBlob(node: Node, s: seq<byte>, isStr: bool, bytes: seq<byte>) {
    && node == Blob(isStr, if node.Blob? then node.offset else 0, |bytes|)
    && node.offset + |bytes| <= |s| && s[node.offset..node.offset + |bytes|] == bytes
  }

  /** Finished nodes stay as they are. */
  ghost predicate Keeps(nodes: seq<Node>, done: set<nat>, later: seq<Node>, laterDone: set<nat>) {
    && |nodes| <= |later| && done <= laterDone
    && forall a :: a in done && a < |nodes| ==> later[a] == nodes[a]
  }

  lemma {:induction false} RepresentsLater(nodes: seq<Node>, done: set<nat>, later: seq<Node>, laterDone: set<nat>,
                                           s: seq<byte>, addr: nat, v: Value)
    requires Keeps(nodes, done, later, laterDone) && Represents(nodes, done, s, addr, v)
    ensures Represents(later, laterDone, s, addr, v)
    decreases v
  {
    match v
    case Array(items) =>
      forall i | 0 <= i < |items|
        ensures Represents(later, laterDone, s, later[addr].children + i, items[i])
      {
        RepresentsLater(nodes, done, later, laterDone, s, nodes[addr].children + i, items[i]);
      }
    case Map(items) =>
      forall i | 0 <= i < |items|
        ensures Represents(later, laterDone, s, later[addr].children + i, items[i])
      {
        RepresentsLater(nodes, done, later, laterDone, s, nodes[addr].children + i, items[i]);
      }
    case _ =>
  }

  // ---------------------------------------------------------- open containers

  /** Where the values complete so far end. */
  ghost function Stop(s: seq<byte>, f: Frame): nat
    requires f.from <= |s| && DecodeValues(s, f.from, |f.vals|).Done?
  {
    DecodeValues(s, f.from, |f.vals|).end
  }

  ghost predicate FrameOk(nodes: seq<Node>, done: set<nat>, s: seq<byte>, f: Frame) {
    && f.from <= |s|
    && |f.vals| <= f.total && f.base + f.total <= |nodes|
    && DecodeValues(s, f.from, |f.vals|).Done? && DecodeValues(s, f.from, |f.vals|).value == f.vals
    && forall i :: 0 <= i < |f.vals| ==> Represents(nodes, done, s, f.base + i, f.vals[i])
  }

  /** g is the container being filled in as f's next child. */
  ghost predicate Linked(nodes: seq<Node>, done: set<nat>, s: seq<byte>, f: Frame, g: Frame)
    requires FrameOk(nodes, done, s, f)
  {
    && |f.vals| < f.total && g.total > 0
    && var cell := f.base + |f.vals|;
       && cell in done && nodes[cell].Compound? && nodes[cell].children == g.base
       && HeaderAt(s, Stop(s, f)).Head?
       && var Head(tag, size) := HeaderAt(s, Stop(s, f));
          && (tag.ArrayTag? || tag.MapTag?)
          && Children(tag) == g.total && g.from == Stop(s, f) + size
          && nodes[cell].isMap == tag.MapTag? && nodes[cell].len == tag.count
  }

  ghost predicate Apart(f: Frame, g: Frame) {
    f.base + f.total <= g.base || g.base + g.total <= f.base
  }

  /** How many cells of a frame's block are finished; an open child's own cell is. */
  function Taken(f: Frame, open: bool): nat {
    |f.vals| + if open then 1 else 0
  }

  /** The level as the parser keeps it: an open child has already been counted off. */
  predicate AtLevel(level: Level, f: Frame, open: bool) {
    level.child == f.base + Taken(f, open) && level.left + Taken(f, open) == f.total
  }

  ghost predicate BlockDone(done: set<nat>, f: Frame, open: bool) {
    forall a :: f.base <= a < f.base + f.total ==> (a in done <==> a < f.base + Taken(f, open))
  }

  /** Each open container's values decode, are built, and it is the next child of the one below. */
  ghost predicate Opened(nodes: seq<Node>, done: set<nat>, s: seq<byte>, frames: seq<Frame>) {
    && (forall j :: 0 <= j < |frames| ==> FrameOk(nodes, done, s, frames[j]))
    && (forall j :: 0 <= j < |frames| - 1 ==> Linked(nodes, done, s, frames[j], frames[j + 1]))
  }

  ghost predicate Mirrors(frames: seq<Frame>, stack: seq<Level>) {
    && |frames| <= |stack|
    && forall j :: 0 <= j < |frames| ==> AtLevel(stack[j], frames[j], j < |frames| - 1)
  }

  /** Blocks never overlap, and each is finished exactly up to its next child. */
  ghost predicate BlocksOk(done: set<nat>, frames: seq<Frame>) {
    && (forall j :: 0 <= j < |frames| ==> BlockDone(done, frames[j], j < |frames| - 1))
    && (forall j, k :: 0 <= j < k < |frames| ==> Apart(frames[j], frames[k]))
  }

  ghost predicate Parsing(nodes: seq<Node>, done: set<nat>, s: seq<byte>, frames: seq<Frame>, stack: seq<Level>,
                          root: nat, pos: nat) {
    && 0 < |frames| <= |stack|
    && frames[0].base == root && frames[0].total == 1 && frames[0].from == 0
    && Opened(nodes, done, s, frames)
    && Mirrors(frames, stack)
    && BlocksOk(done, frames)
    && Stop(s, frames[|frames| - 1]) == pos
  }

  // ------------------------------------------------------------------ the ledger

  /** Values still owed by the first n levels. */
  function Owed(stack: seq<Level>, n: nat): nat
    requires n <= |stack|
  {
    if n == 0 then 0 else Owed(stack, n - 1) + stack[n - 1].left
  }

  lemma {:induction false} OwedAgrees(a: seq<Level>, b: seq<Level>, n: nat)
    requires n <= |a| && n <= |b| && a[..n] == b[..n]
    ensures Owed(a, n) == Owed(b, n)
  {
    if n > 0 {
      assert a[n - 1] == a[..n][n - 1] == b[n - 1];
      assert a[..n - 1] == a[..n][..n - 1] == b[..n - 1];
      OwedAgrees(a, b, n - 1);
    }
  }

  /** If the rest of the message cannot start, the whole message cannot be decoded. */
  lemma StuckFails(s: seq<byte>, pos: nat, owed: nat)
    requires pos <= |s| && owed > 0
    requires Skip(s, 0, 1) == Skip(s, pos, owed)
    requires Skip(s, pos, owed) == Stuck
    ensures DecodeValue(s, 0).Failed?
  {
    DecodeSkips(s, 0);
  }

  /** Bytes the current node needs beyond its first: the rest of its header, its content, one per child. */
  function Reserve(tag: Tag, size: nat): nat
    requires size > 0
  {
    size - 1 + Payload(tag) + Children(tag)
  }

  /** A node whose reservation exceeds what the ledger leaves makes the message undecodable. */
  lemma TooFewBytes(s: seq<byte>, pos: nat, owed: nat)
    requires pos < |s| && owed > 0
    requires match HeaderAt(s, pos)
             case NoHead(_) => true
             case Head(tag, size) => pos + owed + Reserve(tag, size) > |s|
    ensures Skip(s, pos, owed) == Stuck
  {
    hide LeadOf, Payload, Children;
  }

  // ----------------------------------------------------------------- the steps

  /** What a node without children says. */
  function LeafNode(tag: Tag, content: nat, children: nat): Node {
    match tag
    case StrTag(len) => Blob(true, content, len)
    case BinTag(len) => Blob(false, content, len)
    case ArrayTag(count) => Compound(false, count, children)
    case MapTag(count) => Compound(true, count, children)
    case _ => Scalar(tag)
  }

  lemma FrameOkLater(nodes: seq<Node>, done: set<nat>, later: seq<Node>, laterDone: set<nat>, s: seq<byte>, f: Frame)
    requires Keeps(nodes, done, later, laterDone) && FrameOk(nodes, done, s, f)
    ensures FrameOk(later, laterDone, s, f)
  {
    hide DecodeValues, Represents;
    forall i | 0 <= i < |f.vals|
      ensures Represents(later, laterDone, s, f.base + i, f.vals[i])
    {
      RepresentsLater(nodes, done, later, laterDone, s, f.base + i, f.vals[i]);
    }
  }

  lemma LinkedLater(nodes: seq<Node>, done: set<nat>, later: seq<Node>, laterDone: set<nat>, s: seq<byte>, f: Frame,
                    g: Frame)
    requires Keeps(nodes, done, later, laterDone) && FrameOk(nodes, done, s, f) && FrameOk(later, laterDone, s, f)
    requires Linked(nodes, done, s, f, g)
    ensures Linked(later, laterDone, s, f, g)
  {
    hide DecodeValues, Represents, HeaderAt, Children;
  }

  /** One more complete value in a frame. */
  lemma FrameGains(nodes: seq<Node>, done: set<nat>, s: seq<byte>, f: Frame, v: Value, end: nat)
    requires FrameOk(nodes, done, s, f) && |f.vals| < f.total
    requires DecodeValue(s, Stop(s, f)) == Done(v, end)
    requires Represents(nodes, done, s, f.base + |f.vals|, v)
    ensures var g := f.(vals := f.vals + [v]); FrameOk(nodes, done, s, g) && Stop(s, g) == end
  {
    hide DecodeValue, Represents;
    var g := f.(vals := f.vals + [v]);
    assert |g.vals| - 1 == |f.vals|;
    assert DecodeValues(s, f.from, |g.vals|) == Done(f.vals + [v], end);
  }

  /** A node without children is decoded by its header and content alone. */
  lemma LeafDecodes(s: seq<byte>, pos: nat)
    requires pos <= |s| && HeaderAt(s, pos).Head? && Children(HeaderAt(s, pos).tag) == 0
    requires var Head(tag, size) := HeaderAt(s, pos); pos + size + Payload(tag) <= |s|
    ensures var Head(tag, size) := HeaderAt(s, pos);
            var body := pos + size + Payload(tag);
            DecodeValue(s, pos) == Done(Assemble(tag, s[pos + size..body], []), body)
  {
    hide HeaderAt, Payload, Children, Assemble;
  }

  lemma LeafRepresents(nodes: seq<Node>, done: set<nat>, s: seq<byte>, addr: nat, tag: Tag, content: nat, children: nat)
    requires addr < |nodes| && addr in done && Children(tag) == 0
    requires nodes[addr] == LeafNode(tag, content, children)
    requires content + Payload(tag) <= |s|
    ensures Represents(nodes, done, s, addr, Assemble(tag, s[content..content + Payload(tag)], []))
  {
  }

  lemma OpenedLater(nodes: seq<Node>, done: set<nat>, later: seq<Node>, laterDone: set<nat>, s: seq<byte>,
                    frames: seq<Frame>)
    requires Keeps(nodes, done, later, laterDone) && Opened(nodes, done, s, frames)
    ensures Opened(later, laterDone, s, frames)
  {
    hide FrameOk, Linked;
    forall j | 0 <= j < |frames|
      ensures FrameOk(later, laterDone, s, frames[j])
    {
      FrameOkLater(nodes, done, later, laterDone, s, frames[j]);
    }
    forall j | 0 <= j < |frames| - 1
      ensures Linked(later, laterDone, s, frames[j], frames[j + 1])
    {
      LinkedLater(nodes, done, later, laterDone, s, frames[j], frames[j + 1]);
    }
  }

  /** The innermost container completes a value. */
  lemma OpenedGains(nodes: seq<Node>, done: set<nat>, s: seq<byte>, frames: seq<Frame>, v: Value, end: nat)
    requires frames != [] && Opened(nodes, done, s, frames)
    requires var f := frames[|frames| - 1];
             && |f.vals| < f.total && DecodeValue(s, Stop(s, f)) == Done(v, end)
             && Represents(nodes, done, s, f.base + |f.vals|, v)
    ensures var top := |frames| - 1;
            var grown := frames[top].(vals := frames[top].vals + [v]);
            && Opened(nodes, done, s, frames[top := grown])
            && Stop(s, grown) == end
  {
    hide DecodeValue, DecodeValues, Represents, HeaderAt, Children;
    var top := |frames| - 1;
    FrameGains(nodes, done, s, frames[top], v, end);
    if top > 0 {
      var f, g := frames[top - 1], frames[top];
      assert Linked(nodes, done, s, f, g);
      assert Linked(nodes, done, s, f, g.(vals := g.vals + [v]));
    }
  }

  /** The innermost container takes its next cell. */
  lemma CellTaken(done: set<nat>, frames: seq<Frame>, stack: seq<Level>, v: Value)
    requires frames != [] && Mirrors(frames, stack) && BlocksOk(done, frames)
    requires stack[|frames| - 1].left > 0
    ensures var top := |frames| - 1;
            var cell := stack[top].child;
            var grown := frames[top := frames[top].(vals := frames[top].vals + [v])];
            && cell !in done && cell == frames[top].base + |frames[top].vals| && |frames[top].vals| < frames[top].total
            && Mirrors(grown, stack[top := Level(cell + 1, stack[top].left - 1)])
            && BlocksOk(done + {cell}, grown)
  {
    var top := |frames| - 1;
    var f := frames[top];
    assert AtLevel(stack[top], f, false) && BlockDone(done, f, false);
  }

  /** A node without children completes a value of the innermost open container. */
  lemma StepLeaf(nodes: seq<Node>, done: set<nat>, s: seq<byte>, frames: seq<Frame>, stack: seq<Level>, root: nat,
                 pos: nat,
                 later: seq<Node>, children: nat)
    requires Parsing(nodes, done, s, frames, stack, root, pos)
    requires stack[|frames| - 1].left > 0
    requires pos <= |s| && HeaderAt(s, pos).Head? && Children(HeaderAt(s, pos).tag) == 0
    requires var Head(tag, size) := HeaderAt(s, pos); pos + size + Payload(tag) <= |s|
    requires var Head(tag, size) := HeaderAt(s, pos);
             var cell := stack[|frames| - 1].child;
             cell < |nodes| && later == nodes[cell := LeafNode(tag, pos + size, children)]
    ensures var Head(tag, size) := HeaderAt(s, pos);
            var top := |frames| - 1;
            var body := pos + size + Payload(tag);
            var v := Assemble(tag, s[pos + size..body], []);
            Parsing(later, done + {stack[top].child}, s, frames[top := frames[top].(vals := frames[top].vals + [v])],
                    stack[top := Level(stack[top].child + 1, stack[top].left - 1)], root, body)
  {
    hide DecodeValues, Represents, HeaderAt, Children, Payload, Assemble, LeafNode, FrameOk, Opened, Mirrors, BlocksOk;
    var Head(tag, size) := HeaderAt(s, pos);
    var top := |frames| - 1;
    var cell := stack[top].child;
    var body := pos + size + Payload(tag);
    var v := Assemble(tag, s[pos + size..body], []);
    var doneLater := done + {cell};
    CellTaken(done, frames, stack, v);
    assert Keeps(nodes, done, later, doneLater);
    OpenedLater(nodes, done, later, doneLater, s, frames);
    LeafDecodes(s, pos);
    LeafRepresents(later, doneLater, s, cell, tag, pos + size, children);
    OpenedGains(later, doneLater, s, frames, v, body);
  }

  /** A node with children opens a container; its block is new. */
  lemma StepOpen(nodes: seq<Node>, done: set<nat>, s: seq<byte>, frames: seq<Frame>, stack: seq<Level>, root: nat,
                 pos: nat,
                 later: seq<Node>, stackLater: seq<Level>, base: nat)
    requires Parsing(nodes, done, s, frames, stack, root, pos)
    requires stack[|frames| - 1].left > 0
    requires pos <= |s| && HeaderAt(s, pos).Head? && Children(HeaderAt(s, pos).tag) > 0
    requires var total := Children(HeaderAt(s, pos).tag);
             var cell := stack[|frames| - 1].child;
             && cell < |nodes| <= |later| && base + total <= |later|
             && (forall a :: 0 <= a < |nodes| && a != cell ==> later[a] == nodes[a])
             && later[cell] == LeafNode(HeaderAt(s, pos).tag, 0, base)
             && (forall a :: base <= a < base + total ==> a !in done)
             && !(base <= cell < base + total)
             && (forall j :: 0 <= j < |frames| ==> Apart(frames[j], Frame(base, total, [], 0)))
    requires var top := |frames| - 1;
             && |stackLater| > top + 1 && stackLater[..top] == stack[..top]
             && stackLater[top] == Level(stack[top].child + 1, stack[top].left - 1)
             && stackLater[top + 1] == Level(base, Children(HeaderAt(s, pos).tag))
    ensures var Head(tag, size) := HeaderAt(s, pos);
            Parsing(later, done + {stack[|frames| - 1].child}, s, frames + [Frame(base, Children(tag), [], pos + size)],
                    stackLater, root, pos + size)
  {
    hide DecodeValues, Represents, HeaderAt, Payload, Assemble, FrameOk, Linked, Mirrors, BlocksOk;
    var Head(tag, size) := HeaderAt(s, pos);
    var top := |frames| - 1;
    var cell := stack[top].child;
    var doneLater := done + {cell};
    var g := Frame(base, Children(tag), [], pos + size);
    var deeper := frames + [g];
    CellOpened(done, frames, stack, stackLater, g);
    assert Keeps(nodes, done, later, doneLater);
    OpenedLater(nodes, done, later, doneLater, s, frames);
    NothingYet(later, doneLater, s, g);
    assert FrameOk(later, doneLater, s, frames[top]);
    LinksTop(later, doneLater, s, frames[top], g, tag, size);
    forall j | 0 <= j < |deeper| - 1
      ensures Linked(later, doneLater, s, deeper[j], deeper[j + 1])
    {
      if j < top {
        assert Linked(later, doneLater, s, frames[j], frames[j + 1]);
      }
    }
  }

  lemma NothingYet(nodes: seq<Node>, done: set<nat>, s: seq<byte>, g: Frame)
    requires g.vals == [] && g.from <= |s| && g.base + g.total <= |nodes|
    ensures FrameOk(nodes, done, s, g) && Stop(s, g) == g.from
  {
  }

  lemma LinksTop(nodes: seq<Node>, done: set<nat>, s: seq<byte>, f: Frame, g: Frame, tag: Tag, size: nat)
    requires FrameOk(nodes, done, s, f) && |f.vals| < f.total
    requires HeaderAt(s, Stop(s, f)) == Head(tag, size) && Children(tag) == g.total > 0
    requires g.from == Stop(s, f) + size
    requires f.base + |f.vals| in done && nodes[f.base + |f.vals|] == LeafNode(tag, 0, g.base)
    ensures Linked(nodes, done, s, f, g)
  {
    hide DecodeValues, Represents, HeaderAt;
  }

  lemma CellOpened(done: set<nat>, frames: seq<Frame>, stack: seq<Level>, stackLater: seq<Level>, g: Frame)
    requires frames != [] && Mirrors(frames, stack) && BlocksOk(done, frames)
    requires stack[|frames| - 1].left > 0 && g.vals == []
    requires forall a :: g.base <= a < g.base + g.total ==> a !in done
    requires !(g.base <= stack[|frames| - 1].child < g.base + g.total)
    requires forall j :: 0 <= j < |frames| ==> Apart(frames[j], Frame(g.base, g.total, [], 0))
    requires var top := |frames| - 1;
             && |stackLater| > top + 1 && stackLater[..top] == stack[..top]
             && stackLater[top] == Level(stack[top].child + 1, stack[top].left - 1)
             && stackLater[top + 1] == Level(g.base, g.total)
    ensures var top := |frames| - 1;
            var cell := stack[top].child;
            && cell !in done && cell == frames[top].base + |frames[top].vals| && |frames[top].vals| < frames[top].total
            && Mirrors(frames + [g], stackLater) && BlocksOk(done + {cell}, frames + [g])
  {
    var top := |frames| - 1;
    var deeper := frames + [g];
    assert AtLevel(stack[top], frames[top], false) && BlockDone(done, frames[top], false);
    forall j | 0 <= j < top
      ensures stackLater[j] == stack[j]
    {
      assert stackLater[..top][j] == stack[..top][j];
    }
    forall j | 0 <= j < |deeper|
      ensures AtLevel(stackLater[j], deeper[j], j < |deeper| - 1)
      ensures BlockDone(done + {stack[top].child}, deeper[j], j < |deeper| - 1)
    {
      if j < top {
        assert AtLevel(stack[j], frames[j], true) && BlockDone(done, frames[j], true) && Apart(frames[j], frames[top]);
      }
    }
    forall j, k | 0 <= j < k < |deeper|
      ensures Apart(deeper[j], deeper[k])
    {
      assert Apart(frames[j], Frame(g.base, g.total, [], 0));
    }
  }

  /** The frames once the innermost container is complete. */
  ghost function Closed(nodes: seq<Node>, frames: seq<Frame>): seq<Frame>
    requires |frames| > 1
    requires var f := frames[|frames| - 2]; f.base + |f.vals| < |nodes| && nodes[f.base + |f.vals|].Compound?
  {
    var below, top := |frames| - 2, |frames| - 1;
    var f := frames[below];
    var vals := frames[top].vals;
    var v := if nodes[f.base + |f.vals|].isMap then Map(vals) else Array(vals);
    frames[..top][below := f.(vals := f.vals + [v])]
  }

  /** A container with no children left becomes a value of the one below it. */
  lemma StepClose(nodes: seq<Node>, done: set<nat>, s: seq<byte>, frames: seq<Frame>, stack: seq<Level>, root: nat,
                  pos: nat)
    requires Parsing(nodes, done, s, frames, stack, root, pos)
    requires |frames| > 1 && stack[|frames| - 1].left == 0
    ensures var f := frames[|frames| - 2];
            && f.base + |f.vals| < |nodes| && nodes[f.base + |f.vals|].Compound?
            && Parsing(nodes, done, s, Closed(nodes, frames), stack, root, pos)
  {
    hide DecodeValue, DecodeValues, Represents, HeaderAt, FrameOk, Linked, Mirrors, BlocksOk;
    var below, top := |frames| - 2, |frames| - 1;
    var f, g := frames[below], frames[top];
    assert Linked(nodes, done, s, f, g);
    BlocksClose(done, frames, stack);
    ContainerDecodes(nodes, done, s, f, g);
    assert Opened(nodes, done, s, frames[..top]);
    var v := if nodes[f.base + |f.vals|].isMap then Map(g.vals) else Array(g.vals);
    OpenedGains(nodes, done, s, frames[..top], v, pos);
  }

  lemma BlocksClose(done: set<nat>, frames: seq<Frame>, stack: seq<Level>)
    requires |frames| > 1 && Mirrors(frames, stack) && BlocksOk(done, frames)
    requires stack[|frames| - 1].left == 0
    ensures |frames[|frames| - 1].vals| == frames[|frames| - 1].total
    ensures forall v :: var below := |frames| - 2;
              var closed := frames[..|frames| - 1][below := frames[below].(vals := frames[below].vals + [v])];
              Mirrors(closed, stack) && BlocksOk(done, closed)
  {
    var below, top := |frames| - 2, |frames| - 1;
    assert AtLevel(stack[top], frames[top], false);
    assert AtLevel(stack[below], frames[below], true) && BlockDone(done, frames[below], true);
  }

  /** A filled container is a value that decodes where its header starts. */
  lemma ContainerDecodes(nodes: seq<Node>, done: set<nat>, s: seq<byte>, f: Frame, g: Frame)
    requires FrameOk(nodes, done, s, f) && FrameOk(nodes, done, s, g) && Linked(nodes, done, s, f, g)
    requires |g.vals| == g.total
    ensures |f.vals| < f.total && f.base + |f.vals| < |nodes| && nodes[f.base + |f.vals|].Compound?
    ensures var cell := f.base + |f.vals|;
            var v := if nodes[cell].isMap then Map(g.vals) else Array(g.vals);
            && DecodeValue(s, Stop(s, f)) == Done(v, Stop(s, g))
            && Represents(nodes, done, s, cell, v)
  {
    hide HeaderAt, DecodeValues;
  }

  /** With nothing open and nothing owed, the message has been decoded. */
  lemma StepFinish(nodes: seq<Node>, done: set<nat>, s: seq<byte>, frames: seq<Frame>, stack: seq<Level>, root: nat,
                   pos: nat)
    requires Parsing(nodes, done, s, frames, stack, root, pos)
    requires |frames| == 1 && stack[0].left == 0
    ensures |frames[0].vals| == 1
    ensures DecodeValue(s, 0) == Done(frames[0].vals[0], pos)
    ensures Represents(nodes, done, s, root, frames[0].vals[0])
  {
    var f := frames[0];
    assert AtLevel(stack[0], f, false);
    assert FrameOk(nodes, done, s, f);
    SingleValue(s, f.vals[0]);
    hide DecodeValue, Represents;
    assert Represents(nodes, done, s, f.base + 0, f.vals[0]);
  }

  lemma SingleValue(s: seq<byte>, v: Value)
    requires DecodeValues(s, 0, 1).Done? && DecodeValues(s, 0, 1).value == [v]
    ensures DecodeValue(s, 0) == Done(v, DecodeValues(s, 0, 1).end)
  {
    hide DecodeValue;
    var one: nat := 1;
    assert DecodeValues(s, 0, one - 1) == Done([], 0);
    var first := DecodeValue(s, 0);
    assert first.Done? && DecodeValues(s, 0, one) == Done([] + [first.value], first.end);
    assert [first.value] == [v];
  }
}
