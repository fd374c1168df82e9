/**
  Where the nodes live: every container's block of children is its own, and the
  nodes not handed out yet belong to nobody.
 */
module TreeStorage {
  import opened Format
  import opened TreeLayout

  function Block(base: nat, total: nat): Frame {
    Frame(base, total, [], 0)
  }

  /** The block of a container's children. */
  function BlockOf(node: Node): Frame
    requires node.Compound?
  {
    Block(node.children, if node.isMap then 2 * node.len else node.len)
  }

  predicate Within(f: Frame, n: nat) {
    f.base + f.total <= n
  }

  ghost predicate IsParent(nodes: seq<Node>, done: set<nat>, a: int) {
    0 <= a < |nodes| && a in done && nodes[a].Compound?
  }

  /** Strings and binaries of finished nodes lie in the bytes consumed so far. */
  ghost predicate BlobsOk(nodes: seq<Node>, done: set<nat>, size: nat) {
    forall a :: a in done && a < |nodes| && nodes[a].Blob? ==> nodes[a].offset + nodes[a].len <= size
  }

  /** No two containers, open or finished, share a node, and none has the root among its children. */
  ghost predicate OwnBlocks(nodes: seq<Node>, done: set<nat>, root: nat) {
    && (forall a :: IsParent(nodes, done, a) ==>
          Within(BlockOf(nodes[a]), |nodes|) && Apart(BlockOf(nodes[a]), Block(root, 1)))
    && (forall a, b :: IsParent(nodes, done, a) && IsParent(nodes, done, b) && a != b ==>
          Apart(BlockOf(nodes[a]), BlockOf(nodes[b])))
  }

  /** A run of nodes that is neither finished, nor in an open block, nor anybody's child. */
  ghost predicate Unused(nodes: seq<Node>, done: set<nat>, frames: seq<Frame>, root: nat, f: Frame) {
    && Within(f, |nodes|) && Apart(Block(root, 1), f)
    && (forall a :: a in done ==> !(f.base <= a < f.base + f.total))
    && (forall j :: 0 <= j < |frames| ==> Apart(frames[j], f))
    && (forall a :: IsParent(nodes, done, a) ==> Apart(BlockOf(nodes[a]), f))
  }

  /** The whole of the storage, with left nodes not handed out from free on. */
  ghost predicate Storage(nodes: seq<Node>, done: set<nat>, frames: seq<Frame>, root: nat, size: nat, free: nat,
                          left: nat) {
    && (forall a :: a in done ==> a < |nodes|)
    && (forall j :: 0 <= j < |frames| ==> Within(frames[j], |nodes|))
    && root < |nodes|
    && BlobsOk(nodes, done, size)
    && OwnBlocks(nodes, done, root)
    && Unused(nodes, done, frames, root, Block(free, left))
  }

  /** A block just handed out: unused, and apart from what is left. */
  ghost predicate Vacant(nodes: seq<Node>, done: set<nat>, frames: seq<Frame>, root: nat, f: Frame, free: nat,
                         left: nat) {
    Unused(nodes, done, frames, root, f) && Apart(f, Block(free, left))
  }

  lemma StorageFresh(nodes: seq<Node>, f: Frame)
    requires |nodes| > 0 && f.base == 0 && f.total == 1
    ensures Storage(nodes, {}, [f], 0, 0, 1, |nodes| - 1)
  {
  }

  // ---------------------------------------------------------- handing out

  lemma TakeFromPage(nodes: seq<Node>, done: set<nat>, frames: seq<Frame>, root: nat, size: nat, free: nat, left: nat,
                     total: nat)
    requires Storage(nodes, done, frames, root, size, free, left) && total <= left
    ensures Storage(nodes, done, frames, root, size, free + total, left - total)
    ensures Vacant(nodes, done, frames, root, Block(free, total), free + total, left - total)
  {
  }

  /** New nodes behind all others. */
  lemma Extended(nodes: seq<Node>, later: seq<Node>, done: set<nat>, frames: seq<Frame>, root: nat, size: nat,
                 free: nat, left: nat)
    requires Storage(nodes, done, frames, root, size, free, left)
    requires |later| >= |nodes| && later[..|nodes|] == nodes
    ensures Storage(later, done, frames, root, size, free, left)
    ensures forall f: Frame :: f.base >= |nodes| && Within(f, |later|) ==> Unused(later, done, frames, root, f)
  {
    assert forall a :: 0 <= a < |nodes| ==> later[a] == later[..|nodes|][a];
    assert forall a :: IsParent(later, done, a) ==> IsParent(nodes, done, a) && later[a] == nodes[a];
    assert forall a :: a in done ==> later[a] == nodes[a];
  }

  /** A page of its own for a block that is too large to share one. */
  lemma OwnPage(nodes: seq<Node>, later: seq<Node>, done: set<nat>, frames: seq<Frame>, root: nat, size: nat,
                free: nat, left: nat)
    requires Storage(nodes, done, frames, root, size, free, left)
    requires |later| >= |nodes| && later[..|nodes|] == nodes
    ensures Storage(later, done, frames, root, size, free, left)
    ensures Vacant(later, done, frames, root, Block(|nodes|, |later| - |nodes|), free, left)
  {
    Extended(nodes, later, done, frames, root, size, free, left);
    hide BlobsOk, OwnBlocks;
  }

  /** A fresh page, the rest of which is left for later. */
  lemma FreshPage(nodes: seq<Node>, later: seq<Node>, done: set<nat>, frames: seq<Frame>, root: nat, size: nat,
                  free: nat, left: nat, total: nat)
    requires Storage(nodes, done, frames, root, size, free, left)
    requires |later| >= |nodes| + total && later[..|nodes|] == nodes
    ensures Storage(later, done, frames, root, size, |nodes| + total, |later| - |nodes| - total)
    ensures Vacant(later, done, frames, root, Block(|nodes|, total), |nodes| + total, |later| - |nodes| - total)
  {
    Extended(nodes, later, done, frames, root, size, free, left);
    hide BlobsOk, OwnBlocks, Unused;
    assert Unused(later, done, frames, root, Block(|nodes|, total));
    assert Unused(later, done, frames, root, Block(|nodes| + total, |later| - |nodes| - total));
  }

  // ------------------------------------------------------------ filling in

  /** Only the extent of an open block matters. */
  ghost predicate SameExtents(frames: seq<Frame>, later: seq<Frame>) {
    && |later| <= |frames|
    && forall j :: 0 <= j < |later| ==> later[j].base == frames[j].base && later[j].total == frames[j].total
  }

  lemma StorageFrames(nodes: seq<Node>, done: set<nat>, frames: seq<Frame>, later: seq<Frame>, root: nat, size: nat,
                      free: nat, left: nat)
    requires Storage(nodes, done, frames, root, size, free, left) && SameExtents(frames, later)
    ensures Storage(nodes, done, later, root, size, free, left)
  {
    hide BlobsOk, OwnBlocks;
    forall j | 0 <= j < |later|
      ensures Within(later[j], |nodes|) && Apart(later[j], Block(free, left))
    {
      assert Within(frames[j], |nodes|) && Apart(frames[j], Block(free, left));
    }
  }

  /** A node of an open block is finished; a container among them has a vacant block. */
  lemma StorageDone(nodes: seq<Node>, done: set<nat>, frames: seq<Frame>, root: nat, size: nat, free: nat, left: nat,
                    cell: nat, node: Node, later: nat)
    requires Storage(nodes, done, frames, root, size, free, left)
    requires cell < |nodes| && cell !in done && size <= later
    requires exists j :: 0 <= j < |frames| && frames[j].base <= cell < frames[j].base + frames[j].total
    requires node.Blob? ==> node.offset + node.len <= later
    requires node.Compound? ==> Vacant(nodes, done, frames, root, BlockOf(node), free, left)
    ensures Storage(nodes[cell := node], done + {cell}, frames, root, later, free, left)
  {
    var after, doneLater := nodes[cell := node], done + {cell};
    assert forall a :: IsParent(after, doneLater, a) && a != cell ==> IsParent(nodes, done, a) && after[a] == nodes[a];
    ApartTurned();
    BlobsDone(nodes, done, size, cell, node, later);
    OwnBlocksDone(nodes, done, root, cell, node);
    hide BlobsOk, OwnBlocks;
  }

  lemma BlobsDone(nodes: seq<Node>, done: set<nat>, size: nat, cell: nat, node: Node, later: nat)
    requires BlobsOk(nodes, done, size) && cell < |nodes| && size <= later
    requires node.Blob? ==> node.offset + node.len <= later
    ensures BlobsOk(nodes[cell := node], done + {cell}, later)
  {
  }

  lemma OwnBlocksDone(nodes: seq<Node>, done: set<nat>, root: nat, cell: nat, node: Node)
    requires OwnBlocks(nodes, done, root) && cell < |nodes| && cell !in done
    requires node.Compound? ==>
               && Within(BlockOf(node), |nodes|) && Apart(Block(root, 1), BlockOf(node))
               && forall a :: IsParent(nodes, done, a) ==> Apart(BlockOf(nodes[a]), BlockOf(node))
    ensures OwnBlocks(nodes[cell := node], done + {cell}, root)
  {
    var after, doneLater := nodes[cell := node], done + {cell};
    assert forall a :: IsParent(after, doneLater, a) && a != cell ==> IsParent(nodes, done, a) && after[a] == nodes[a];
    ApartTurned();
  }

  lemma ApartTurned()
    ensures forall f, g :: Apart(f, g) ==> Apart(g, f)
  {
  }

  /** The block of a container that is opened becomes one more open block. */
  lemma StorageOpens(nodes: seq<Node>, done: set<nat>, frames: seq<Frame>, root: nat, size: nat, free: nat, left: nat,
                     g: Frame)
    requires Storage(nodes, done, frames, root, size, free, left)
    requires Within(g, |nodes|) && Apart(Block(g.base, g.total), Block(free, left))
    ensures Storage(nodes, done, frames + [g], root, size, free, left)
  {
    hide BlobsOk, OwnBlocks;
  }
}
