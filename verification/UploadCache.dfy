/**
  The upload cache: entries found by content digest or by image id, kept in order
  of last store, and evicted from the back while nobody refers to them.
 */
module UploadCache {
  import Format
  import opened Wrappers

  type byte = Format.byte

  /** A 128-bit digest. */
  datatype Digest = Digest(lo: nat, hi: nat)

  /** One cached image: what a Cache says about an entry at some moment. */
  datatype Held = Held(digest: Digest, id: nat, refs: int)

  // ----------------------------------------------------------- specification

  /** Both indexes are injective. */
  ghost predicate Distinct(c: seq<Held>) {
    forall i, j :: 0 <= i < j < |c| ==> c[i].digest != c[j].digest && c[i].id != c[j].id
  }

  function Find(c: seq<Held>, digest: Digest): (r: Option<nat>)
    ensures r.Some? ==> r.value < |c| && c[r.value].digest == digest
    ensures r.None? ==> forall i :: 0 <= i < |c| ==> c[i].digest != digest
  {
    if c == [] then None
    else if c[|c| - 1].digest == digest then Some(|c| - 1)
    else Find(c[..|c| - 1], digest)
  }

  /** What survives an eviction: entries leave from the back while room is needed and nobody refers to them. */
  function Kept(c: seq<Held>, maxSize: int): (r: seq<Held>)
    ensures r <= c
  {
    if |c| >= maxSize && c != [] && c[|c| - 1].refs <= 0 then Kept(c[..|c| - 1], maxSize) else c
  }

  /** The ids of the evicted entries, in the order they leave. */
  function Victims(c: seq<Held>, maxSize: int): seq<nat> {
    if |c| >= maxSize && c != [] && c[|c| - 1].refs <= 0
    then [c[|c| - 1].id] + Victims(c[..|c| - 1], maxSize)
    else []
  }

  function Touched(c: seq<Held>, i: nat): seq<Held>
    requires i < |c|
  {
    [c[i].(refs := c[i].refs + 1)] + (c[..i] + c[i + 1..])
  }

  function Stored(c: seq<Held>, digest: Digest, id: nat, maxSize: int): seq<Held> {
    match Find(c, digest)
    case Some(i) => Touched(c, i)
    case None => [Held(digest, id, 1)] + Kept(c, maxSize)
  }

  function EvictedBy(c: seq<Held>, digest: Digest, maxSize: int): seq<nat> {
    if Find(c, digest).Some? then [] else Victims(c, maxSize)
  }

  function ReleasedAt(held: Held, id: nat): Held {
    if held.id == id then held.(refs := held.refs - 1) else held
  }

  function Released(c: seq<Held>, id: nat): (r: seq<Held>)
    ensures |r| == |c|
  {
    seq(|c|, i requires 0 <= i < |c| => ReleasedAt(c[i], id))
  }

  /** One turn of the eviction loop, n entries being left. */
  lemma EvictionStep(c: seq<Held>, maxSize: int, n: nat)
    requires n <= |c|
    ensures var go := n >= maxSize && n > 0 && c[n - 1].refs <= 0;
            && (go ==> Kept(c[..n], maxSize) == Kept(c[..n - 1], maxSize))
            && (go ==> Victims(c[..n], maxSize) == [c[n - 1].id] + Victims(c[..n - 1], maxSize))
            && (!go ==> Kept(c[..n], maxSize) == c[..n] && Victims(c[..n], maxSize) == [])
  {
    if n > 0 {
      assert c[..n][..n - 1] == c[..n - 1];
    }
  }

  // ------------------------------------------------------------ what it means

  /** The victims are the longest unreferenced run at the back that room is needed from. */
  ghost predicate EvictsDownTo(c: seq<Held>, maxSize: int, n: nat) {
    && n <= |c|
    && (forall i :: n <= i < |c| ==> c[i].refs <= 0 && i + 1 >= maxSize)
    && (n == 0 || n < maxSize || c[n - 1].refs > 0)
  }

  lemma {:induction false} KeptIsMaximal(c: seq<Held>, maxSize: int, n: nat)
    requires n <= |c|
    ensures EvictsDownTo(c, maxSize, n) <==> n == |Kept(c, maxSize)|
    decreases |c|
  {
    if |c| >= maxSize && c != [] && c[|c| - 1].refs <= 0 {
      var front := c[..|c| - 1];
      KeptIsMaximal(front, maxSize, |Kept(c, maxSize)|);
      if n < |c| {
        KeptIsMaximal(front, maxSize, n);
        assert EvictsDownTo(front, maxSize, n) ==> EvictsDownTo(c, maxSize, n);
      }
    } else if n < |c| {
      assert !(c[|c| - 1].refs <= 0 && |c| - 1 + 1 >= maxSize);
    }
  }

  /** The evicted ids are those of the entries no longer kept, from the back. */
  lemma {:induction false} VictimsAreDropped(c: seq<Held>, maxSize: int)
    ensures |Victims(c, maxSize)| + |Kept(c, maxSize)| == |c|
    ensures forall k :: 0 <= k < |Victims(c, maxSize)| ==> Victims(c, maxSize)[k] == c[|c| - 1 - k].id
  {
    if |c| >= maxSize && c != [] && c[|c| - 1].refs <= 0 {
      VictimsAreDropped(c[..|c| - 1], maxSize);
    }
  }

  /** Over capacity only while the back entry is in use; the newest entry alone always fits. */
  lemma StoreBounds(c: seq<Held>, digest: Digest, id: nat, maxSize: int)
    requires Find(c, digest).None?
    ensures var r := Stored(c, digest, id, maxSize);
            |r| <= maxSize || |r| == 1 || r[|r| - 1].refs > 0
  {
    KeptIsMaximal(c, maxSize, |Kept(c, maxSize)|);
  }

  lemma StoreKeepsDistinct(c: seq<Held>, digest: Digest, id: nat, maxSize: int)
    requires Distinct(c)
    requires Find(c, digest).None? ==> forall i :: 0 <= i < |c| ==> c[i].id != id
    ensures Distinct(Stored(c, digest, id, maxSize))
  {
  }

  // -------------------------------------------------------------- order of use

  datatype Op = Store(digest: Digest, id: nat) | Release(id: nat)

  function Apply(c: seq<Held>, op: Op, maxSize: int): seq<Held> {
    match op
    case Store(digest, id) => Stored(c, digest, id, maxSize)
    case Release(id) => Released(c, id)
  }

  function AfterOps(ops: seq<Op>, maxSize: int): seq<Held> {
    if ops == [] then [] else Apply(AfterOps(ops[..|ops| - 1], maxSize), ops[|ops| - 1], maxSize)
  }

  /** One more than the position of the last store of a digest; 0 if there was none. */
  function LastStore(ops: seq<Op>, digest: Digest): (n: nat)
    ensures n <= |ops|
  {
    if ops == [] then 0
    else if ops[|ops| - 1].Store? && ops[|ops| - 1].digest == digest then |ops|
    else LastStore(ops[..|ops| - 1], digest)
  }

  ghost predicate ByRecency(ops: seq<Op>, c: seq<Held>) {
    && (forall i :: 0 <= i < |c| ==> LastStore(ops, c[i].digest) > 0)
    && (forall i, j :: 0 <= i < j < |c| ==> LastStore(ops, c[i].digest) > LastStore(ops, c[j].digest))
  }

  /** The list is in order of last store, most recent first, for every history. */
  lemma {:induction false} OrderIsRecency(ops: seq<Op>, maxSize: int)
    ensures ByRecency(ops, AfterOps(ops, maxSize))
    decreases |ops|
  {
    if ops != [] {
      var before, op := ops[..|ops| - 1], ops[|ops| - 1];
      OrderIsRecency(before, maxSize);
      assert ops == before + [op];
      match op
      case Store(digest, id) => StoreKeepsRecency(before, AfterOps(before, maxSize), digest, id, maxSize);
      case Release(id) => ReleaseKeepsRecency(before, AfterOps(before, maxSize), id);
    }
  }

  lemma ReleaseKeepsRecency(before: seq<Op>, c: seq<Held>, id: nat)
    requires ByRecency(before, c)
    ensures ByRecency(before + [Release(id)], Released(c, id))
  {
    var ops := before + [Release(id)];
    assert ops[..|ops| - 1] == before;
    assert forall d :: LastStore(ops, d) == LastStore(before, d);
  }

  lemma StoreKeepsRecency(before: seq<Op>, c: seq<Held>, digest: Digest, id: nat, maxSize: int)
    requires ByRecency(before, c)
    ensures ByRecency(before + [Store(digest, id)], Stored(c, digest, id, maxSize))
  {
    hide Kept;
    var ops := before + [Store(digest, id)];
    assert ops[..|ops| - 1] == before;
    assert forall d :: d != digest ==> LastStore(ops, d) == LastStore(before, d);
    var r := Stored(c, digest, id, maxSize);
    var rest := r[1..];
    if Find(c, digest).Some? {
      var i := Find(c, digest).value;
      assert rest == c[..i] + c[i + 1..];
      OthersKeepRecency(before, c, i);
    } else {
      assert rest == Kept(c, maxSize);
    }
    NewestFirst(before, ops, digest, rest, r);
  }

  lemma OthersKeepRecency(ops: seq<Op>, c: seq<Held>, i: nat)
    requires ByRecency(ops, c) && i < |c|
    ensures var rest := c[..i] + c[i + 1..];
            ByRecency(ops, rest) && forall k :: 0 <= k < |rest| ==> rest[k].digest != c[i].digest
  {
    hide LastStore;
    var rest := c[..i] + c[i + 1..];
    assert forall k :: 0 <= k < |rest| ==> rest[k] == c[if k < i then k else k + 1];
  }

  lemma NewestFirst(before: seq<Op>, ops: seq<Op>, digest: Digest, rest: seq<Held>, r: seq<Held>)
    requires |r| == |rest| + 1 && r[1..] == rest && r[0].digest == digest
    requires ByRecency(before, rest) && (forall k :: 0 <= k < |rest| ==> rest[k].digest != digest)
    requires LastStore(ops, digest) == |ops| > |before|
    requires forall d :: d != digest ==> LastStore(ops, d) == LastStore(before, d)
    ensures ByRecency(ops, r)
  {
    hide LastStore;
    forall i | 0 <= i < |r|
      ensures LastStore(ops, r[i].digest) > 0 && (i > 0 ==> LastStore(ops, r[i].digest) < |ops|)
    {
      if i > 0 {
        assert r[i] == rest[i - 1] && LastStore(before, rest[i - 1].digest) > 0;
      }
    }
    forall i, j | 0 <= i < j < |r|
      ensures LastStore(ops, r[i].digest) > LastStore(ops, r[j].digest)
    {
      assert r[j] == rest[j - 1];
      if i > 0 {
        assert r[i] == rest[i - 1];
        assert LastStore(before, rest[i - 1].digest) > LastStore(before, rest[j - 1].digest);
      }
    }
  }

  // ---------------------------------------------------------- the cache itself

  class Entry {
    const digest: Digest
    const id: nat
    var refCount: int

    constructor (digest: Digest, id: nat)
      ensures this.digest == digest && this.id == id && refCount == 1
    {
      this.digest, this.id, refCount := digest, id, 1;
    }
  }

  function Snapshot(entries: seq<Entry>): (c: seq<Held>)
    reads entries
    ensures |c| == |entries|
    ensures forall i :: 0 <= i < |c| ==> c[i] == Held(entries[i].digest, entries[i].id, entries[i].refCount)
  {
    if entries == [] then []
    else
      var e := entries[|entries| - 1];
      Snapshot(entries[..|entries| - 1]) + [Held(e.digest, e.id, e.refCount)]
  }

  /** The list and the two indexes hold the same entries, each once. */
  ghost predicate Indexed(lru: seq<Entry>, byHash: map<Digest, Entry>, byID: map<nat, Entry>) {
    && (forall i, j :: 0 <= i < j < |lru| ==> lru[i].digest != lru[j].digest && lru[i].id != lru[j].id)
    && (forall i :: 0 <= i < |lru| ==>
          var e := lru[i];
          e.digest in byHash && byHash[e.digest] == e && e.id in byID && byID[e.id] == e)
    && (forall d :: d in byHash ==> byHash[d] in lru && byHash[d].digest == d)
    && (forall k :: k in byID ==> byID[k] in lru && byID[k].id == k)
  }

  lemma IndexedWithoutLast(lru: seq<Entry>, byHash: map<Digest, Entry>, byID: map<nat, Entry>)
    requires Indexed(lru, byHash, byID) && lru != []
    ensures var e := lru[|lru| - 1]; Indexed(lru[..|lru| - 1], byHash - {e.digest}, byID - {e.id})
  {
    InFront(lru);
  }

  lemma InFront(lru: seq<Entry>)
    requires lru != []
    ensures forall e :: e in lru ==> e == lru[|lru| - 1] || e in lru[..|lru| - 1]
  {
  }

  lemma IndexedWithFirst(lru: seq<Entry>, byHash: map<Digest, Entry>, byID: map<nat, Entry>, e: Entry)
    requires Indexed(lru, byHash, byID) && e.digest !in byHash && e.id !in byID
    ensures Indexed([e] + lru, byHash[e.digest := e], byID[e.id := e])
  {
  }

  /** Where the entry at j comes from when the i-th moves to the front, and where the one at j goes. */
  function ComesFrom(i: nat, j: nat): nat {
    if j == 0 then i else if j <= i then j - 1 else j
  }

  function GoesTo(i: nat, j: nat): nat {
    if j == i then 0 else if j < i then j + 1 else j
  }

  lemma MovesAreInverse(i: nat, n: nat)
    requires i < n
    ensures forall j :: 0 <= j < n ==> ComesFrom(i, j) < n && GoesTo(i, j) < n
    ensures forall j, k :: 0 <= j < k < n ==> ComesFrom(i, j) != ComesFrom(i, k)
  {
  }

  lemma IndexedMovesFront(lru: seq<Entry>, byHash: map<Digest, Entry>, byID: map<nat, Entry>, i: nat)
    requires Indexed(lru, byHash, byID) && i < |lru|
    ensures var moved := [lru[i]] + (lru[..i] + lru[i + 1..]);
            Indexed(moved, byHash, byID) && forall e :: e in moved <==> e in lru
  {
    hide Indexed;
    var moved := [lru[i]] + (lru[..i] + lru[i + 1..]);
    Arrived(lru, i);
    Gone(lru, i);
    IndexedReordered(lru, moved, byHash, byID, i);
  }

  lemma Arrived<T>(lru: seq<T>, i: nat)
    requires i < |lru|
    ensures var moved := [lru[i]] + (lru[..i] + lru[i + 1..]);
            |moved| == |lru| && forall j :: 0 <= j < |moved| ==>
              ComesFrom(i, j) < |lru| && moved[j] == lru[ComesFrom(i, j)]
  {
  }

  lemma Gone(lru: seq<Entry>, i: nat)
    requires i < |lru|
    ensures forall e :: e in lru ==> e in [lru[i]] + (lru[..i] + lru[i + 1..])
  {
    var moved := [lru[i]] + (lru[..i] + lru[i + 1..]);
    forall j | 0 <= j < |lru|
      ensures lru[j] in moved
    {
      assert moved[GoesTo(i, j)] == lru[j];
    }
  }

  lemma IndexedReordered(lru: seq<Entry>, moved: seq<Entry>, byHash: map<Digest, Entry>, byID: map<nat, Entry>, i: nat)
    requires Indexed(lru, byHash, byID) && i < |lru| == |moved|
    requires forall j :: 0 <= j < |moved| ==> ComesFrom(i, j) < |lru| && moved[j] == lru[ComesFrom(i, j)]
    requires forall e :: e in lru ==> e in moved
    ensures Indexed(moved, byHash, byID) && forall e :: e in moved <==> e in lru
  {
    MovesAreInverse(i, |lru|);
    hide ComesFrom, GoesTo;
    forall j, k | 0 <= j < k < |moved|
      ensures moved[j].digest != moved[k].digest && moved[j].id != moved[k].id
    {
      DifferentEntries(lru, byHash, byID, ComesFrom(i, j), ComesFrom(i, k));
    }
  }

  lemma DifferentEntries(lru: seq<Entry>, byHash: map<Digest, Entry>, byID: map<nat, Entry>, j: nat, k: nat)
    requires Indexed(lru, byHash, byID) && j < |lru| && k < |lru| && j != k
    ensures lru[j].digest != lru[k].digest && lru[j].id != lru[k].id
  {
    if k < j {
      DifferentEntries(lru, byHash, byID, k, j);
    }
  }

  lemma OnlyOnce(lru: seq<Entry>, byHash: map<Digest, Entry>, byID: map<nat, Entry>, i: nat)
    requires Indexed(lru, byHash, byID) && i < |lru|
    ensures forall j :: 0 <= j < |lru| && lru[j] == lru[i] ==> j == i
  {
  }

  lemma IndexedFinds(lru: seq<Entry>, byHash: map<Digest, Entry>, byID: map<nat, Entry>, c: seq<Held>, d: Digest)
    requires Indexed(lru, byHash, byID) && |c| == |lru|
    requires forall i :: 0 <= i < |c| ==> c[i].digest == lru[i].digest && c[i].id == lru[i].id
    ensures Distinct(c)
    ensures d in byHash <==> Find(c, d).Some?
    ensures d in byHash ==> byHash[d] in lru && lru[Find(c, d).value] == byHash[d]
  {
    if d in byHash {
      var i :| 0 <= i < |lru| && lru[i] == byHash[d];
      assert c[i].digest == d;
    }
  }

  /** Moving an entry moves what it says. */
  lemma SnapshotMoves(lru: seq<Entry>, moved: seq<Entry>, i: nat)
    requires i < |lru| && moved == [lru[i]] + (lru[..i] + lru[i + 1..])
    ensures var c := Snapshot(lru); Snapshot(moved) == [c[i]] + (c[..i] + c[i + 1..])
  {
    hide Snapshot, ComesFrom;
    Arrived(lru, i);
    Arrived(Snapshot(lru), i);
  }

  /** The ids in the index are those of the entries. */
  lemma IndexedIds(lru: seq<Entry>, byHash: map<Digest, Entry>, byID: map<nat, Entry>, k: nat)
    requires Indexed(lru, byHash, byID) && k in byID
    ensures exists i :: 0 <= i < |lru| && lru[i].id == k
  {
    var i :| 0 <= i < |lru| && lru[i] == byID[k];
  }

  class Cache {
    const maxSize: int
    const hash: seq<byte> -> Digest
    var byHash: map<Digest, Entry>
    var byID: map<nat, Entry>
    var lru: seq<Entry>

    ghost function Repr(): set<object>
      reads this
    {
      {this} + (set e: Entry | e in lru :: e as object)
    }

    ghost predicate Valid()
      reads this
    {
      Indexed(lru, byHash, byID)
    }

    function Contents(): (c: seq<Held>)
      reads this, lru
      ensures |c| == |lru|
    {
      Snapshot(lru)
    }

    constructor (maxSize: int, hash: seq<byte> -> Digest)
      ensures Valid() && Contents() == [] && fresh(Repr())
      ensures this.maxSize == maxSize && this.hash == hash
    {
      this.maxSize, this.hash := maxSize, hash;
      byHash, byID, lru := map[], map[], [];
    }

    method Lookup(data: seq<byte>) returns (id: Option<nat>)
      requires Valid()
      ensures match Find(Contents(), hash(data))
              case Some(i) => id == Some(Contents()[i].id)
              case None => id == None
    {
      hide Indexed;
      var d := hash(data);
      IndexedFinds(lru, byHash, byID, Contents(), d);
      id := if d in byHash then Some(byHash[d].id) else None;
    }

    method Store(data: seq<byte>, id: nat) returns (evicted: seq<nat>)
      requires Valid()
      requires Find(Contents(), hash(data)).None? ==> id !in byID
      modifies Repr()
      ensures Valid() && fresh(Repr() - old(Repr()))
      ensures Contents() == Stored(old(Contents()), hash(data), id, maxSize)
      ensures evicted == EvictedBy(old(Contents()), hash(data), maxSize)
    {
      hide Indexed, Kept, Victims, Snapshot, Find, Touched;
      var d := hash(data);
      IndexedFinds(lru, byHash, byID, Contents(), d);
      if d in byHash {
        Touch(byHash[d], Find(Contents(), d).value);
        return [];
      }
      evicted := Evict();
      assert forall e :: e in lru ==> e in old(lru);
      AddFirst(d, id);
      assert Contents() == [Held(d, id, 1)] + Kept(old(Contents()), maxSize);
    }

    method AddFirst(d: Digest, id: nat)
      requires Valid() && d !in byHash && id !in byID
      modifies this
      ensures Valid() && fresh(Repr() - old(Repr()))
      ensures Contents() == [Held(d, id, 1)] + old(Contents())
    {
      hide Indexed;
      var e := new Entry(d, id);
      IndexedWithFirst(lru, byHash, byID, e);
      lru := [e] + lru;
      byHash := byHash[d := e];
      byID := byID[id := e];
    }

    /** A hit: one more reference, and the entry moves to the front. */
    method Touch(e: Entry, ghost i: nat)
      requires Valid() && i < |lru| && lru[i] == e
      modifies this`lru, e
      ensures Valid() && Repr() == old(Repr())
      ensures Contents() == Touched(old(Contents()), i)
    {
      hide Indexed, Snapshot;
      OnlyOnce(lru, byHash, byID, i);
      ghost var c := Contents();
      e.refCount := e.refCount + 1;
      assert Contents() == c[i := c[i].(refs := c[i].refs + 1)];
      MoveToFront(e, i);
    }

    method MoveToFront(e: Entry, ghost i: nat)
      requires Valid() && i < |lru| && lru[i] == e
      modifies this`lru
      ensures Valid() && Repr() == old(Repr())
      ensures var c := old(Contents()); Contents() == [c[i]] + (c[..i] + c[i + 1..])
    {
      hide Indexed, Snapshot;
      OnlyOnce(lru, byHash, byID, i);
      IndexedMovesFront(lru, byHash, byID, i);
      ghost var before := lru;
      var j :| 0 <= j < |lru| && lru[j] == e;
      lru := [e] + (lru[..j] + lru[j + 1..]);
      SnapshotMoves(before, lru, i);
    }

    /** Makes room, from the back of the list. */
    method Evict() returns (evicted: seq<nat>)
      requires Valid()
      modifies this
      ensures Valid() && lru <= old(lru)
      ensures byID.Keys <= old(byID.Keys) && byHash.Keys <= old(byHash.Keys)
      ensures Contents() == Kept(old(Contents()), maxSize)
      ensures evicted == Victims(old(Contents()), maxSize)
    {
      hide Indexed, Snapshot, Kept, Victims;
      evicted := [];
      ghost var c := Contents();
      assert c == c[..|lru|];
      while |lru| >= maxSize
        invariant Valid() && lru <= old(lru)
        invariant byID.Keys <= old(byID.Keys) && byHash.Keys <= old(byHash.Keys)
        invariant Contents() == c[..|lru|]
        invariant Kept(c[..|lru|], maxSize) == Kept(c, maxSize)
        invariant evicted + Victims(c[..|lru|], maxSize) == Victims(c, maxSize)
        decreases |lru|
      {
        EvictionStep(c, maxSize, |lru|);
        if |lru| == 0 {
          break;
        }
        var victim := lru[|lru| - 1];
        if victim.refCount > 0 {
          break;
        }
        evicted := evicted + [victim.id];
        DropLast();
      }
      EvictionStep(c, maxSize, |lru|);
    }

    /** The entry at the back leaves the list and both indexes. */
    method DropLast()
      requires Valid() && lru != []
      modifies this
      ensures Valid() && lru == old(lru)[..|old(lru)| - 1]
      ensures byID.Keys <= old(byID.Keys) && byHash.Keys <= old(byHash.Keys)
    {
      hide Indexed;
      var victim := lru[|lru| - 1];
      IndexedWithoutLast(lru, byHash, byID);
      lru := lru[..|lru| - 1];
      byHash := byHash - {victim.digest};
      byID := byID - {victim.id};
    }

    method Release(id: nat)
      requires Valid()
      modifies lru
      ensures Valid()
      ensures Contents() == Released(old(Contents()), id)
    {
      if id in byID {
        byID[id].refCount := byID[id].refCount - 1;
      }
    }
  }
}
