/**
  What every step of the engine keeps: the terminal shows what the placements say,
  the cache mirrors the terminal, and reference counts are the number of handles.
 */
module EngineInvariants {
  import opened Wrappers
  import opened Geometry
  import opened Screen
  import opened UploadCache
  import opened EngineState

  /**
    The terminal shows placement k.1 of image k.0 if it is rendered and the image is there,
    where it was last resolved to.
   */
  ghost predicate DrawnAt(placements: map<nat, Placement>, t: Terminal, k: (nat, nat)) {
    && (k in t.shown <==>
          k.1 in placements && placements[k.1].rendered && placements[k.1].image == k.0 && k.0 in t.images)
    && (k in t.shown ==> t.shown[k] == ShownAs(placements[k.1]))
  }

  /** The terminal shows exactly the rendered placements whose image it has. */
  ghost predicate DrawnRight(placements: map<nat, Placement>, t: Terminal) {
    forall k :: DrawnAt(placements, t, k)
  }

  ghost predicate Flagged(placements: map<nat, Placement>) {
    forall id :: id in placements ==> placements[id].rendered == placements[id].visible
  }

  ghost predicate Numbered(placements: map<nat, Placement>, nextPlacement: nat, nextImage: nat) {
    forall id :: id in placements ==> id <= nextPlacement && placements[id].image < nextImage
  }

  /** Anchored to a window that a disconnect dropped and nothing has redrawn since. */
  predicate Stale(s: State, p: Placement) {
    p.anchor.InWin? && p.anchor.win in s.dropped
  }

  predicate UpToDate(s: State, p: Placement) {
    Spot(p.row, p.col, p.visible) == SpotOf(s, p)
  }

  ghost predicate Positioned(s: State) {
    && (forall w :: w in s.dropped ==> w !in s.wins)
    && (forall id :: id in s.placements ==> UpToDate(s, s.placements[id]) || Stale(s, s.placements[id]))
  }

  /** Visibility as told to the client: it alternates, and ends with the truth. */
  ghost predicate Told(history: seq<bool>, visible: bool) {
    && history != [] && history[|history| - 1] == visible
    && forall i :: 0 <= i < |history| - 1 ==> history[i] != history[i + 1]
  }

  ghost predicate AllTold(placements: map<nat, Placement>, history: map<nat, seq<bool>>) {
    forall id :: id in placements ==> id in history && Told(history[id], placements[id].visible)
  }

  ghost function Ids(c: seq<Held>): set<nat> {
    set i | 0 <= i < |c| :: c[i].id
  }

  /** The terminal has the cached images and no others, each under the digest of its bytes. */
  ghost predicate CacheMirrors(cfg: Config, c: seq<Held>, images: map<nat, Image>, nextImage: nat) {
    && Distinct(c)
    && images.Keys == Ids(c)
    && (forall i :: 0 <= i < |c| ==>
          c[i].id < nextImage && c[i].id in images && cfg.hash(images[c[i].id].data) == c[i].digest)
  }

  /** Each entry counts the handles for its image, and each handle names a cached image. */
  ghost predicate RefsExact(c: seq<Held>, handles: map<string, map<nat, nat>>) {
    && (forall i :: 0 <= i < |c| ==> c[i].refs == |Holders(handles, c[i].id)|)
    && (forall client, h :: client in handles && h in handles[client] ==> handles[client][h] in Ids(c))
  }

  /** A handle names an image with the digest of the bytes it was given for. */
  ghost predicate UploadsKept(cfg: Config, uploads: map<(string, nat), seq<byte>>, handles: map<string, map<nat,
                              nat>>, images: map<nat, Image>) {
    forall c, h :: c in handles && h in handles[c] ==>
      && (c, h) in uploads && handles[c][h] in images
      && cfg.hash(uploads[(c, h)]) == cfg.hash(images[handles[c][h]].data)
  }

  ghost predicate FreedOnce(freed: multiset<nat>, images: map<nat, Image>, nextImage: nat) {
    forall k :: k in freed ==> freed[k] == 1 && k !in images && k < nextImage
  }

  /** Everything but the placements' positions. */
  ghost predicate Sound(cfg: Config, s: State) {
    && DrawnRight(s.placements, s.terminal) && Flagged(s.placements)
    && Numbered(s.placements, s.nextPlacement, s.nextImage)
    && AllTold(s.placements, s.history)
    && CacheMirrors(cfg, s.cache, s.terminal.images, s.nextImage)
    && RefsExact(s.cache, s.handles)
    && UploadsKept(cfg, s.uploads, s.handles, s.terminal.images)
    && FreedOnce(s.terminal.freed, s.terminal.images, s.nextImage)
    && s.evictions == multiset{}
  }

  ghost predicate Good(cfg: Config, s: State) {
    Sound(cfg, s) && Positioned(s)
  }

  lemma GoodInitially(cfg: Config)
    ensures Good(cfg, Initial())
  {
  }

  // -------------------------------------------------------------------- redraw

  /** The commands for one placement leave the terminal showing its new position. */
  lemma RefreshedIsDrawn(placements: map<nat, Placement>, t: Terminal, id: nat, now: Placement)
    requires DrawnRight(placements, t) && id in placements
    requires now.image == placements[id].image && now.look == placements[id].look && now.rendered == now.visible
    ensures DrawnRight(placements[id := now], Refreshed(t, id, placements[id], now))
  {
    var after, later := placements[id := now], Refreshed(t, id, placements[id], now);
    forall k: (nat, nat)
      ensures DrawnAt(after, later, k)
    {
      assert DrawnAt(placements, t, k);
    }
  }

  lemma ToldAgain(history: map<nat, seq<bool>>, id: nat, was: bool, now: bool)
    requires id in history && Told(history[id], was)
    ensures Told(Notified(history, id, was, now)[id], now)
  {
  }

  lemma RedrawOneKeeps(s: State, id: nat)
    requires DrawnRight(s.placements, s.terminal) && AllTold(s.placements, s.history)
    ensures var t := RedrawOne(s, id);
            DrawnRight(t.placements, t.terminal) && AllTold(t.placements, t.history)
  {
    hide ScreenPos, DrawnRight, Told, Refreshed;
    if id in s.placements {
      var was := s.placements[id];
      RefreshedIsDrawn(s.placements, s.terminal, id, Resolved(s, was));
      ToldAgain(s.history, id, was.visible, Resolved(s, was).visible);
    }
  }

  /** What redrawing some placements comes to, in whatever order. */
  ghost predicate Redrawn(s: State, t: State, done: set<nat>) {
    && t == s.(placements := t.placements, terminal := t.terminal, history := t.history)
    && t.terminal.images == s.terminal.images && t.terminal.freed == s.terminal.freed
    && t.placements.Keys == s.placements.Keys
    && forall id :: id in s.placements ==>
         t.placements[id] == if id in done then Resolved(s, s.placements[id]) else s.placements[id]
  }

  lemma {:induction false} RedrawEachIs(s: State, order: seq<nat>)
    requires DrawnRight(s.placements, s.terminal) && AllTold(s.placements, s.history)
    ensures var t := RedrawEach(s, order);
            && Redrawn(s, t, (set id | id in order))
            && DrawnRight(t.placements, t.terminal) && AllTold(t.placements, t.history)
  {
    hide ScreenPos, DrawnRight, AllTold;
    if order != [] {
      var front, last := order[..|order| - 1], order[|order| - 1];
      RedrawEachIs(s, front);
      var mid := RedrawEach(s, front);
      RedrawOneKeeps(mid, last);
      RedrawnMore(s, mid, (set id | id in front), last);
      assert (set id | id in order) == (set id | id in front) + {last};
    }
  }

  lemma RefreshedKeepsImages(t: Terminal, id: nat, was: Placement, now: Placement)
    ensures var r := Refreshed(t, id, was, now); r.images == t.images && r.freed == t.freed
  {
  }

  lemma RedrawnMore(s: State, t: State, done: set<nat>, id: nat)
    requires Redrawn(s, t, done)
    ensures Redrawn(s, RedrawOne(t, id), done + {id})
  {
    hide ScreenPos, Notified, Refreshed;
    if id in t.placements {
      RefreshedKeepsImages(t.terminal, id, t.placements[id], Resolved(t, t.placements[id]));
    }
  }

  /** After any redraw, in any order, every placement is where it belongs. */
  lemma RedrawKeepsGood(cfg: Config, s: State, t: State)
    requires Sound(cfg, s) && Redraws(s, t)
    ensures Good(cfg, t)
  {
    hide ScreenPos, DrawnRight, AllTold, CacheMirrors, RefsExact, UploadsKept, FreedOnce, SpotOf, Positioned,
         RedrawEach;
    var order :| Enumerates(order, s.placements.Keys) && t == RedrawEach(s, order).(dropped := {});
    RedrawEachIs(s, order);
    AllRedrawn(s, RedrawEach(s, order), (set id | id in order));
  }

  lemma AllRedrawn(s: State, t: State, done: set<nat>)
    requires Redrawn(s, t, done) && s.placements.Keys <= done
    ensures Positioned(t.(dropped := {})) && Flagged(t.placements)
    ensures Numbered(s.placements, s.nextPlacement, s.nextImage) ==>
              Numbered(t.placements, t.nextPlacement, t.nextImage)
  {
    hide ScreenPos;
  }

  lemma RegeometryKeepsSound(cfg: Config, s: State, e: Event)
    requires Sound(cfg, s) && Regeometry(s, e).Some?
    ensures Sound(cfg, Regeometry(s, e).value)
  {
    hide DrawnRight, AllTold, CacheMirrors, RefsExact, UploadsKept, Flagged, Numbered, FreedOnce, PaneMap;
  }

  // ---------------------------------------------------------------- placements

  lemma PlacedIsDrawn(placements: map<nat, Placement>, t: Terminal, id: nat, p: Placement)
    requires DrawnRight(placements, t) && id !in placements && p.rendered == p.visible
    ensures DrawnRight(placements[id := p], if p.visible then PlacedAt(t, p.image, id, ShownAs(p)) else t)
  {
    var after, later := placements[id := p], if p.visible then PlacedAt(t, p.image, id, ShownAs(p)) else t;
    forall k: (nat, nat)
      ensures DrawnAt(after, later, k)
    {
      assert DrawnAt(placements, t, k);
    }
  }

  lemma PlaceKeepsGood(cfg: Config, s: State, client: string, handle: nat, anchor: Anchor, look: Look)
    requires Good(cfg, s)
    ensures Good(cfg, Place(s, client, handle, anchor, look).0)
  {
    hide ScreenPos, RefsExact, DrawnRight, CacheMirrors, UploadsKept, FreedOnce, Positioned, AllTold, Flagged, Numbered;
    if client in s.handles && handle in s.handles[client] {
      var p := Resolved(s, Placement(client, handle, s.handles[client][handle], anchor, look, 0, 0, false, false));
      HandlesAreCached(cfg, s, client, handle);
      OneMoreTold(s.placements, s.history, s.nextPlacement, s.nextImage, p);
      PlacedIsDrawn(s.placements, s.terminal, s.nextPlacement + 1, p);
      OneMorePositioned(s, Place(s, client, handle, anchor, look).0, s.nextPlacement + 1, p);
    }
  }

  lemma OneMoreTold(placements: map<nat, Placement>, history: map<nat, seq<bool>>, nextPlacement: nat, nextImage: nat,
                    p: Placement)
    requires Flagged(placements) && Numbered(placements, nextPlacement, nextImage) && AllTold(placements, history)
    requires p.rendered == p.visible && p.image < nextImage
    ensures var id := nextPlacement + 1;
            && id !in placements
            && Flagged(placements[id := p]) && Numbered(placements[id := p], id, nextImage)
            && AllTold(placements[id := p], history[id := [p.visible]])
  {
    assert Told([p.visible], p.visible);
  }

  lemma OneMorePositioned(s: State, t: State, id: nat, p: Placement)
    requires Positioned(s) && t.placements == s.placements[id := p]
    requires t.panes == s.panes && t.wins == s.wins && t.size == s.size && t.dropped == s.dropped
    requires UpToDate(s, p)
    ensures Positioned(t)
  {
    hide ScreenPos;
  }

  lemma HandlesAreCached(cfg: Config, s: State, client: string, handle: nat)
    requires Sound(cfg, s) && client in s.handles && handle in s.handles[client]
    ensures s.handles[client][handle] < s.nextImage && s.handles[client][handle] in s.terminal.images
  {
  }

  lemma RemovedIsDrawn(placements: map<nat, Placement>, t: Terminal, id: nat)
    requires DrawnRight(placements, t) && id in placements
    ensures var p := placements[id];
            DrawnRight(placements - {id}, if p.rendered then Unplaced(t, p.image, id) else t)
  {
    var p := placements[id];
    var after, later := placements - {id}, if p.rendered then Unplaced(t, p.image, id) else t;
    forall k: (nat, nat)
      ensures DrawnAt(after, later, k)
    {
      assert DrawnAt(placements, t, k);
    }
  }

  lemma RemoveKeepsGood(cfg: Config, s: State, id: nat, client: string)
    requires Good(cfg, s)
    ensures Good(cfg, Remove(s, id, client))
  {
    hide ScreenPos, RefsExact, DrawnRight, CacheMirrors, UploadsKept, FreedOnce, Told;
    if id in s.placements {
      RemovedIsDrawn(s.placements, s.terminal, id);
    }
  }

  lemma {:induction false} RemoveEachKeepsGood(cfg: Config, s: State, order: seq<nat>, client: string)
    requires Good(cfg, s)
    ensures var t := RemoveEach(s, order, client);
            && Good(cfg, t)
            && t == s.(placements := t.placements, terminal := t.terminal) && t.terminal.images == s.terminal.images
            && (forall id :: id in t.placements <==> id in s.placements && (id in order ==>
                  s.placements[id].client != client))
            && (forall id :: id in t.placements ==> t.placements[id] == s.placements[id])
  {
    hide Good;
    if order != [] {
      var front, last := order[..|order| - 1], order[|order| - 1];
      RemoveEachKeepsGood(cfg, s, front, client);
      RemoveKeepsGood(cfg, RemoveEach(s, front, client), last, client);
    }
  }

  // -------------------------------------------------------------------- handles

  lemma AssignHolders(handles: map<string, map<nat, nat>>, client: string, images: map<nat, nat>, handle: nat,
                      image: nat, k: nat)
    requires images == (if client in handles then handles[client] else map[]) && handle !in images
    ensures Holders(handles[client := images[handle := image]], k)
            == Holders(handles, k) + if k == image then {(client, handle)} else {}
  {
  }

  lemma FreeHolders(handles: map<string, map<nat, nat>>, client: string, handle: nat, k: nat)
    requires client in handles && handle in handles[client]
    ensures Holders(handles[client := handles[client] - {handle}], k) == Holders(handles, k) - {(client, handle)}
    ensures (client, handle) in Holders(handles, k) <==> k == handles[client][handle]
  {
  }

  /** A new handle for a cached image, counted by the cache. */
  lemma AssignKeepsRefs(before: seq<Held>, after: seq<Held>, handles: map<string, map<nat, nat>>, client: string,
                        images: map<nat, nat>, handle: nat, image: nat)
    requires images == (if client in handles then handles[client] else map[]) && handle !in images
    requires RefsExact(before, handles) && image in Ids(after)
    requires forall i :: 0 <= i < |after| ==> CountsOneMore(before, handles, after[i], image)
    requires forall c, h :: c in handles && h in handles[c] ==> handles[c][h] in Ids(after)
    ensures RefsExact(after, handles[client := images[handle := image]])
  {
    hide Ids;
    var later := handles[client := images[handle := image]];
    forall i | 0 <= i < |after|
      ensures after[i].refs == |Holders(later, after[i].id)|
    {
      assert CountsOneMore(before, handles, after[i], image);
      AssignHolders(handles, client, images, handle, image, after[i].id);
      assert (client, handle) !in Holders(handles, after[i].id);
    }
  }

  ghost predicate CountsOneMore(before: seq<Held>, handles: map<string, map<nat, nat>>, held: Held, image: nat) {
    held.refs == |Holders(handles, held.id)| + if held.id == image then 1 else 0
  }

  lemma AssignKeepsUploads(cfg: Config, s: State, client: string, handle: nat, image: nat, data: seq<byte>)
    requires UploadsKept(cfg, s.uploads, s.handles, s.terminal.images)
    requires image in s.terminal.images && cfg.hash(data) == cfg.hash(s.terminal.images[image].data)
    ensures var t := Assigned(s, client, handle, image, data);
            UploadsKept(cfg, t.uploads, t.handles, t.terminal.images)
  {
  }

  lemma TouchedIds(c: seq<Held>, i: nat)
    requires i < |c|
    ensures |Touched(c, i)| == |c| && Ids(Touched(c, i)) == Ids(c)
    ensures forall j :: 0 <= j < |c| ==>
              Touched(c, i)[j] == if j == 0 then c[i].(refs := c[i].refs + 1) else c[if j <= i then j - 1 else j]
  {
    var t := Touched(c, i);
    forall j | 0 <= j < |c|
      ensures c[j].id in Ids(t)
    {
      assert t[if j == i then 0 else if j < i then j + 1 else j].id == c[j].id;
    }
  }

  /** A cache hit. */
  lemma HitKeepsGood(cfg: Config, s: State, client: string, image: Image, handle: nat)
    requires Good(cfg, s) && Find(s.cache, cfg.hash(image.data)).Some?
    requires FirstFree(HandlesOf(s, client), handle)
    ensures Good(cfg, Upload(cfg, s, client, image, handle))
  {
    hide ScreenPos, DrawnRight, UploadsKept, Flagged, Numbered, FreedOnce, AllTold, Touched, Ids;
    var i := Find(s.cache, cfg.hash(image.data)).value;
    var t := Upload(cfg, s, client, image, handle);
    TouchedIds(s.cache, i);
    TouchedMirrors(cfg, s.cache, i, s.terminal.images, s.nextImage);
    AssignKeepsUploads(cfg, s, client, handle, s.cache[i].id, image.data);
    InIds(s.cache, i);
    TouchedCounts(s.cache, s.handles, i);
    AssignKeepsRefs(s.cache, t.cache, s.handles, client, HandlesOf(s, client), handle, s.cache[i].id);
  }

  lemma TouchedCounts(c: seq<Held>, handles: map<string, map<nat, nat>>, i: nat)
    requires Distinct(c) && RefsExact(c, handles) && i < |c|
    ensures forall j :: 0 <= j < |Touched(c, i)| ==> CountsOneMore(c, handles, Touched(c, i)[j], c[i].id)
  {
    hide Ids, Touched, Holders;
    TouchedIds(c, i);
  }

  lemma InIds(c: seq<Held>, i: nat)
    requires i < |c|
    ensures c[i].id in Ids(c)
  {
  }

  lemma TouchedMirrors(cfg: Config, c: seq<Held>, i: nat, images: map<nat, Image>, nextImage: nat)
    requires CacheMirrors(cfg, c, images, nextImage) && i < |c|
    ensures CacheMirrors(cfg, Touched(c, i), images, nextImage)
  {
    hide Ids, Touched;
    TouchedIds(c, i);
  }

  // ------------------------------------------------------------------- evictions

  /** The terminal once several images have been freed. */
  ghost predicate FreedAll(t: Terminal, r: Terminal, images: seq<nat>) {
    && (forall k :: k in r.images <==> k in t.images && k !in images)
    && (forall k :: k in r.images ==> r.images[k] == t.images[k])
    && (forall k :: k in r.shown <==> k in t.shown && k.0 !in images)
    && (forall k :: k in r.shown ==> r.shown[k] == t.shown[k])
    && r.freed == t.freed + multiset(images)
  }

  /** What freeing several images comes to, in any order. */
  lemma {:induction false} FreeEachIs(t: Terminal, images: seq<nat>)
    ensures FreedAll(t, FreeEach(t, images), images)
  {
    if images != [] {
      var front, last := images[..|images| - 1], images[|images| - 1];
      FreeEachIs(t, front);
      FreedOneMore(t, FreeEach(t, front), front, last);
      assert images == front + [last];
    }
  }

  lemma FreedOneMore(t: Terminal, r: Terminal, images: seq<nat>, image: nat)
    requires FreedAll(t, r, images)
    ensures FreedAll(t, Freed(r, image), images + [image])
  {
    assert multiset(images + [image]) == multiset(images) + multiset{image};
  }

  lemma FreedIsDrawn(placements: map<nat, Placement>, t: Terminal, images: seq<nat>)
    requires DrawnRight(placements, t)
    ensures DrawnRight(placements, FreeEach(t, images))
  {
    FreeEachIs(t, images);
    var r := FreeEach(t, images);
    forall k: (nat, nat)
      ensures DrawnAt(placements, r, k)
    {
      assert DrawnAt(placements, t, k);
    }
  }

  /** An image nobody holds a handle for takes nobody's handle with it. */
  lemma EvictsUnheld(s: State, image: nat)
    requires Holders(s.handles, image) == {}
    ensures EvictOne(s, image) == s.(terminal := Freed(s.terminal, image))
  {
    hide Freed;
    NoHandleLost(s.handles, image);
    assert s.uploads - {} == s.uploads;
    assert s.evictions + multiset{} == s.evictions;
  }

  lemma NoHandleLost(handles: map<string, map<nat, nat>>, image: nat)
    requires Holders(handles, image) == {}
    ensures HandlesWithout(handles, image) == handles
  {
    forall c | c in handles
      ensures Without(handles[c], image) == handles[c]
    {
      assert forall h :: h in handles[c] && handles[c][h] == image ==> (c, h) in Holders(handles, image);
    }
  }

  lemma {:induction false} EvictsAllUnheld(s: State, images: seq<nat>)
    requires forall i :: 0 <= i < |images| ==> Holders(s.handles, images[i]) == {}
    ensures EvictEach(s, images) == s.(terminal := FreeEach(s.terminal, images))
  {
    hide Freed, Holders, EvictOne;
    if images != [] {
      EvictsAllUnheld(s, images[..|images| - 1]);
      EvictsUnheld(EvictEach(s, images[..|images| - 1]), images[|images| - 1]);
    }
  }

  /** Victims are cached images without a handle; what stays cached is the rest. */
  lemma VictimsAreUnheld(c: seq<Held>, maxSize: int, handles: map<string, map<nat, nat>>)
    requires Distinct(c) && RefsExact(c, handles)
    ensures var victims := Victims(c, maxSize);
            && (forall k :: 0 <= k < |victims| ==> victims[k] in Ids(c) && Holders(handles, victims[k]) == {})
            && (forall i, j :: 0 <= i < j < |victims| ==> victims[i] != victims[j])
            && (forall id :: id in Ids(Kept(c, maxSize)) <==> id in Ids(c) && id !in victims)
  {
    hide Kept, Victims, Holders;
    VictimsAreDropped(c, maxSize);
    var kept, victims := Kept(c, maxSize), Victims(c, maxSize);
    KeptIsMaximal(c, maxSize, |kept|);
    forall k | 0 <= k < |victims|
      ensures victims[k] in Ids(c) && Holders(handles, victims[k]) == {}
    {
      var i := |c| - 1 - k;
      assert victims[k] == c[i].id && c[i].refs <= 0 && c[i].refs == |Holders(handles, c[i].id)|;
    }
    forall i | 0 <= i < |c|
      ensures c[i].id in victims <==> i >= |kept|
    {
      if i >= |kept| {
        assert victims[|c| - 1 - i] == c[i].id;
      }
    }
    forall id | id in Ids(kept)
      ensures id in Ids(c) && id !in victims
    {
      var i :| 0 <= i < |kept| && kept[i].id == id;
      assert c[i] == kept[i];
    }
    forall id | id in Ids(c) && id !in victims
      ensures id in Ids(kept)
    {
      var i :| 0 <= i < |c| && c[i].id == id;
      assert kept[i] == c[i];
    }
  }

  /** A cache miss up to the assignment: the terminal and the cache change together, and no handle is lost. */
  lemma TransmitIs(cfg: Config, s: State, image: Image)
    requires Good(cfg, s) && Find(s.cache, cfg.hash(image.data)).None?
    ensures var victims := Victims(s.cache, cfg.maxSize);
            Transmit(cfg, s, image)
            == s.(nextImage := s.nextImage + 1,
                  cache := [Held(cfg.hash(image.data), s.nextImage, 1)] + Kept(s.cache, cfg.maxSize),
                  terminal := FreeEach(Transmitted(s.terminal, s.nextImage, image), victims))
  {
    hide Kept, Victims, FreeEach, Transmitted;
    VictimsAreUnheld(s.cache, cfg.maxSize, s.handles);
    var t := s.(nextImage := s.nextImage + 1,
                terminal := Transmitted(s.terminal, s.nextImage, image),
                cache := Stored(s.cache, cfg.hash(image.data), s.nextImage, cfg.maxSize));
    EvictsAllUnheld(t, Victims(s.cache, cfg.maxSize));
  }

  /** The images after a miss: the new one, and the old ones but the victims. */
  lemma MissImages(cfg: Config, s: State, image: Image, t: Terminal)
    requires CacheMirrors(cfg, s.cache, s.terminal.images, s.nextImage) && RefsExact(s.cache, s.handles)
    requires FreedOnce(s.terminal.freed, s.terminal.images, s.nextImage)
    requires t == FreeEach(Transmitted(s.terminal, s.nextImage, image), Victims(s.cache, cfg.maxSize))
    ensures s.nextImage in t.images && t.images[s.nextImage] == image
    ensures forall k :: k != s.nextImage ==> (k in t.images <==>
              k in s.terminal.images && k !in Victims(s.cache, cfg.maxSize))
    ensures forall k :: k in t.images && k != s.nextImage ==> t.images[k] == s.terminal.images[k]
    ensures FreedOnce(t.freed, t.images, s.nextImage + 1)
  {
    hide Kept, Victims, FreeEach, Holders, Ids;
    var victims := Victims(s.cache, cfg.maxSize);
    var leaving: multiset<nat> := multiset(victims);
    FreeEachIs(Transmitted(s.terminal, s.nextImage, image), victims);
    VictimsAreUnheld(s.cache, cfg.maxSize, s.handles);
    VictimsCountOnce(victims);
    NewIsUnknown(s.cache, s.nextImage);
    forall k | k in t.freed
      ensures t.freed[k] == 1 && k !in t.images && k < s.nextImage + 1
    {
      assert t.freed[k] == s.terminal.freed[k] + leaving[k];
      assert k in s.terminal.freed ==> k !in victims;
    }
  }

  lemma MissMirrors(cfg: Config, s: State, image: Image, images: map<nat, Image>)
    requires CacheMirrors(cfg, s.cache, s.terminal.images, s.nextImage) && RefsExact(s.cache, s.handles)
    requires Find(s.cache, cfg.hash(image.data)).None?
    requires s.nextImage in images && images[s.nextImage] == image
    requires forall k :: k != s.nextImage ==> (k in images <==>
               k in s.terminal.images && k !in Victims(s.cache, cfg.maxSize))
    requires forall k :: k in images && k != s.nextImage ==> images[k] == s.terminal.images[k]
    ensures CacheMirrors(cfg, [Held(cfg.hash(image.data), s.nextImage, 1)] + Kept(s.cache, cfg.maxSize), images,
              s.nextImage + 1)
  {
    hide Kept, Victims, Holders, Ids;
    var kept := Kept(s.cache, cfg.maxSize);
    var after := [Held(cfg.hash(image.data), s.nextImage, 1)] + kept;
    VictimsAreUnheld(s.cache, cfg.maxSize, s.handles);
    MoreIds(after, kept);
    NewIsUnknown(s.cache, s.nextImage);
    MoreIsDistinct(s.cache, cfg.hash(image.data), s.nextImage, kept, after);
    AllInIds(kept);
    forall i | 1 <= i < |after|
      ensures after[i].id < s.nextImage && after[i].id in images
                && cfg.hash(images[after[i].id].data) == after[i].digest
    {
      assert after[i] == kept[i - 1] == s.cache[i - 1];
    }
  }

  lemma NewIsUnknown(c: seq<Held>, id: nat)
    requires forall i :: 0 <= i < |c| ==> c[i].id < id
    ensures id !in Ids(c) && forall k :: k in Ids(c) ==> k < id
  {
  }

  lemma AllInIds(c: seq<Held>)
    ensures forall i :: 0 <= i < |c| ==> c[i].id in Ids(c)
  {
  }

  lemma MoreIds(after: seq<Held>, kept: seq<Held>)
    requires after != [] && after[1..] == kept
    ensures Ids(after) == {after[0].id} + Ids(kept)
  {
    forall i | 0 <= i < |kept|
      ensures kept[i].id in Ids(after)
    {
      assert after[i + 1].id == kept[i].id;
    }
    forall i | 1 <= i < |after|
      ensures after[i].id in Ids(kept)
    {
      assert kept[i - 1].id == after[i].id;
    }
  }

  lemma MoreIsDistinct(c: seq<Held>, digest: Digest, id: nat, kept: seq<Held>, after: seq<Held>)
    requires Distinct(c) && Find(c, digest).None? && kept <= c && after == [Held(digest, id, 1)] + kept
    requires forall i :: 0 <= i < |c| ==> c[i].id < id
    ensures Distinct(after)
  {
    assert forall i :: 1 <= i < |after| ==> after[i] == c[i - 1];
  }

  lemma {:induction false} VictimsCountOnce(images: seq<nat>)
    requires forall i, j :: 0 <= i < j < |images| ==> images[i] != images[j]
    ensures forall k :: k in images ==> multiset(images)[k] == 1
    ensures forall k :: k !in images ==> multiset(images)[k] == 0
  {
    if images != [] {
      var front, last := images[..|images| - 1], images[|images| - 1];
      VictimsCountOnce(front);
      assert images == front + [last];
    }
  }

  lemma MissCounts(c: seq<Held>, handles: map<string, map<nat, nat>>, digest: Digest, id: nat, maxSize: int)
    requires Distinct(c) && RefsExact(c, handles)
    requires forall i :: 0 <= i < |c| ==> c[i].id < id
    ensures var after := [Held(digest, id, 1)] + Kept(c, maxSize);
            && id in Ids(after)
            && (forall j :: 0 <= j < |after| ==> CountsOneMore(c, handles, after[j], id))
            && (forall client, h :: client in handles && h in handles[client] ==> handles[client][h] in Ids(after))
  {
    hide Kept, Victims, Ids;
    var kept := Kept(c, maxSize);
    var after := [Held(digest, id, 1)] + kept;
    VictimsAreUnheld(c, maxSize, handles);
    MoreIds(after, kept);
    NewIsUnknown(c, id);
    assert Holders(handles, id) == {};
    assert forall j :: 1 <= j < |after| ==> after[j] == c[j - 1];
    forall client, h | client in handles && h in handles[client]
      ensures handles[client][h] in Ids(after)
    {
      assert (client, h) in Holders(handles, handles[client][h]);
    }
  }

  lemma MissUploads(cfg: Config, s: State, image: Image, t: State)
    requires UploadsKept(cfg, s.uploads, s.handles, s.terminal.images)
    requires t.uploads == s.uploads && t.handles == s.handles
    requires forall c, h :: c in s.handles && h in s.handles[c] ==>
               s.handles[c][h] != s.nextImage && s.handles[c][h] in t.terminal.images
    requires forall k :: k in t.terminal.images && k != s.nextImage ==>
               k in s.terminal.images && t.terminal.images[k] == s.terminal.images[k]
    ensures UploadsKept(cfg, t.uploads, t.handles, t.terminal.images)
  {
  }

  /** A placement of an image the terminal does not know yet does not exist. */
  lemma TransmittedIsDrawn(placements: map<nat, Placement>, t: Terminal, image: nat, contents: Image)
    requires DrawnRight(placements, t) && (forall id :: id in placements ==> placements[id].image < image)
    ensures DrawnRight(placements, Transmitted(t, image, contents))
  {
    var later := Transmitted(t, image, contents);
    forall k: (nat, nat)
      ensures DrawnAt(placements, later, k)
    {
      assert DrawnAt(placements, t, k);
    }
  }

  lemma MissKeepsSound(cfg: Config, s: State, client: string, image: Image, handle: nat)
    requires Sound(cfg, s) && Positioned(s) && Find(s.cache, cfg.hash(image.data)).None?
    requires FirstFree(HandlesOf(Transmit(cfg, s, image), client), handle)
    ensures Sound(cfg, Upload(cfg, s, client, image, handle))
  {
    hide ScreenPos, DrawnRight, UploadsKept, Flagged, FreedOnce, AllTold, Kept, Victims, Ids, FreeEach,
         Transmitted, Holders, Positioned;
    var t := Transmit(cfg, s, image);
    TransmitIs(cfg, s, image);
    MissImages(cfg, s, image, t.terminal);
    MissMirrors(cfg, s, image, t.terminal.images);
    MissCounts(s.cache, s.handles, cfg.hash(image.data), s.nextImage, cfg.maxSize);
    VictimsAreUnheld(s.cache, cfg.maxSize, s.handles);
    HandlesStay(cfg, s, t);
    MissUploads(cfg, s, image, t);
    TransmittedIsDrawn(s.placements, s.terminal, s.nextImage, image);
    FreedIsDrawn(s.placements, Transmitted(s.terminal, s.nextImage, image), Victims(s.cache, cfg.maxSize));
    AssignKeepsUploads(cfg, t, client, handle, s.nextImage, image.data);
    AssignKeepsRefs(s.cache, t.cache, s.handles, client, HandlesOf(t, client), handle, s.nextImage);
  }

  lemma HandlesStay(cfg: Config, s: State, t: State)
    requires CacheMirrors(cfg, s.cache, s.terminal.images, s.nextImage) && RefsExact(s.cache, s.handles)
    requires t.terminal.images.Keys == Ids(t.cache)
    requires forall client, h :: client in s.handles && h in s.handles[client] ==> s.handles[client][h] in Ids(t.cache)
    ensures forall c, h :: c in s.handles && h in s.handles[c] ==>
              s.handles[c][h] != s.nextImage && s.handles[c][h] in t.terminal.images
  {
    hide Holders;
  }

  lemma UploadKeepsGood(cfg: Config, s: State, client: string, image: Image, handle: nat)
    requires Good(cfg, s) && FirstFree(HandlesOf(BeforeAssigning(cfg, s, image), client), handle)
    ensures Good(cfg, Upload(cfg, s, client, image, handle))
  {
    hide ScreenPos, Sound, FreeEach, Kept, Victims;
    if Find(s.cache, cfg.hash(image.data)).Some? {
      HitKeepsGood(cfg, s, client, image, handle);
    } else {
      TransmitIs(cfg, s, image);
      MissKeepsSound(cfg, s, client, image, handle);
    }
  }

  // ------------------------------------------------------------------ releasing

  lemma FreeKeepsRefs(c: seq<Held>, handles: map<string, map<nat, nat>>, client: string, handle: nat)
    requires client in handles && handle in handles[client] && RefsExact(c, handles)
    ensures RefsExact(Released(c, handles[client][handle]), handles[client := handles[client] - {handle}])
  {
    hide Holders, Ids;
    var later := handles[client := handles[client] - {handle}];
    var d := Released(c, handles[client][handle]);
    SameIds(c, d);
    forall i | 0 <= i < |d|
      ensures d[i].refs == |Holders(later, d[i].id)|
    {
      FreeHolders(handles, client, handle, d[i].id);
    }
  }

  lemma MirrorsWhateverRefs(cfg: Config, c: seq<Held>, d: seq<Held>, images: map<nat, Image>, nextImage: nat)
    requires CacheMirrors(cfg, c, images, nextImage)
    requires |c| == |d| && forall i :: 0 <= i < |c| ==> c[i].id == d[i].id && c[i].digest == d[i].digest
    ensures CacheMirrors(cfg, d, images, nextImage)
  {
    SameIds(c, d);
    hide Ids;
  }

  lemma FewerUploads(cfg: Config, uploads: map<(string, nat), seq<byte>>, handles: map<string, map<nat, nat>>,
                     images: map<nat, Image>,
                     fewer: map<(string, nat), seq<byte>>, left: map<string, map<nat, nat>>)
    requires UploadsKept(cfg, uploads, handles, images)
    requires forall c, h :: c in left && h in left[c] ==>
               && c in handles && h in handles[c] && left[c][h] == handles[c][h]
               && (c, h) in uploads && (c, h) in fewer && fewer[(c, h)] == uploads[(c, h)]
    ensures UploadsKept(cfg, fewer, left, images)
  {
  }

  lemma FreeKeepsGood(cfg: Config, s: State, client: string, handle: nat)
    requires Good(cfg, s)
    ensures Good(cfg, Free(s, client, handle))
  {
    hide ScreenPos, DrawnRight, Flagged, FreedOnce, AllTold, Numbered, RefsExact, CacheMirrors;
    if client in s.handles && handle in s.handles[client] {
      var t := Free(s, client, handle);
      FreeKeepsRefs(s.cache, s.handles, client, handle);
      MirrorsWhateverRefs(cfg, s.cache, t.cache, s.terminal.images, s.nextImage);
      FewerUploads(cfg, s.uploads, s.handles, s.terminal.images, t.uploads, t.handles);
    }
  }

  lemma SameIds(c: seq<Held>, d: seq<Held>)
    requires |c| == |d| && forall i :: 0 <= i < |c| ==> c[i].id == d[i].id
    ensures Ids(c) == Ids(d)
  {
    assert forall i :: 0 <= i < |c| ==> c[i].id in Ids(d) && d[i].id in Ids(c);
  }

  ghost function Pairs(handles: set<nat>, client: string): set<(string, nat)> {
    set h | h in handles :: (client, h)
  }

  lemma {:induction false} PairsSize(handles: set<nat>, client: string)
    ensures |Pairs(handles, client)| == |handles|
  {
    if handles == {} {
      assert Pairs(handles, client) == {};
    } else {
      var h :| h in handles;
      PairsSize(handles - {h}, client);
      assert Pairs(handles, client) == Pairs(handles - {h}, client) + {(client, h)};
      assert (client, h) !in Pairs(handles - {h}, client);
    }
  }

  /** A leaving client's handles are exactly what its images lose. */
  lemma DisconnectHolders(handles: map<string, map<nat, nat>>, client: string, image: nat)
    requires client in handles
    ensures |Holders(handles - {client}, image)| == |Holders(handles, image)| - |HandlesTo(handles[client], image)|
  {
    var own := HandlesTo(handles[client], image);
    PairsSize(own, client);
    HoldersSplit(handles, client, image);
  }

  lemma HoldersSplit(handles: map<string, map<nat, nat>>, client: string, image: nat)
    requires client in handles
    ensures Holders(handles, image)
              == Holders(handles - {client}, image) + Pairs(HandlesTo(handles[client], image), client)
    ensures Holders(handles - {client}, image) !! Pairs(HandlesTo(handles[client], image), client)
  {
  }

  lemma ReleasedAllCounts(c: seq<Held>, handles: map<string, map<nat, nat>>, client: string)
    requires RefsExact(c, handles) && client in handles
    ensures RefsExact(ReleasedAll(c, handles[client]), handles - {client})
  {
    hide Holders, HandlesTo;
    var d := ReleasedAll(c, handles[client]);
    SameIds(c, d);
    forall i | 0 <= i < |d|
      ensures d[i].refs == |Holders(handles - {client}, d[i].id)|
    {
      DisconnectHolders(handles, client, d[i].id);
    }
  }

  lemma DisconnectKeepsGood(cfg: Config, s: State, client: string, order: seq<nat>)
    requires Good(cfg, s)
    ensures Good(cfg, Disconnect(s, client, order))
  {
    hide ScreenPos, DrawnRight, Flagged, FreedOnce, AllTold, Numbered, RemoveEach, WinsWithout, RefsExact,
         CacheMirrors, Positioned;
    RemoveEachKeepsGood(cfg, s, order, client);
    var t := RemoveEach(s, order, client);
    var u := Disconnect(s, client, order);
    DisconnectKeepsRefs(t, client);
    MirrorsWhateverRefs(cfg, t.cache, u.cache, t.terminal.images, t.nextImage);
    FewerUploads(cfg, t.uploads, t.handles, t.terminal.images, u.uploads, u.handles);
    DroppedLag(t, u, client);
  }

  lemma DisconnectKeepsRefs(t: State, client: string)
    requires RefsExact(t.cache, t.handles)
    ensures RefsExact(ReleasedAll(t.cache, HandlesOf(t, client)), t.handles - {client})
  {
    hide RefsExact, HandlesTo;
    if client in t.handles {
      ReleasedAllCounts(t.cache, t.handles, client);
    } else {
      NoHandles();
      assert ReleasedAll(t.cache, map[]) == t.cache && t.handles - {client} == t.handles;
    }
  }

  lemma NoHandles()
    ensures forall k :: HandlesTo(map[], k) == {}
  {
  }

  /** Only placements anchored to the dropped windows may lag. */
  lemma DroppedLag(t: State, u: State, client: string)
    requires Positioned(t) && u.placements == t.placements && u.panes == t.panes && u.size == t.size
    requires u.wins == WinsWithout(t.wins, client) && u.dropped == t.dropped + (t.wins.Keys - u.wins.Keys)
    ensures Positioned(u)
  {
    forall id | id in u.placements
      ensures UpToDate(u, u.placements[id]) || Stale(u, u.placements[id])
    {
      var p := u.placements[id];
      assert UpToDate(t, p) || Stale(t, p);
      if !Stale(u, p) {
        OtherWinsDoNotMatter(p.anchor, t.panes, t.wins, u.wins, t.size);
      }
    }
  }

  // ------------------------------------------------------------------- any run

  /** Every event, in whatever order maps are visited, keeps everything. */
  lemma StepKeepsGood(cfg: Config, s: State, e: Event, t: State)
    requires Good(cfg, s) && Next(cfg, s, e, t)
    ensures Good(cfg, t)
  {
    hide Good, Sound, Place, Remove, RemoveEach, Upload, Free, Disconnect, Redraws;
    match e
    case PlaceRequest(client, handle, anchor, look) => PlaceKeepsGood(cfg, s, client, handle, anchor, look);
    case UnplaceRequest(client, id) => RemoveKeepsGood(cfg, s, id, client);
    case UnplaceAllRequest(client) =>
      var order :| Enumerates(order, s.placements.Keys) && t == RemoveEach(s, order, client);
      RemoveEachKeepsGood(cfg, s, order, client);
    case UploadRequest(client, image) =>
      var handle :| FirstFree(HandlesOf(BeforeAssigning(cfg, s, image), client), handle)
        && t == Upload(cfg, s, client, image, handle);
      UploadKeepsGood(cfg, s, client, image, handle);
    case FreeRequest(client, handle) => FreeKeepsGood(cfg, s, client, handle);
    case ClientDisconnect(client) =>
      var order :| Enumerates(order, s.placements.Keys) && t == Disconnect(s, client, order);
      DisconnectKeepsGood(cfg, s, client, order);
    case _ => GeometryKeepsGood(cfg, s, e, t);
  }

  lemma GeometryKeepsGood(cfg: Config, s: State, e: Event, t: State)
    requires Good(cfg, s)
    requires if Regeometry(s, e).Some? then Redraws(Regeometry(s, e).value, t) else t == s
    ensures Good(cfg, t)
  {
    hide Redraws, Sound, Positioned;
    if Regeometry(s, e).Some? {
      RegeometryKeepsSound(cfg, s, e);
      RedrawKeepsGood(cfg, Regeometry(s, e).value, t);
    }
  }

  lemma {:induction false} RunsKeepGood(cfg: Config, states: seq<State>, events: seq<Event>)
    requires Runs(cfg, states, events) && Good(cfg, states[0])
    ensures forall i :: 0 <= i < |states| ==> Good(cfg, states[i])
    decreases |events|
  {
    hide Good, Next;
    if events != [] {
      var n: nat := |events| - 1;
      assert Runs(cfg, states[..n + 1], events[..n]);
      RunsKeepGood(cfg, states[..n + 1], events[..n]);
      assert states[..n + 1][n] == states[n];
      assert Next(cfg, states[n], events[n], states[n + 1]);
      StepKeepsGood(cfg, states[n], events[n], states[n + 1]);
      assert forall i :: 0 <= i < |states| ==> states[i] == if i <= n then states[..n + 1][i] else states[n + 1];
    }
  }
}
