/**
  The placement engine: one owner of all placements, handles, panes and windows,
  handling one event at a time and keeping the terminal in step.
 */
module PlacementEngine {
  import Format
  import opened Wrappers
  import opened Geometry
  import opened Screen
  import opened UploadCache
  import opened EngineState
  import opened EngineInvariants
  import opened EngineTheorems
  import opened Interpreter
  import Kitty
  import TTYOutput

  class Engine {
    const cache: Cache
    const gfx: TTYOutput.TTYGraphics
    var placements: map<nat, Placement>
    var clientImages: map<string, map<nat, nat>>
    var panes: map<string, Pane>
    var wins: map<int, Win>
    var termSize: Size
    var nextPlacement: nat
    var nextImage: nat

    ghost var terminal: Terminal
    /** The commands given to the graphics, in order. */
    ghost var issued: seq<Kitty.Command>
    ghost var evictions: multiset<(string, nat)>
    ghost var history: map<nat, seq<bool>>
    ghost var dropped: set<int>
    ghost var uploads: map<(string, nat), seq<Format.byte>>

    ghost function Cfg(): Config {
      Config(cache.maxSize, cache.hash)
    }

    ghost function Abs(): State
      reads this, cache, cache.lru
    {
      State(placements, clientImages, panes, wins, termSize, nextPlacement, nextImage, cache.Contents(), terminal,
            evictions, history, dropped, uploads)
    }

    /** The printer has been sent the issued commands, or will be with its batch, and the terminal is what they show. */
    ghost predicate InSync()
      reads this`terminal, this`issued, gfx
    {
      && gfx.Valid() && gfx.sent + gfx.queued == issued
      && WellIssued(issued) && terminal == ShowsAll(BLANK, issued)
    }

    /** Only rendered placements are shown; placement id 0 would mean all placements of an image. */
    ghost predicate InStep()
      reads this`terminal, this`issued, this`placements, this`nextPlacement, gfx
    {
      && InSync() && ShownOnly(placements, terminal)
      && forall id :: id in placements ==> 0 < id <= nextPlacement
    }

    /** Nothing waits for the end of a batch. */
    ghost predicate Idle()
      reads this`terminal, this`issued, this`placements, this`nextPlacement, gfx
    {
      InStep() && !gfx.batching
    }

    ghost predicate Valid()
      reads this, cache, cache.lru, gfx
    {
      cache.Valid() && Good(Cfg(), Abs()) && Idle()
    }

    constructor (maxSize: int, hash: seq<Format.byte> -> Digest, inTmux: bool)
      ensures Valid() && Abs() == Initial() && fresh(cache.Repr()) && fresh(gfx)
      ensures Cfg() == Config(maxSize, hash) && gfx.inTmux == inTmux
    {
      cache := new Cache(maxSize, hash);
      gfx := new TTYOutput.TTYGraphics(inTmux);
      placements, clientImages, panes, wins := map[], map[], map[], map[];
      termSize, nextPlacement, nextImage := Size(0, 0), 0, 1;
      issued := [];
      terminal, evictions, history, dropped, uploads := BLANK, multiset{}, map[], {}, map[];
      new;
      GoodInitially(Cfg());
    }

    // --------------------------------------------------------------- graphics

    /** The proof's account of a command that the printer has just taken. */
    ghost method Note(cmd: Kitty.Command)
      requires gfx.Valid() && gfx.sent + gfx.queued == issued + [cmd]
      requires WellIssued(issued) && terminal == ShowsAll(BLANK, issued) && Issuable(terminal, cmd)
      modifies this`terminal, this`issued, gfx
      ensures InSync() && terminal == Shows(old(terminal), cmd)
    {
      IssuedMore(issued, cmd);
      ShowsMore(BLANK, issued, cmd);
      terminal := Shows(terminal, cmd);
      issued := issued + [cmd];
    }

    method GfxPlace(id: nat, p: Placement)
      requires InSync() && (p.image, id) !in terminal.shown
      modifies this`terminal, this`issued, gfx
      ensures InSync() && terminal == PlacedAt(old(terminal), p.image, id, ShownAs(p))
                && gfx.batching == old(gfx.batching)
    {
      hide TTYOutput.TTYGraphics.Valid, WellIssued, ShowsAll;
      var look := p.look;
      var cmd := Kitty.Place(p.image, id, p.row, p.col, look.width, look.height, look.srcX, look.srcY, look.srcW,
                             look.srcH, look.zIndex);
      NothingQueued(gfx);
      gfx.Place(cmd);
      assert gfx.sent + gfx.queued == issued + [cmd];
      Note(cmd);
    }

    method GfxDelete(image: nat, id: nat)
      requires InSync() && id > 0
      modifies this`terminal, this`issued, gfx
      ensures InSync() && terminal == Unplaced(old(terminal), image, id) && gfx.batching == old(gfx.batching)
    {
      hide TTYOutput.TTYGraphics.Valid, WellIssued, ShowsAll;
      var cmd := Kitty.Delete(image, id, false);
      NothingQueued(gfx);
      gfx.Delete(cmd);
      assert gfx.sent + gfx.queued == issued + [cmd];
      Note(cmd);
    }

    method GfxFree(image: nat)
      requires Idle()
      modifies this`terminal, this`issued, gfx
      ensures Idle() && terminal == Freed(old(terminal), image)
    {
      hide TTYOutput.TTYGraphics.Valid, WellIssued, ShowsAll, ShownOnly, Freed;
      ShownOnlyFrees(placements, terminal, image);
      var cmd := Kitty.Delete(image, 0, true);
      NothingQueued(gfx);
      gfx.Delete(cmd);
      assert gfx.sent + gfx.queued == issued + [cmd];
      Note(cmd);
    }

    /** Uploads are not batched, so they must not come between the commands of a batch. */
    method GfxTransmit(id: nat, image: Image)
      requires Idle()
      modifies this`terminal, this`issued, gfx
      ensures Idle() && terminal == Transmitted(old(terminal), id, image)
    {
      hide TTYOutput.TTYGraphics.Valid, WellIssued, ShowsAll, ShownOnly, Transmitted;
      ShownOnlyTransmits(placements, terminal, id, image);
      var cmd := Kitty.Transmit(id, image.format, image.width, image.height, image.data);
      NothingQueued(gfx);
      gfx.Transmit(cmd);
      assert gfx.sent + gfx.queued == issued + [cmd];
      Note(cmd);
    }

    // ------------------------------------------------------------- placements

    method HandlePlace(client: string, handle: nat, anchor: Anchor, look: Look) returns (reply: PlaceReply)
      requires Idle()
      modifies this`placements, this`nextPlacement, this`terminal, this`issued, gfx, this`history
      ensures Idle()
      ensures (Abs(), reply) == Place(old(Abs()), client, handle, anchor, look)
    {
      hide ScreenPos, Snapshot, Idle;
      if client !in clientImages {
        return NoImages;
      }
      if handle !in clientImages[client] {
        return UnknownHandle;
      }
      reply := AddPlacement(client, handle, anchor, look);
    }

    method AddPlacement(client: string, handle: nat, anchor: Anchor, look: Look) returns (reply: PlaceReply)
      requires client in clientImages && handle in clientImages[client] && Idle()
      modifies this`placements, this`nextPlacement, this`terminal, this`issued, gfx, this`history
      ensures Idle()
      ensures (Abs(), reply) == Place(old(Abs()), client, handle, anchor, look)
    {
      hide ScreenPos, Snapshot, ShowsAll, PlacedAt, InSync, ShownOnly;
      var image := clientImages[client][handle];
      nextPlacement := nextPlacement + 1;
      var id := nextPlacement;
      var spot := ScreenPos(anchor, panes, wins, termSize);
      var p := Placement(client, handle, image, anchor, look, spot.row, spot.col, spot.visible, false);
      ShownOnlyPlaces(placements, terminal, id, p.(rendered := spot.visible));
      if spot.visible {
        GfxPlace(id, p);
        p := p.(rendered := true);
      }
      placements := placements[id := p];
      history := history[id := [p.visible]];
      reply := Placed(id);
    }

    method HandleUnplace(client: string, id: nat)
      requires Idle()
      modifies this`placements, this`terminal, this`issued, gfx
      ensures Idle()
      ensures Abs() == Remove(old(Abs()), id, client)
    {
      hide Snapshot, Unplaced, InSync, ShownOnly;
      if id !in placements {
        return;
      }
      var p := placements[id];
      if p.client != client {
        return;
      }
      ShownOnlyRemoves(placements, terminal, id);
      if p.rendered {
        GfxDelete(p.image, id);
      }
      placements := placements - {id};
    }

    /** handleUnplaceAll, and the first loop of handleClientDisconnect. */
    method HandleUnplaceAll(client: string) returns (ghost order: seq<nat>)
      requires Idle()
      modifies this`placements, this`terminal, this`issued, gfx
      ensures Idle()
      ensures Enumerates(order, old(placements.Keys))
      ensures Abs() == RemoveEach(old(Abs()), order, client)
    {
      hide Snapshot, Remove, Idle;
      order := [];
      var remaining := placements.Keys;
      while remaining != {}
        invariant remaining <= old(placements.Keys)
        invariant Enumerates(order, old(placements.Keys) - remaining) && Idle()
        invariant Abs() == RemoveEach(old(Abs()), order, client)
      {
        var id :| id in remaining;
        remaining := remaining - {id};
        HandleUnplace(client, id);
        assert (order + [id])[..|order|] == order;
        order := order + [id];
      }
    }

    /** One turn of the loop of recomputePlacements. */
    method RedrawPlacement(id: nat)
      requires id in placements && InStep()
      modifies this`placements, this`terminal, this`issued, gfx, this`history
      ensures InStep() && placements.Keys == old(placements.Keys) && gfx.batching == old(gfx.batching)
      ensures Abs() == RedrawOne(old(Abs()), id)
    {
      hide ScreenPos, Snapshot, Notified, ShowsAll, Refreshed, InSync, ShownOnly;
      var was := placements[id];
      var spot := ScreenPos(was.anchor, panes, wins, termSize);
      var p := was.(row := spot.row, col := spot.col, visible := spot.visible);
      ShownOnlyRefreshes(placements, terminal, id, p.(rendered := p.visible));
      var rendered := Refresh(id, was, p);
      p := p.(rendered := rendered);
      placements := placements[id := p];
      history := Notified(history, id, was.visible, spot.visible);
    }

    /** The commands for a placement that was in one place and is now in another, or hidden. */
    method Refresh(id: nat, was: Placement, p: Placement) returns (rendered: bool)
      requires id > 0 && InSync() && p.image == was.image
      requires !was.rendered ==> (p.image, id) !in terminal.shown
      modifies this`terminal, this`issued, gfx
      ensures rendered == p.visible && InSync() && gfx.batching == old(gfx.batching)
      ensures terminal == Refreshed(old(terminal), id, was, p.(rendered := rendered))
    {
      hide InSync, PlacedAt;
      rendered := was.rendered;
      if p.visible && !was.rendered {
        GfxPlace(id, p);
        rendered := true;
      } else if !p.visible && was.rendered {
        GfxDelete(p.image, id);
        rendered := false;
      } else if p.visible && was.rendered && (p.row != was.row || p.col != was.col) {
        GfxDelete(p.image, id);
        GfxPlace(id, p);
      }
    }

    method StartBatch()
      requires Idle()
      modifies gfx
      ensures InStep() && gfx.batching
    {
      hide TTYOutput.TTYGraphics.Valid, WellIssued, ShowsAll;
      NothingQueued(gfx);
      gfx.BeginBatch();
    }

    method EndBatch()
      requires InStep()
      modifies gfx
      ensures Idle()
    {
      hide TTYOutput.TTYGraphics.Valid, WellIssued, ShowsAll;
      gfx.FlushBatch();
      assert gfx.sent + gfx.queued == gfx.sent;
    }

    method RecomputePlacements()
      requires Idle()
      modifies this`placements, this`terminal, this`issued, gfx, this`history, this`dropped
      ensures Idle()
      ensures Redraws(old(Abs()), Abs())
    {
      hide Snapshot, RedrawOne, InStep, Idle, Enumerates;
      ghost var s := Abs();
      StartBatch();
      ghost var order := RedrawPlacements();
      EndBatch();
      dropped := {};
      assert Enumerates(order, s.placements.Keys) && Abs() == RedrawEach(s, order).(dropped := {});
    }

    /** The loop of recomputePlacements. */
    method RedrawPlacements() returns (ghost order: seq<nat>)
      requires InStep()
      modifies this`placements, this`terminal, this`issued, gfx, this`history
      ensures InStep() && gfx.batching == old(gfx.batching)
      ensures Enumerates(order, old(placements.Keys)) && Abs() == RedrawEach(old(Abs()), order)
    {
      hide Snapshot, RedrawOne, InStep;
      order := [];
      ghost var s := Abs();
      var remaining := placements.Keys;
      while remaining != {}
        invariant remaining <= s.placements.Keys == placements.Keys
        invariant Enumerates(order, s.placements.Keys - remaining)
        invariant InStep() && gfx.batching == old(gfx.batching)
        invariant Abs() == RedrawEach(s, order)
      {
        var id :| id in remaining;
        remaining := remaining - {id};
        RedrawPlacement(id);
        assert (order + [id])[..|order|] == order;
        order := order + [id];
      }
    }

    // ------------------------------------------------------------------ images

    /** The smallest handle the client does not use. */
    method AssignHandle(client: string, image: nat, ghost data: seq<Format.byte>) returns (handle: nat)
      modifies this`clientImages, this`uploads
      ensures FirstFree(HandlesOf(old(Abs()), client), handle)
      ensures Abs() == Assigned(old(Abs()), client, handle, image, data)
    {
      hide Snapshot;
      var images := if client in clientImages then clientImages[client] else map[];
      handle := 1;
      ghost var left := images.Keys;
      while handle in images
        invariant handle > 0 && left <= images.Keys
        invariant forall k :: 0 < k < handle ==> k in images
        invariant forall k :: k in left <==> k in images && !(0 < k < handle)
        decreases |left|
      {
        left := left - {handle};
        handle := handle + 1;
      }
      clientImages := clientImages[client := images[handle := image]];
      uploads := uploads[(client, handle) := data];
    }

    method HandleUpload(client: string, image: Image) returns (handle: nat)
      requires Valid()
      modifies this, cache.Repr(), gfx
      ensures Idle()
      ensures cache.Valid() && fresh(cache.Repr() - old(cache.Repr()))
      ensures FirstFree(HandlesOf(BeforeAssigning(Cfg(), old(Abs()), image), client), handle)
      ensures Abs() == Upload(Cfg(), old(Abs()), client, image, handle)
    {
      hide Good, Stored, EvictedBy, Snapshot, Indexed, Transmit, FirstFree, HandlesOf, Idle;
      UnknownId();
      var found := cache.Lookup(image.data);
      if found.Some? {
        handle := ShareImage(client, image, found.value);
      } else {
        var id := nextImage;
        TransmitImage(image);
        handle := AssignHandle(client, id, image.data);
      }
    }

    /** A cache hit: another handle for the image. */
    method ShareImage(client: string, image: Image, id: nat) returns (handle: nat)
      requires cache.Valid()
      requires Find(cache.Contents(), cache.hash(image.data)).Some?
      requires id == cache.Contents()[Find(cache.Contents(), cache.hash(image.data)).value].id
      modifies this`clientImages, this`uploads, cache.Repr()
      ensures cache.Valid() && fresh(cache.Repr() - old(cache.Repr()))
      ensures FirstFree(HandlesOf(old(Abs()), client), handle)
      ensures Abs() == Upload(Cfg(), old(Abs()), client, image, handle)
    {
      hide Stored, EvictedBy, Snapshot, Indexed, Transmit, FirstFree;
      handle := AssignHandle(client, id, image.data);
      var _ := cache.Store(image.data, id);
    }

    /** A fresh image: transmitted, cached, and whatever it displaces freed. */
    method TransmitImage(image: Image)
      requires cache.Valid() && nextImage !in cache.byID
      requires Find(cache.Contents(), cache.hash(image.data)).None?
      requires Idle()
      modifies this, cache.Repr(), gfx
      ensures Idle()
      ensures cache.Valid() && fresh(cache.Repr() - old(cache.Repr()))
      ensures Abs() == Transmit(Cfg(), old(Abs()), image)
    {
      hide Stored, EvictedBy, Snapshot, EvictEach, Find, Transmitted, Idle, Cache.Valid, Cache.Contents;
      var evicted := CacheImage(image);
      FreeEvicted(evicted);
    }

    method CacheImage(image: Image) returns (evicted: seq<nat>)
      requires Idle()
      requires cache.Valid() && nextImage !in cache.byID
      requires Find(cache.Contents(), cache.hash(image.data)).None?
      modifies this`nextImage, this`terminal, this`issued, gfx, cache.Repr()
      ensures Idle() && cache.Valid() && fresh(cache.Repr() - old(cache.Repr()))
      ensures var s, digest := old(Abs()), cache.hash(image.data);
              && Abs() == s.(nextImage := s.nextImage + 1,
                             terminal := Transmitted(s.terminal, s.nextImage, image),
                             cache := Stored(s.cache, digest, s.nextImage, cache.maxSize))
              && evicted == EvictedBy(s.cache, digest, cache.maxSize)
    {
      hide Stored, EvictedBy, Snapshot, Find, Transmitted, Idle, Cache.Valid, Cache.Contents;
      var id := nextImage;
      nextImage := nextImage + 1;
      GfxTransmit(id, image);
      evicted := cache.Store(image.data, id);
    }

    method FreeEvicted(evicted: seq<nat>)
      requires Idle()
      modifies this`terminal, this`issued, gfx, this`clientImages, this`evictions, this`uploads
      ensures Idle()
      ensures Abs() == EvictEach(old(Abs()), evicted)
    {
      hide Snapshot, EvictOne, Idle;
      ghost var s := Abs();
      var i := 0;
      while i < |evicted|
        invariant i <= |evicted| && Idle()
        invariant Abs() == EvictEach(s, evicted[..i])
      {
        FreeOne(evicted[i]);
        assert evicted[..i + 1][..i] == evicted[..i];
        i := i + 1;
      }
      assert evicted[..i] == evicted;
    }

    method FreeOne(image: nat)
      requires Idle()
      modifies this`terminal, this`issued, gfx, this`clientImages, this`evictions, this`uploads
      ensures Idle()
      ensures Abs() == EvictOne(old(Abs()), image)
    {
      hide Snapshot, Freed, HandlesWithout, Holders, Idle;
      GfxFree(image);
      NotifyEviction(image);
    }

    /** Image ids are never reused. */
    lemma UnknownId()
      requires Valid()
      ensures forall k :: k in cache.byID ==> k < nextImage
    {
      hide Positioned, DrawnRight, AllTold, RefsExact, UploadsKept, Idle, FreedOnce, Numbered, Flagged;
      forall k | k in cache.byID
        ensures k < nextImage
      {
        IndexedIds(cache.lru, cache.byHash, cache.byID, k);
        var i :| 0 <= i < |cache.lru| && cache.lru[i].id == k;
        assert cache.Contents()[i].id == k;
      }
    }

    /** Takes an evicted image's handles away from its holders, and tells them. */
    method NotifyEviction(image: nat)
      modifies this`clientImages, this`evictions, this`uploads
      ensures clientImages == HandlesWithout(old(clientImages), image)
      ensures evictions == old(evictions) + multiset(Holders(old(clientImages), image))
      ensures uploads == old(uploads) - Holders(old(clientImages), image)
    {
      hide Among, Holders, HandlesWithout, HandlesLeft, Without;
      ghost var before := clientImages;
      var remaining := clientImages.Keys;
      NothingLost(before, image);
      while remaining != {}
        invariant remaining <= before.Keys
        invariant clientImages == HandlesLeft(before, image, remaining)
        invariant evictions == old(evictions) + multiset(Among(before, image, before.Keys - remaining))
        invariant uploads == old(uploads)
      {
        var client :| client in remaining;
        ghost var known := remaining;
        remaining := remaining - {client};
        ClientLoses(before, image, known, client);
        NotifyClient(client, image);
      }
      AllLost(before, image);
      uploads := uploads - Holders(before, image);
    }

    method NotifyClient(client: string, image: nat)
      requires client in clientImages
      modifies this`clientImages, this`evictions
      ensures clientImages == old(clientImages)[client := Without(old(clientImages[client]), image)]
      ensures evictions == old(evictions) + multiset(LostBy(client, old(clientImages[client]), image, {}))
    {
      hide LostBy, Without, ImagesLeft;
      ghost var before, images := clientImages, clientImages[client];
      var remaining := clientImages[client].Keys;
      NoHandleGone(client, images, image);
      while remaining != {}
        invariant remaining <= images.Keys
        invariant clientImages == before[client := ImagesLeft(images, image, remaining)]
        invariant evictions == old(evictions) + multiset(LostBy(client, images, image, remaining))
      {
        var handle :| handle in remaining;
        HandleGone(client, images, image, remaining, handle);
        remaining := remaining - {handle};
        if clientImages[client][handle] == image {
          clientImages := clientImages[client := clientImages[client] - {handle}];
          evictions := evictions + multiset{(client, handle)};
        }
      }
      EveryHandleGone(images, image);
    }

    method HandleFree(client: string, handle: nat)
      requires cache.Valid()
      modifies this`clientImages, this`uploads, cache.lru
      ensures cache.Valid() && Abs() == Free(old(Abs()), client, handle)
    {
      hide Snapshot, Indexed, Released;
      if client !in clientImages || handle !in clientImages[client] {
        return;
      }
      var image := clientImages[client][handle];
      clientImages := clientImages[client := clientImages[client] - {handle}];
      uploads := uploads - {(client, handle)};
      cache.Release(image);
    }

    // ---------------------------------------------------------------- geometry

    method HandleScrollUpdate(win: int, top: int)
      requires Idle()
      modifies this`wins, this`placements, this`terminal, this`issued, gfx, this`history, this`dropped
      ensures Idle()
      ensures if win in old(wins) then Redraws(Scroll(old(Abs()), win, top), Abs()) else Abs() == old(Abs())
    {
      hide Redraws, RedrawEach, Snapshot, Idle;
      if win in wins {
        wins := wins[win := wins[win].(scrollTop := top)];
        RecomputePlacements();
      }
    }

    method HandleRegisterWin(win: int, geometry: Win)
      requires Idle()
      modifies this`wins, this`placements, this`terminal, this`issued, gfx, this`history, this`dropped
      ensures Idle()
      ensures Redraws(old(Abs()).(wins := old(wins)[win := geometry]), Abs())
    {
      hide Redraws, RedrawEach, Snapshot, Idle;
      wins := wins[win := geometry];
      RecomputePlacements();
    }

    method HandleUnregisterWin(win: int)
      requires Idle()
      modifies this`wins, this`placements, this`terminal, this`issued, gfx, this`history, this`dropped
      ensures Idle()
      ensures Redraws(old(Abs()).(wins := old(wins) - {win}), Abs())
    {
      hide Redraws, RedrawEach, Snapshot, Idle;
      wins := wins - {win};
      RecomputePlacements();
    }

    method HandleUpdatePanes(list: seq<(string, Pane)>)
      requires Idle()
      modifies this`panes, this`placements, this`terminal, this`issued, gfx, this`history, this`dropped
      ensures Idle()
      ensures Redraws(old(Abs()).(panes := PaneMap(list)), Abs())
    {
      hide Redraws, RedrawEach, Snapshot, Idle;
      panes := map[];
      var i := 0;
      while i < |list|
        invariant i <= |list| && Idle() && Abs() == old(Abs()).(panes := PaneMap(list[..i]))
      {
        assert list[..i + 1][..i] == list[..i];
        panes := panes[list[i].0 := list[i].1];
        i := i + 1;
      }
      assert list[..i] == list;
      RecomputePlacements();
    }

    method Resize(size: Size)
      requires Idle()
      modifies this`termSize, this`placements, this`terminal, this`issued, gfx, this`history, this`dropped
      ensures Idle()
      ensures Redraws(old(Abs()).(size := size), Abs())
    {
      hide Redraws, RedrawEach, Snapshot, Idle;
      termSize := size;
      RecomputePlacements();
    }

    // -------------------------------------------------------------- disconnect

    method HandleClientDisconnect(client: string) returns (ghost order: seq<nat>)
      requires cache.Valid()
      requires Idle()
      modifies this, cache.lru, gfx
      ensures Idle()
      ensures cache.Valid() && Enumerates(order, old(placements.Keys))
      ensures Abs() == Disconnect(old(Abs()), client, order)
    {
      hide Snapshot, Indexed, ReleasedAll, RemoveEach, WinsWithout, Enumerates, HandlesOf, Idle;
      order := HandleUnplaceAll(client);
      ForgetClient(client);
    }

    /** The handles, references and windows of a client that has left. */
    method ForgetClient(client: string)
      requires cache.Valid()
      modifies this`clientImages, this`wins, this`dropped, this`uploads, cache.lru
      ensures cache.Valid() && cache.Contents() == ReleasedAll(old(cache.Contents()), HandlesOf(old(Abs()), client))
      ensures clientImages == old(clientImages) - {client}
      ensures uploads == map k | k in old(uploads) && k.0 != client :: old(uploads)[k]
      ensures wins == WinsWithout(old(wins), client)
      ensures dropped == old(dropped) + (old(wins).Keys - WinsWithout(old(wins), client).Keys)
    {
      hide Snapshot, Indexed, ReleasedAll, WinsWithout, HandlesOf;
      ReleaseImages(client);
      clientImages := clientImages - {client};
      uploads := map k | k in uploads && k.0 != client :: uploads[k];
      dropped := dropped + (wins.Keys - WinsWithout(wins, client).Keys);
      DropWins(client);
    }

    method ReleaseImages(client: string)
      requires cache.Valid()
      modifies cache.lru
      ensures cache.Valid() && cache.Contents() == ReleasedAll(old(cache.Contents()), HandlesOf(old(Abs()), client))
    {
      hide Snapshot, Indexed, ReleasedAll;
      NothingReleased(cache.Contents());
      if client in clientImages {
        ReleaseAll(clientImages[client]);
      }
    }

    method ReleaseAll(images: map<nat, nat>)
      requires cache.Valid()
      modifies cache.lru
      ensures cache.Valid() && cache.Contents() == ReleasedAll(old(cache.Contents()), images)
    {
      hide Snapshot, Indexed, ReleasedAll, Released, Except;
      ghost var c := cache.Contents();
      var remaining := images.Keys;
      NothingReleased(c);
      ExceptEnds(images);
      while remaining != {}
        invariant remaining <= images.Keys && cache.Valid()
        invariant cache.Contents() == ReleasedAll(c, Except(images, remaining))
      {
        var handle :| handle in remaining;
        ReleasedOneMore(c, images, remaining, handle);
        remaining := remaining - {handle};
        cache.Release(images[handle]);
      }
    }

    method DropWins(client: string)
      modifies this`wins
      ensures wins == WinsWithout(old(wins), client)
    {
      hide WinsLeft, WinsWithout;
      ghost var before := wins;
      var remaining := wins.Items;
      WinsLeftEnds(before, client);
      while remaining != {}
        invariant remaining <= before.Items
        invariant wins == WinsLeft(before, client, remaining)
      {
        var item :| item in remaining;
        WinDropped(before, client, remaining, item);
        remaining := remaining - {item};
        if item.1.client == client {
          wins := wins - {item.0};
        }
      }
    }

    // ------------------------------------------------------------------ events

    method Handle(ev: Event)
      requires Valid()
      modifies this, cache.Repr(), gfx
      ensures Valid() && fresh(cache.Repr() - old(cache.Repr()))
      ensures Next(Cfg(), old(Abs()), ev, Abs())
    {
      hide Good, Snapshot, Indexed, Next;
      if ChangesGeometry(ev) || ev.Query? {
        HandleGeometry(ev);
      } else {
        HandleRequest(ev);
      }
      StepKeepsGood(Cfg(), old(Abs()), ev, Abs());
    }

    method HandleGeometry(ev: Event)
      requires ChangesGeometry(ev) || ev.Query?
      requires Idle()
      modifies this`panes, this`wins, this`termSize, this`placements, this`terminal, this`issued, gfx, this`history,
               this`dropped
      ensures Idle()
      ensures Next(Cfg(), old(Abs()), ev, Abs())
    {
      hide Redraws, PaneMap, Snapshot, Idle, Scroll, Cache.Contents;
      match ev {
        case ScrollUpdate(win, top) => HandleScrollUpdate(win, top);
        case RegisterWin(win, geometry) => HandleRegisterWin(win, geometry);
        case UnregisterWin(win) => HandleUnregisterWin(win);
        case UpdatePanes(list) => HandleUpdatePanes(list);
        case Resize(size) => Resize(size);
        case Query =>
      }
    }

    method HandleRequest(ev: Event)
      requires Valid()
      requires !ChangesGeometry(ev) && !ev.Query?
      modifies this, cache.Repr(), gfx
      ensures Idle()
      ensures cache.Valid() && fresh(cache.Repr() - old(cache.Repr()))
      ensures Next(Cfg(), old(Abs()), ev, Abs())
    {
      hide Good, Place, Remove, RemoveEach, Upload, Free, Disconnect, BeforeAssigning, HandlesOf, Snapshot,
           Indexed, Enumerates, FirstFree, Idle;
      assert forall e :: e in cache.lru ==> e in cache.Repr();
      match ev {
        case PlaceRequest(client, handle, anchor, look) => var _ := HandlePlace(client, handle, anchor, look);
        case UnplaceRequest(client, id) => HandleUnplace(client, id);
        case UnplaceAllRequest(client) => ghost var order := HandleUnplaceAll(client);
        case UploadRequest(client, image) => var _ := HandleUpload(client, image);
        case FreeRequest(client, handle) => HandleFree(client, handle);
        case ClientDisconnect(client) => ghost var order := HandleClientDisconnect(client);
      }
    }

    /** Any run of events, and what a terminal makes of everything written by then. */
    method HandleAll(events: seq<Event>) returns (ghost states: seq<State>)
      requires Valid()
      modifies this, cache.Repr(), gfx
      ensures Valid()
      ensures Runs(Cfg(), states, events) && states[0] == old(Abs()) && states[|events|] == Abs()
      ensures Interpreted(gfx, OnWire(terminal))
    {
      hide Valid, Idle, Interpreted, Abs, Cfg, Next, Runs;
      states := [Abs()];
      NoRunYet(Cfg(), states);
      var i := 0;
      while i < |events|
        invariant i <= |events| && Valid() && fresh(cache.Repr() - old(cache.Repr()))
        invariant |states| == i + 1 && Runs(Cfg(), states, events[..i]) && states[0] == old(Abs()) && states[i] == Abs()
      {
        Handle(events[i]);
        RunMore(Cfg(), states, events[..i], events[i], Abs());
        assert events[..i + 1] == events[..i] + [events[i]];
        states := states + [Abs()];
        i := i + 1;
      }
      assert events[..i] == events;
      ValidIsIdle();
      ScreenShowsEngine(this);
    }

    lemma ValidIsIdle()
      requires Valid()
      ensures Idle()
    {
    }

    /** Any run, and then the shutdown: nothing stays on the screen, and no image anybody holds. */
    method Run(events: seq<Event>) returns (ghost states: seq<State>)
      requires Valid()
      modifies this, cache.Repr(), gfx
      ensures Runs(Cfg(), states, events) && states[0] == old(Abs())
      ensures Interpreted(gfx, OnWire(terminal)) && terminal.shown == map[]
      ensures forall k :: k in terminal.images ==> !Referenced(clientImages, k)
    {
      states := HandleAll(events);
      hide Interpreted, Good, Next, Snapshot, Indexed, Runs, CleansUp;
      ghost var s := Abs();
      ghost var order, images := CleanupRenderedPlacements();
      CleanupLeavesUnheldImages(Cfg(), s, order, images);
      ScreenShowsEngine(this);
    }

    // ---------------------------------------------------------------- shutdown

    method CleanupRenderedPlacements() returns (ghost order: seq<nat>, ghost images: seq<nat>)
      requires Idle()
      modifies this`terminal, this`issued, gfx
      ensures Idle()
      ensures CleansUp(old(Abs()), order, images)
      ensures Abs() == CleanedUp(old(Abs()), order, images)
    {
      hide Idle;
      order := ErasePlacements();
      images := FreeImages();
    }

    method ErasePlacements() returns (ghost order: seq<nat>)
      requires Idle()
      modifies this`terminal, this`issued, gfx
      ensures Idle()
      ensures Enumerates(order, placements.Keys)
      ensures terminal == EraseEach(old(terminal), placements, order)
    {
      hide InSync;
      order := [];
      var remaining := placements.Keys;
      while remaining != {}
        invariant remaining <= placements.Keys
        invariant Enumerates(order, placements.Keys - remaining) && Idle()
        invariant terminal == EraseEach(old(terminal), placements, order)
      {
        var id :| id in remaining;
        remaining := remaining - {id};
        if placements[id].rendered {
          GfxDelete(placements[id].image, id);
        }
        assert (order + [id])[..|order|] == order;
        order := order + [id];
      }
    }

    /** The ids freed so far: those of the clients visited, each once. */
    ghost predicate FreedSoFar(images: seq<nat>, freed: set<nat>, visited: set<(string, nat)>)
      reads this`clientImages
    {
      && (forall i :: i in images <==> i in freed)
      && (forall i, j :: 0 <= i < j < |images| ==> images[i] != images[j])
      && (forall i :: i in freed ==> Referenced(clientImages, i))
      && (forall c, h :: c in clientImages && h in clientImages[c] && (c, h) in visited ==> clientImages[c][h] in freed)
    }

    method FreeImages() returns (ghost images: seq<nat>)
      requires Idle()
      modifies this`terminal, this`issued, gfx
      ensures Idle()
      ensures forall i :: i in images <==> Referenced(clientImages, i)
      ensures forall i, j :: 0 <= i < j < |images| ==> images[i] != images[j]
      ensures terminal == FreeEach(old(terminal), images)
    {
      images := [];
      var freed: set<nat> := {};
      var remaining := clientImages.Keys;
      ghost var visited := {};
      while remaining != {}
        invariant remaining <= clientImages.Keys
        invariant FreedSoFar(images, freed, visited) && Idle()
        invariant forall c, h :: c in clientImages && h in clientImages[c] && c !in remaining ==> (c, h) in visited
        invariant terminal == FreeEach(old(terminal), images)
      {
        var client :| client in remaining;
        images, freed, visited := FreeImagesOf(client, images, freed, visited, old(terminal));
        remaining := remaining - {client};
      }
    }

    method FreeImagesOf(client: string, ghost before: seq<nat>, known: set<nat>, ghost seen: set<(string, nat)>,
                        ghost start: Terminal)
      returns (ghost images: seq<nat>, freed: set<nat>, ghost visited: set<(string, nat)>)
      requires client in clientImages && FreedSoFar(before, known, seen) && terminal == FreeEach(start, before)
      requires Idle()
      modifies this`terminal, this`issued, gfx
      ensures Idle()
      ensures FreedSoFar(images, freed, visited) && terminal == FreeEach(start, images)
      ensures seen <= visited && forall h :: h in clientImages[client] ==> (client, h) in visited
    {
      hide FreedSoFar, Idle, Freed;
      images, freed, visited := before, known, seen;
      var handles := clientImages[client].Keys;
      while handles != {}
        invariant handles <= clientImages[client].Keys && seen <= visited
        invariant Idle() && FreedSoFar(images, freed, visited) && terminal == FreeEach(start, images)
        invariant forall h :: h in clientImages[client] && h !in handles ==> (client, h) in visited
      {
        var handle :| handle in handles;
        handles := handles - {handle};
        var image := clientImages[client][handle];
        FreedOneMore(images, freed, visited, client, handle);
        visited := visited + {(client, handle)};
        if image !in freed {
          GfxFree(image);
          freed := freed + {image};
          assert (images + [image])[..|images|] == images;
          images := images + [image];
        }
      }
    }

    lemma FreedOneMore(images: seq<nat>, freed: set<nat>, visited: set<(string, nat)>, client: string, handle: nat)
      requires FreedSoFar(images, freed, visited) && client in clientImages && handle in clientImages[client]
      ensures var image := clientImages[client][handle];
              var more := visited + {(client, handle)};
              if image in freed then FreedSoFar(images, freed, more)
                else FreedSoFar(images + [image], freed + {image}, more)
    {
      assert Referenced(clientImages, clientImages[client][handle]);
    }
  }

  /** What a terminal shows that interprets everything the engine has had written, plain or through tmux. */
  ghost predicate Interpreted(gfx: TTYOutput.TTYGraphics, screen: Terminal)
    reads gfx
  {
    var passed := TTYOutput.Passed(gfx.inTmux, Joined(gfx.writes));
    passed.Some? && Kitty.Parse(passed.value).Some? && screen == ShowsAll(BLANK, Kitty.Parse(passed.value).value)
  }

  /** Outside a batch, that is what the engine believes it shows, but for what it placed off the screen. */
  lemma ScreenShowsEngine(engine: Engine)
    requires engine.Idle()
    ensures Interpreted(engine.gfx, OnWire(engine.terminal))
  {
    hide Kitty.Parse, TTYOutput.Passed, OnWire, ShowsAll;
    NothingQueued(engine.gfx);
    assert engine.gfx.sent + [] == engine.gfx.sent;
    WrittenIsShown(engine.gfx);
  }

  lemma NothingQueued(gfx: TTYOutput.TTYGraphics)
    requires gfx.Valid()
    ensures !gfx.batching ==> gfx.queued == []
  {
  }

  // ------------------------------------------------------- what may be shown

  ghost predicate ShownOnly(placements: map<nat, Placement>, t: Terminal) {
    forall k :: k in t.shown ==>
      k.1 in placements && placements[k.1].rendered && placements[k.1].image == k.0
  }

  lemma ShownOnlyPlaces(placements: map<nat, Placement>, t: Terminal, id: nat, p: Placement)
    requires ShownOnly(placements, t) && id !in placements && p.rendered == p.visible
    ensures (p.image, id) !in t.shown
    ensures ShownOnly(placements[id := p], if p.visible then PlacedAt(t, p.image, id, ShownAs(p)) else t)
  {
  }

  lemma ShownOnlyRemoves(placements: map<nat, Placement>, t: Terminal, id: nat)
    requires ShownOnly(placements, t) && id in placements
    ensures var p := placements[id]; ShownOnly(placements - {id}, if p.rendered then Unplaced(t, p.image, id) else t)
  {
  }

  lemma ShownOnlyRefreshes(placements: map<nat, Placement>, t: Terminal, id: nat, now: Placement)
    requires ShownOnly(placements, t) && id in placements
    requires now.image == placements[id].image && now.rendered == now.visible
    ensures !placements[id].rendered ==> (now.image, id) !in t.shown
    ensures ShownOnly(placements[id := now], Refreshed(t, id, placements[id], now))
  {
  }

  lemma ShownOnlyFrees(placements: map<nat, Placement>, t: Terminal, image: nat)
    requires ShownOnly(placements, t)
    ensures ShownOnly(placements, Freed(t, image))
  {
  }

  lemma ShownOnlyTransmits(placements: map<nat, Placement>, t: Terminal, id: nat, image: Image)
    requires ShownOnly(placements, t)
    ensures ShownOnly(placements, Transmitted(t, id, image))
  {
  }

  predicate ChangesGeometry(ev: Event) {
    ev.ScrollUpdate? || ev.RegisterWin? || ev.UnregisterWin? || ev.UpdatePanes? || ev.Resize?
  }

  // ----------------------------------------------------------- steps of the loops

  /** The holders of an image among some clients. */
  ghost function Among(handles: map<string, map<nat, nat>>, image: nat, clients: set<string>): set<(string, nat)> {
    set c, h | c in handles && c in clients && h in handles[c] && handles[c][h] == image :: (c, h)
  }

  /** The clients' handles while some clients have yet to lose theirs. */
  ghost function HandlesLeft(handles: map<string, map<nat, nat>>, image: nat, remaining: set<string>): map<string,
                             map<nat, nat>> {
    map c | c in handles :: if c in remaining then handles[c] else Without(handles[c], image)
  }

  /** A client's handles for an image, but for those yet to be visited. */
  ghost function LostBy(client: string, images: map<nat, nat>, image: nat, remaining: set<nat>): set<(string, nat)> {
    set h | h in images && h !in remaining && images[h] == image :: (client, h)
  }

  ghost function ImagesLeft(images: map<nat, nat>, image: nat, remaining: set<nat>): map<nat, nat> {
    map h | h in images && (h in remaining || images[h] != image) :: images[h]
  }

  lemma NothingLost(handles: map<string, map<nat, nat>>, image: nat)
    ensures HandlesLeft(handles, image, handles.Keys) == handles
    ensures Among(handles, image, handles.Keys - handles.Keys) == {}
  {
  }

  lemma ClientLoses(handles: map<string, map<nat, nat>>, image: nat, remaining: set<string>, client: string)
    requires client in remaining && remaining <= handles.Keys
    ensures var left := HandlesLeft(handles, image, remaining);
            && client in left && left[client] == handles[client]
            && HandlesLeft(handles, image, remaining - {client}) == left[client := Without(handles[client], image)]
    ensures multiset(Among(handles, image, handles.Keys - (remaining - {client})))
            == multiset(Among(handles, image, handles.Keys - remaining)) + multiset(LostBy(client, handles[client],
              image, {}))
  {
    hide Without;
    var before := Among(handles, image, handles.Keys - remaining);
    var more := LostBy(client, handles[client], image, {});
    assert before !! more;
    assert Among(handles, image, handles.Keys - (remaining - {client})) == before + more;
  }

  lemma AllLost(handles: map<string, map<nat, nat>>, image: nat)
    ensures HandlesLeft(handles, image, {}) == HandlesWithout(handles, image)
    ensures Among(handles, image, handles.Keys - {}) == Holders(handles, image)
  {
  }

  lemma NoHandleGone(client: string, images: map<nat, nat>, image: nat)
    ensures ImagesLeft(images, image, images.Keys) == images
    ensures LostBy(client, images, image, images.Keys) == {}
  {
  }

  lemma HandleGone(client: string, images: map<nat, nat>, image: nat, remaining: set<nat>, handle: nat)
    requires handle in remaining && remaining <= images.Keys
    ensures var left, later := ImagesLeft(images, image, remaining), ImagesLeft(images, image, remaining - {handle});
            && handle in left && left[handle] == images[handle]
            && later == if images[handle] == image then left - {handle} else left
    ensures var lost, later := LostBy(client, images, image, remaining), LostBy(client, images, image,
              remaining - {handle});
            multiset(later) == multiset(lost) + if images[handle] == image then multiset{(client, handle)}
              else multiset{}
  {
    var lost, later := LostBy(client, images, image, remaining), LostBy(client, images, image, remaining - {handle});
    assert (client, handle) !in lost;
    assert later == lost + if images[handle] == image then {(client, handle)} else {};
  }

  lemma EveryHandleGone(images: map<nat, nat>, image: nat)
    ensures ImagesLeft(images, image, {}) == Without(images, image)
  {
  }

  /** The windows while some are yet to be visited. */
  ghost function WinsLeft(wins: map<int, Win>, client: string, remaining: set<(int, Win)>): map<int, Win> {
    map w | w in wins && ((w, wins[w]) in remaining || wins[w].client != client) :: wins[w]
  }

  lemma WinsLeftEnds(wins: map<int, Win>, client: string)
    ensures WinsLeft(wins, client, wins.Items) == wins
    ensures WinsLeft(wins, client, {}) == WinsWithout(wins, client)
  {
  }

  lemma WinDropped(wins: map<int, Win>, client: string, remaining: set<(int, Win)>, item: (int, Win))
    requires item in remaining && remaining <= wins.Items
    ensures var left := WinsLeft(wins, client, remaining);
            WinsLeft(wins, client, remaining - {item}) == if item.1.client == client then left - {item.0} else left
  {
  }

  lemma NoRunYet(cfg: Config, states: seq<State>)
    requires |states| == 1
    ensures Runs(cfg, states, [])
  {
  }

  lemma RunMore(cfg: Config, states: seq<State>, events: seq<Event>, e: Event, t: State)
    requires Runs(cfg, states, events) && Next(cfg, states[|events|], e, t)
    ensures Runs(cfg, states + [t], events + [e])
  {
    hide Next;
  }

  ghost function Except(images: map<nat, nat>, remaining: set<nat>): map<nat, nat> {
    map h | h in images && h !in remaining :: images[h]
  }

  lemma ExceptEnds(images: map<nat, nat>)
    ensures Except(images, images.Keys) == map[] && Except(images, {}) == images
  {
  }

  lemma NothingReleased(c: seq<Held>)
    ensures ReleasedAll(c, map[]) == c
  {
    NoHandles();
  }

  lemma ReleasedOneMore(c: seq<Held>, images: map<nat, nat>, remaining: set<nat>, handle: nat)
    requires handle in remaining && remaining <= images.Keys
    ensures Released(ReleasedAll(c, Except(images, remaining)), images[handle])
            == ReleasedAll(c, Except(images, remaining - {handle}))
  {
    hide HandlesTo;
    var gone, later := Except(images, remaining), Except(images, remaining - {handle});
    forall i | 0 <= i < |c|
      ensures Released(ReleasedAll(c, gone), images[handle])[i] == ReleasedAll(c, later)[i]
    {
      OneMoreHandle(images, remaining, handle, c[i].id);
    }
  }

  lemma OneMoreHandle(images: map<nat, nat>, remaining: set<nat>, handle: nat, image: nat)
    requires handle in remaining && remaining <= images.Keys
    ensures |HandlesTo(Except(images, remaining - {handle}), image)|
            == |HandlesTo(Except(images, remaining), image)| + if images[handle] == image then 1 else 0
  {
    var before, after := HandlesTo(Except(images, remaining), image), HandlesTo(Except(images,
      remaining - {handle}), image);
    assert handle !in before;
    assert after == before + if images[handle] == image then {handle} else {};
  }
}
