/**
  What the engine's invariants mean to those who watch the terminal, hold handles
  or listen to notifications, over every run.
 */
module EngineTheorems {
  import opened Wrappers
  import opened Geometry
  import opened Screen
  import opened UploadCache
  import opened EngineState
  import opened EngineInvariants

  // ------------------------------------------------------------------- redraw

  predicate Belongs(s: State, id: nat) {
    id in s.placements && SpotOf(s, s.placements[id]).visible && s.placements[id].image in s.terminal.images
  }

  /** The screen drawn from scratch: every visible placement of a cached image, where it is now. */
  function FullRedraw(s: State): map<(nat, nat), Shown> {
    map id | id in s.placements && Belongs(s, id) ::
      (s.placements[id].image, id) := Shown(SpotOf(s, s.placements[id]).row, SpotOf(s, s.placements[id]).col,
        s.placements[id].look)
  }

  /** Still on the screen although its window is gone. */
  predicate Lags(s: State, id: nat) {
    id in s.placements && Stale(s, s.placements[id]) && s.placements[id].visible
      && s.placements[id].image in s.terminal.images
  }

  lemma FullRedrawAt(s: State, k: (nat, nat))
    ensures k in FullRedraw(s) <==> Belongs(s, k.1) && s.placements[k.1].image == k.0
    ensures k in FullRedraw(s) ==>
              FullRedraw(s)[k] == Shown(SpotOf(s, s.placements[k.1]).row, SpotOf(s, s.placements[k.1]).col,
                s.placements[k.1].look)
  {
    hide ScreenPos;
  }

  /** A placement whose window was dropped belongs nowhere. */
  lemma StaleIsHidden(s: State, p: Placement)
    requires Positioned(s) && Stale(s, p)
    ensures !SpotOf(s, p).visible
  {
  }

  /** The terminal shows what a full redraw would show, exactly when nothing lags. */
  lemma IncrementalIsFull(cfg: Config, s: State)
    requires Good(cfg, s)
    ensures s.terminal.shown == FullRedraw(s) <==> forall id :: !Lags(s, id)
  {
    hide ScreenPos, SpotOf, FullRedraw, Belongs, DrawnAt, AllTold, CacheMirrors, RefsExact, UploadsKept, Numbered,
         FreedOnce;
    if forall id :: !Lags(s, id) {
      forall k: (nat, nat)
        ensures k in s.terminal.shown <==> k in FullRedraw(s)
        ensures k in s.terminal.shown ==> s.terminal.shown[k] == FullRedraw(s)[k]
      {
        ShownOrLagging(cfg, s, k);
      }
      assert s.terminal.shown == FullRedraw(s);
    } else {
      var id :| Lags(s, id);
      ShownOrLagging(cfg, s, (s.placements[id].image, id));
    }
  }

  lemma ShownOrLagging(cfg: Config, s: State, k: (nat, nat))
    requires Good(cfg, s)
    ensures Lags(s, k.1) && s.placements[k.1].image == k.0 ==> k in s.terminal.shown && k !in FullRedraw(s)
    ensures !Lags(s, k.1) ==> (k in s.terminal.shown <==> k in FullRedraw(s))
    ensures !Lags(s, k.1) && k in s.terminal.shown ==> s.terminal.shown[k] == FullRedraw(s)[k]
  {
    hide ScreenPos, FullRedraw, AllTold, CacheMirrors, RefsExact, UploadsKept, Numbered, FreedOnce, SpotOf;
    FullRedrawAt(s, k);
    assert DrawnAt(s.placements, s.terminal, k);
    if k.1 in s.placements && Stale(s, s.placements[k.1]) {
      StaleIsHidden(s, s.placements[k.1]);
    }
  }

  /** Over any run, the terminal is up to date after every event that redraws. */
  lemma RedrawnIsFull(cfg: Config, states: seq<State>, events: seq<Event>, i: nat)
    requires Runs(cfg, states, events) && states[0] == Initial() && i < |events|
    requires Regeometry(states[i], events[i]).Some?
    ensures states[i + 1].terminal.shown == FullRedraw(states[i + 1])
  {
    hide Good, FullRedraw, RedrawEach, Regeometry;
    GoodInitially(cfg);
    RunsKeepGood(cfg, states, events);
    assert Next(cfg, states[i], events[i], states[i + 1]);
    assert states[i + 1].dropped == {} by { RedrawClearsDropped(cfg, states[i], events[i], states[i + 1]); }
    IncrementalIsFull(cfg, states[i + 1]);
  }

  /**
    Over any run, what such an event leaves on the screen is at the cell that holds what it
    is anchored to, and that cell lies inside the terminal or the pane.
   */
  lemma ShownIsInside(cfg: Config, states: seq<State>, events: seq<Event>, i: nat, k: (nat, nat))
    requires Runs(cfg, states, events) && states[0] == Initial() && i < |events|
    requires Regeometry(states[i], events[i]).Some? && k in states[i + 1].terminal.shown
    ensures var s := states[i + 1];
            && k.1 in s.placements
            && var shown := s.terminal.shown[k];
               && CellHolds(s.placements[k.1].anchor, s.panes, s.wins, s.size, shown.row, shown.col)
               && InsideAnchor(s.placements[k.1].anchor, s.panes, s.wins, s.size, shown.row, shown.col)
  {
    hide Next, FullRedraw, ScreenPos, InsideAnchor, CellHolds, Regeometry;
    RedrawnIsFull(cfg, states, events, i);
    var s := states[i + 1];
    FullRedrawAt(s, k);
    VisibleIsInside(s.placements[k.1].anchor, s.panes, s.wins, s.size);
    VisibleIffHeld(s.placements[k.1].anchor, s.panes, s.wins, s.size, s.terminal.shown[k].row,
                   s.terminal.shown[k].col);
  }

  lemma RedrawClearsDropped(cfg: Config, s: State, e: Event, t: State)
    requires Next(cfg, s, e, t) && Regeometry(s, e).Some?
    ensures t.dropped == {}
  {
    hide RedrawEach, Enumerates;
  }

  /** A placement anchored to a window of a client that disconnects stays on the screen until the next redraw. */
  lemma DisconnectLeavesLag(cfg: Config, s: State, client: string, order: seq<nat>, id: nat)
    requires Good(cfg, s) && Enumerates(order, s.placements.Keys)
    requires id in s.placements && s.placements[id].client != client && s.placements[id].visible
    requires s.placements[id].image in s.terminal.images
    requires s.placements[id].anchor.InWin? && s.placements[id].anchor.win in s.wins
    ensures var win := s.placements[id].anchor.win;
            s.wins[win].client == client <==> Lags(Disconnect(s, client, order), id)
  {
    hide ScreenPos, RemoveEach, Good;
    assert Positioned(s) by { GoodIsPositioned(cfg, s); }
    RemoveEachKeepsGood(cfg, s, order, client);
  }

  /** The events of a run that leaves a placement of "b" at a window "a" has taken with it. */
  function LagRun(image: Image, look: Look): seq<Event> {
    [UploadRequest("b", image), RegisterWin(7, Win("a", "", 0, 0, 10, 10, 0)),
     PlaceRequest("b", 1, InWin(7, 0, 0), look), ClientDisconnect("a")]
  }

  /** The lag is real: such a run leaves the placement on a screen where a full redraw would not show it. */
  lemma DisconnectLagIsReachable(cfg: Config, image: Image, look: Look) returns (states: seq<State>)
    ensures Runs(cfg, states, LagRun(image, look)) && states[0] == Initial()
    ensures Lags(states[4], 1) && states[4].terminal.shown != FullRedraw(states[4])
  {
    hide Good, FullRedraw, Upload, Place, Disconnect, Next, Lags;
    var win := Win("a", "", 0, 0, 10, 10, 0);
    var s1 := Upload(cfg, Initial(), "b", image, 1);
    var s2 := s1.(wins := map[7 := win]);
    var s3 := Place(s2, "b", 1, InWin(7, 0, 0), look).0;
    var s4 := Disconnect(s3, "a", [1]);
    states := [Initial(), s1, s2, s3, s4];
    FirstUpload(cfg, "b", image);
    FirstWindow(cfg, s1, 7, win);
    PlacedAtWindow(cfg, s2, "b", 7, look);
    ClientLeaves(cfg, s3, s4);
    RunsOfFour(cfg, states, LagRun(image, look));
    GoodInitially(cfg);
    RunsKeepGood(cfg, states, LagRun(image, look));
    IncrementalIsFull(cfg, s4);
  }

  lemma RunsOfFour(cfg: Config, states: seq<State>, events: seq<Event>)
    requires |states| == 5 && |events| == 4
    requires Next(cfg, states[0], events[0], states[1]) && Next(cfg, states[1], events[1], states[2])
    requires Next(cfg, states[2], events[2], states[3]) && Next(cfg, states[3], events[3], states[4])
    ensures Runs(cfg, states, events)
  {
    hide Next;
  }

  lemma FirstUpload(cfg: Config, client: string, image: Image)
    ensures var s := Upload(cfg, Initial(), client, image, 1);
            && Next(cfg, Initial(), UploadRequest(client, image), s)
            && s == Initial().(nextImage := 2, cache := [Held(cfg.hash(image.data), 1, 1)],
               handles := map[client := map[1 := 1]],
                               terminal := BLANK.(images := map[1 := image]), uploads := map[(client, 1) := image.data])
  {
    assert FirstFree(HandlesOf(BeforeAssigning(cfg, Initial(), image), client), 1);
  }

  lemma FirstWindow(cfg: Config, s: State, id: int, win: Win)
    requires s.placements == map[] && s.wins == map[] && s.dropped == {}
    ensures Next(cfg, s, RegisterWin(id, win), s.(wins := map[id := win]))
  {
    var t := s.(wins := map[id := win]);
    assert Enumerates([], t.placements.Keys) && t == RedrawEach(t, []).(dropped := {});
    assert s.wins[id := win] == t.wins;
  }

  lemma PlacedAtWindow(cfg: Config, s: State, client: string, id: int, look: Look)
    requires client in s.handles && s.handles[client] == map[1 := 1] && s.placements == map[] && s.nextPlacement == 0
    requires id in s.wins && s.wins[id].pane == "" && s.wins[id].height > 0 && s.wins[id].scrollTop == 0
    ensures var t := Place(s, client, 1, InWin(id, 0, 0), look).0;
            && Next(cfg, s, PlaceRequest(client, 1, InWin(id, 0, 0), look), t)
            && t.placements.Keys == {1} && t.placements[1].client == client && t.placements[1].visible
            && t.placements[1].image == 1 && t.placements[1].anchor == InWin(id, 0, 0)
            && t == s.(nextPlacement := 1, placements := t.placements, terminal := t.terminal, history := t.history)
            && t.terminal.images == s.terminal.images
  {
  }

  lemma ClientLeaves(cfg: Config, s: State, t: State)
    requires s.placements.Keys == {1} && s.placements[1].client == "b" && s.placements[1].visible
    requires s.placements[1].image in s.terminal.images && s.placements[1].anchor == InWin(7, 0, 0)
    requires s.wins.Keys == {7} && s.wins[7].client == "a"
    requires t == Disconnect(s, "a", [1])
    ensures Next(cfg, s, ClientDisconnect("a"), t) && Lags(t, 1)
  {
    assert Enumerates([1], s.placements.Keys);
    assert [1][..0] == [];
    assert RemoveEach(s, [1], "a") == Remove(RemoveEach(s, [], "a"), 1, "a") == s;
    assert 7 in s.wins.Keys && 7 !in WinsWithout(s.wins, "a");
  }

  lemma GoodIsPositioned(cfg: Config, s: State)
    requires Good(cfg, s)
    ensures Positioned(s)
  {
  }

  // ------------------------------------------------------------------ evictions

  /** An eviction never takes an image away from someone who holds a handle for it. */
  lemma EvictionsFindNoHandle(cfg: Config, s: State, digest: Digest)
    requires Good(cfg, s)
    ensures forall id :: id in EvictedBy(s.cache, digest, cfg.maxSize) ==> !Referenced(s.handles, id)
  {
    hide ScreenPos, DrawnRight, Victims;
    VictimsAreUnheld(s.cache, cfg.maxSize, s.handles);
    forall id | id in EvictedBy(s.cache, digest, cfg.maxSize)
      ensures !Referenced(s.handles, id)
    {
      var k :| 0 <= k < |Victims(s.cache, cfg.maxSize)| && Victims(s.cache, cfg.maxSize)[k] == id;
      HeldIsReferenced(s.handles, id);
    }
  }

  /** Over any run nobody is told of an eviction, and no image is freed twice. */
  lemma NobodyIsEvicted(cfg: Config, states: seq<State>, events: seq<Event>)
    requires Runs(cfg, states, events) && states[0] == Initial()
    ensures forall i :: 0 <= i < |states| ==> states[i].evictions == multiset{}
    ensures forall i, k :: 0 <= i < |states| && k in states[i].terminal.freed ==> states[i].terminal.freed[k] == 1
  {
    hide Runs;
    GoodInitially(cfg);
    RunsKeepGood(cfg, states, events);
    forall i | 0 <= i < |states|
      ensures states[i].evictions == multiset{}
      ensures forall k :: k in states[i].terminal.freed ==> states[i].terminal.freed[k] == 1
    {
      EvictionsStayEmpty(cfg, states[i]);
    }
  }

  lemma EvictionsStayEmpty(cfg: Config, s: State)
    requires Good(cfg, s)
    ensures s.evictions == multiset{}
    ensures forall k :: k in s.terminal.freed ==> s.terminal.freed[k] == 1
  {
    hide Positioned, DrawnRight, AllTold, CacheMirrors, RefsExact, UploadsKept;
  }

  /** Who uploaded what in a run. */
  ghost function UploadedIn(events: seq<Event>): set<(string, Image)> {
    set i | 0 <= i < |events| && events[i].UploadRequest? :: (events[i].client, events[i].image)
  }

  /** The terminal has nothing but images uploaded just so, and handles were given for bytes of the client's own. */
  ghost predicate OnlyFrom(s: State, given: set<(string, Image)>) {
    && (forall k :: k in s.terminal.images ==> exists g :: g in given && g.1 == s.terminal.images[k])
    && (forall k :: k in s.uploads ==> exists g :: g in given && g.0 == k.0 && g.1.data == s.uploads[k])
  }

  lemma UploadOnlyFrom(cfg: Config, s: State, client: string, image: Image, handle: nat,
                       given: set<(string, Image)>)
    requires Good(cfg, s) && OnlyFrom(s, given) && (client, image) in given
    ensures OnlyFrom(Upload(cfg, s, client, image, handle), given)
  {
    hide DrawnAt, AllTold, UploadsKept, Positioned, FreeEach, Kept, Victims, Transmitted, Numbered, Flagged;
    if Find(s.cache, cfg.hash(image.data)).None? {
      TransmitIs(cfg, s, image);
      MissImages(cfg, s, image, Transmit(cfg, s, image).terminal);
    }
  }

  /** The same images, and no handle that was not given before. */
  lemma NothingNew(s: State, t: State, given: set<(string, Image)>)
    requires OnlyFrom(s, given) && t.terminal.images == s.terminal.images
    requires forall k :: k in t.uploads ==> k in s.uploads && t.uploads[k] == s.uploads[k]
    ensures OnlyFrom(t, given)
  {
  }

  lemma StepOnlyFrom(cfg: Config, s: State, e: Event, t: State, given: set<(string, Image)>)
    requires Good(cfg, s) && Next(cfg, s, e, t) && OnlyFrom(s, given)
    requires e.UploadRequest? ==> (e.client, e.image) in given
    ensures OnlyFrom(t, given)
  {
    hide ScreenPos, RemoveEach, Redraws, Upload, Good, BeforeAssigning, HandlesOf, ReleasedAll, WinsWithout, Enumerates,
         FirstFree, OnlyFrom, Place, Remove, Free;
    match e
    case UploadRequest(client, image) =>
      var handle :| FirstFree(HandlesOf(BeforeAssigning(cfg, s, image), client), handle)
                    && t == Upload(cfg, s, client, image, handle);
      UploadOnlyFrom(cfg, s, client, image, handle, given);
    case UnplaceAllRequest(client) =>
      var order :| Enumerates(order, s.placements.Keys) && t == RemoveEach(s, order, client);
      RemoveEachKeepsGood(cfg, s, order, client);
      NothingNew(s, t, given);
    case ClientDisconnect(client) =>
      var order :| Enumerates(order, s.placements.Keys) && t == Disconnect(s, client, order);
      RemoveEachKeepsGood(cfg, s, order, client);
      NothingNew(s, t, given);
    case PlaceRequest(_, _, _, _) => RequestOnlyFrom(cfg, s, e, t, given);
    case UnplaceRequest(client, id) => RequestOnlyFrom(cfg, s, e, t, given);
    case FreeRequest(_, _) => RequestOnlyFrom(cfg, s, e, t, given);
    case _ => RedrawOnlyFrom(cfg, s, e, t, given);
  }

  lemma RequestOnlyFrom(cfg: Config, s: State, e: Event, t: State, given: set<(string, Image)>)
    requires OnlyFrom(s, given) && Next(cfg, s, e, t) && (e.PlaceRequest? || e.UnplaceRequest? || e.FreeRequest?)
    ensures OnlyFrom(t, given)
  {
    hide ScreenPos, OnlyFrom, Resolved, Unplaced, Released;
    UnplacedKeepsImages(s.terminal);
    NothingNew(s, t, given);
  }

  lemma UnplacedKeepsImages(t: Terminal)
    ensures forall image, id :: Unplaced(t, image, id).images == t.images
  {
  }

  lemma RedrawOnlyFrom(cfg: Config, s: State, e: Event, t: State, given: set<(string, Image)>)
    requires Good(cfg, s) && OnlyFrom(s, given)
    requires if Regeometry(s, e).Some? then Redraws(Regeometry(s, e).value, t) else t == s
    ensures OnlyFrom(t, given)
  {
    hide ScreenPos, RedrawEach, DrawnRight, AllTold, PaneMap, OnlyFrom, Positioned, CacheMirrors, RefsExact,
         UploadsKept,
         Numbered, FreedOnce, Flagged;
    if Regeometry(s, e).Some? {
      var u := Regeometry(s, e).value;
      var order :| Enumerates(order, u.placements.Keys) && t == RedrawEach(u, order).(dropped := {});
      RedrawEachIs(u, order);
      NothingNew(s, t, given);
    }
  }

  lemma {:induction false} RunsOnlyFrom(cfg: Config, states: seq<State>, events: seq<Event>,
                                        given: set<(string, Image)>, i: nat)
    requires Runs(cfg, states, events) && states[0] == Initial() && i < |states|
    requires forall k :: 0 <= k < |states| ==> Good(cfg, states[k])
    requires forall k :: 0 <= k < i && events[k].UploadRequest? ==> (events[k].client, events[k].image) in given
    ensures OnlyFrom(states[i], given)
  {
    hide Good, Next;
    if i > 0 {
      RunsOnlyFrom(cfg, states, events, given, i - 1);
      assert Next(cfg, states[i - 1], events[i - 1], states[i - 1 + 1]);
      StepOnlyFrom(cfg, states[i - 1], events[i - 1], states[i], given);
    }
  }

  ghost predicate TellsApart(cfg: Config, given: set<(string, Image)>) {
    forall a, b :: a in given && b in given && cfg.hash(a.1.data) == cfg.hash(b.1.data) ==> a.1.data == b.1.data
  }

  /**
    Over every run whose uploads the hash tells apart, each handle names an image in
    the terminal with exactly the bytes its client uploaded, in a format and size that
    somebody gave for them.
   */
  lemma HandlesNameTheirBytes(cfg: Config, states: seq<State>, events: seq<Event>, i: nat, client: string, handle: nat)
    requires Runs(cfg, states, events) && states[0] == Initial() && i < |states|
    requires TellsApart(cfg, UploadedIn(events[..i]))
    requires client in states[i].handles && handle in states[i].handles[client]
    ensures var s := states[i];
            && (client, handle) in s.uploads && s.handles[client][handle] in s.terminal.images
            && var image := s.terminal.images[s.handles[client][handle]];
               && image.data == s.uploads[(client, handle)]
               && (exists g :: g in UploadedIn(events[..i]) && g.0 == client && g.1.data == image.data)
               && exists g :: g in UploadedIn(events[..i]) && g.1 == image
  {
    GoodInitially(cfg);
    RunsKeepGood(cfg, states, events);
    hide Runs, Positioned, DrawnRight, AllTold, CacheMirrors, RefsExact, Next;
    var given := UploadedIn(events[..i]);
    forall k | 0 <= k < i && events[k].UploadRequest?
      ensures (events[k].client, events[k].image) in given
    {
      assert events[..i][k] == events[k];
    }
    RunsOnlyFrom(cfg, states, events, given, i);
    assert Good(cfg, states[i]);
  }

  // -------------------------------------------------------------- notifications

  /** What a client last heard about a placement, or its visibility at creation, is the truth. */
  lemma NotificationsTellTheTruth(cfg: Config, states: seq<State>, events: seq<Event>, i: nat, id: nat)
    requires Runs(cfg, states, events) && states[0] == Initial() && i < |states|
    requires id in states[i].placements
    ensures id in states[i].history && Told(states[i].history[id], states[i].placements[id].visible)
  {
    hide Runs;
    GoodInitially(cfg);
    RunsKeepGood(cfg, states, events);
    hide Positioned, DrawnRight, Told, CacheMirrors, RefsExact;
    assert Good(cfg, states[i]);
  }

  // ------------------------------------------------------------------- shutdown

  /** What erasing the rendered placements comes to, in any order. */
  lemma {:induction false} EraseEachIs(t: Terminal, placements: map<nat, Placement>, order: seq<nat>)
    requires DrawnRight(placements, t)
    ensures var r := EraseEach(t, placements, order);
            && r.images == t.images && r.freed == t.freed
            && forall k :: k in r.shown <==> k in t.shown && k.1 !in order
  {
    if order != [] {
      var front, last := order[..|order| - 1], order[|order| - 1];
      EraseEachIs(t, placements, front);
      forall k | k in t.shown && k.1 == last
        ensures last in placements && placements[last].rendered && k == (placements[last].image, last)
      {
        assert DrawnAt(placements, t, k);
      }
      assert order == front + [last];
    }
  }

  /**
    Shutdown erases every placement and frees every image with a handle, once; what
    is left are the cached images nobody holds a handle for.
   */
  lemma CleanupLeavesUnheldImages(cfg: Config, s: State, order: seq<nat>, images: seq<nat>)
    requires Good(cfg, s) && CleansUp(s, order, images)
    ensures var t := CleanedUp(s, order, images).terminal;
            && t.shown == map[]
            && (forall k :: k in t.images <==> k in Ids(s.cache) && !Referenced(s.handles, k))
            && (forall k :: k in images ==> t.freed[k] == 1)
            && (forall k :: k !in images ==> t.freed[k] == s.terminal.freed[k])
  {
    hide Positioned, AllTold, UploadsKept, Ids, EraseEach, FreeEach, DrawnAt, Referenced, Holders;
    EraseEachIs(s.terminal, s.placements, order);
    var mid := EraseEach(s.terminal, s.placements, order);
    var t := CleanedUp(s, order, images).terminal;
    FreeEachIs(mid, images);
    VictimsCountOnce(images);
    forall k | k in mid.shown
      ensures false
    {
      ShownIsPlaced(s.placements, s.terminal, k);
    }
    ReferencedIsCached(cfg, s);
    var freeing: multiset<nat> := multiset(images);
    assert forall k :: t.freed[k] == s.terminal.freed[k] + freeing[k];
  }

  lemma ShownIsPlaced(placements: map<nat, Placement>, t: Terminal, k: (nat, nat))
    requires DrawnRight(placements, t) && k in t.shown
    ensures k.1 in placements
  {
    assert DrawnAt(placements, t, k);
  }

  lemma ReferencedIsCached(cfg: Config, s: State)
    requires Good(cfg, s)
    ensures forall k :: Referenced(s.handles, k) ==> k in Ids(s.cache) && s.terminal.freed[k] == 0
  {
    hide Positioned, DrawnRight, AllTold, UploadsKept, Ids;
  }

  /** Shutdown leaves no image behind exactly when every cached image is held. */
  lemma CleanupIsCompleteIffAllHeld(cfg: Config, s: State, order: seq<nat>, images: seq<nat>)
    requires Good(cfg, s) && CleansUp(s, order, images)
    ensures CleanedUp(s, order, images).terminal.images == map[] <==> forall i :: 0 <= i < |s.cache| ==>
              s.cache[i].refs > 0
  {
    CleanupLeavesUnheldImages(cfg, s, order, images);
    var t := CleanedUp(s, order, images).terminal;
    hide Positioned, DrawnRight, AllTold, UploadsKept, CleanedUp;
    forall i | 0 <= i < |s.cache|
      ensures s.cache[i].refs > 0 <==> s.cache[i].id !in t.images
    {
      HeldIsReferenced(s.handles, s.cache[i].id);
      assert s.cache[i].id in Ids(s.cache);
    }
    if forall i :: 0 <= i < |s.cache| ==> s.cache[i].refs > 0 {
      assert t.images.Keys == {};
    }
  }

  lemma HeldIsReferenced(handles: map<string, map<nat, nat>>, image: nat)
    ensures |Holders(handles, image)| > 0 <==> Referenced(handles, image)
  {
    if Referenced(handles, image) {
      var c, h :| c in handles && h in handles[c] && handles[c][h] == image;
      assert (c, h) in Holders(handles, image);
    }
    if |Holders(handles, image)| > 0 {
      var k :| k in Holders(handles, image);
      assert k.0 in handles && k.1 in handles[k.0] && handles[k.0][k.1] == image;
    }
  }

  /** Upload, free, shut down: the image stays in the terminal. */
  lemma FreedImageOutlivesShutdown(cfg: Config, client: string, image: Image)
    ensures var s := Upload(cfg, Initial(), client, image, 1);
            var t := Free(s, client, 1);
            && Next(cfg, Initial(), UploadRequest(client, image), s)
            && Next(cfg, s, FreeRequest(client, 1), t)
            && CleansUp(t, [], []) && CleanedUp(t, [], []).terminal.images == map[1 := image]
  {
    var s := Upload(cfg, Initial(), client, image, 1);
    assert FirstFree(HandlesOf(BeforeAssigning(cfg, Initial(), image), client), 1);
    var t := Free(s, client, 1);
    assert forall k :: !Referenced(t.handles, k);
  }
}
