/**
  What the engine's state owes to the events: who asked for each placement, who took it
  away, which handles were given, and where the panes and windows come from.
 */
module EngineRequests {
  import opened Wrappers
  import opened Geometry
  import opened Screen
  import opened UploadCache
  import opened EngineState
  import opened EngineInvariants

  // ------------------------------------------------------------------ placements

  /** A request that is granted: the client has images, and the handle is one of them. */
  predicate Grants(s: State, e: Event, id: nat) {
    e.PlaceRequest? && e.client in s.handles && e.handle in s.handles[e.client] && id == s.nextPlacement + 1
  }

  /** Only the client that owns a placement removes it, by name, with all its others, or by leaving. */
  predicate Takes(e: Event, id: nat, owner: string) {
    || (e.UnplaceRequest? && e.id == id && e.client == owner)
    || (e.UnplaceAllRequest? && e.client == owner)
    || (e.ClientDisconnect? && e.client == owner)
  }

  /** A placement has all that was asked for, and the image that the handle named then. */
  predicate AsRequested(s: State, e: Event, p: Placement) {
    && e.PlaceRequest? && p.client == e.client && p.handle == e.handle && p.anchor == e.anchor && p.look == e.look
    && p.client in s.handles && p.handle in s.handles[p.client] && p.image == s.handles[p.client][p.handle]
  }

  /** The part of a placement that nothing changes. */
  predicate SameRequest(p: Placement, q: Placement) {
    p.client == q.client && p.handle == q.handle && p.image == q.image && p.anchor == q.anchor && p.look == q.look
  }

  /** A place request is answered with the new placement, or refused and nothing changes. */
  lemma PlaceAdds(s: State, client: string, handle: nat, anchor: Anchor, look: Look)
    ensures var (t, reply) := Place(s, client, handle, anchor, look);
            var e := PlaceRequest(client, handle, anchor, look);
            && (client !in s.handles ==> reply == NoImages)
            && (client in s.handles && handle !in s.handles[client] ==> reply == UnknownHandle)
            && (!reply.Placed? ==> t == s)
            && (reply.Placed? <==> client in s.handles && handle in s.handles[client])
            && (reply.Placed? ==>
                  && reply.id == s.nextPlacement + 1 == t.nextPlacement
                  && t.placements.Keys == s.placements.Keys + {reply.id}
                  && AsRequested(s, e, t.placements[reply.id])
                  && forall id :: id in s.placements && id != reply.id ==> t.placements[id] == s.placements[id])
  {
    hide ScreenPos;
  }

  // ------------------------------------------------------- one event at a time

  predicate SameWorld(s: State, t: State) {
    t.panes == s.panes && t.wins == s.wins && t.size == s.size
  }

  /** The placements that stay, unchanged, are those not taken; no number is used up. */
  ghost predicate OnlyTaken(s: State, e: Event, t: State) {
    && t.nextPlacement == s.nextPlacement
    && forall id :: (id in t.placements <==> id in s.placements && !Takes(e, id, s.placements[id].client))
         && (id in t.placements ==> t.placements[id] == s.placements[id])
  }

  lemma RemoveIs(s: State, id: nat, client: string)
    ensures var t := Remove(s, id, client);
            OnlyTaken(s, UnplaceRequest(client, id), t) && SameWorld(s, t) && t.handles == s.handles
  {
  }

  lemma RemoveAllIs(cfg: Config, s: State, order: seq<nat>, client: string)
    requires Good(cfg, s) && Enumerates(order, s.placements.Keys)
    ensures var t := RemoveEach(s, order, client);
            OnlyTaken(s, UnplaceAllRequest(client), t) && SameWorld(s, t) && t.handles == s.handles
  {
    hide Good, RemoveEach;
    RemoveEachKeepsGood(cfg, s, order, client);
  }

  lemma DisconnectIs(cfg: Config, s: State, client: string, order: seq<nat>)
    requires Good(cfg, s) && Enumerates(order, s.placements.Keys)
    ensures var t := Disconnect(s, client, order);
            && OnlyTaken(s, ClientDisconnect(client), t)
            && t.handles == s.handles - {client} && t.panes == s.panes && t.size == s.size
            && t.wins == WinsWithout(s.wins, client)
  {
    hide Good, RemoveEach, ReleasedAll, HandlesOf, WinsWithout;
    RemoveEachKeepsGood(cfg, s, order, client);
  }

  lemma FreeIs(s: State, client: string, handle: nat)
    ensures var t := Free(s, client, handle);
            && OnlyTaken(s, FreeRequest(client, handle), t) && SameWorld(s, t)
            && t.handles == if client in s.handles then s.handles[client := s.handles[client] - {handle}] else s.handles
  {
    hide Released;
    if client in s.handles && handle !in s.handles[client] {
      assert s.handles[client] - {handle} == s.handles[client];
      assert s.handles[client := s.handles[client]] == s.handles;
    }
  }

  /** A placement is there after an event if it was there and not taken away, or has just been granted. */
  lemma StepPlacements(cfg: Config, s: State, e: Event, t: State, id: nat)
    requires Good(cfg, s) && Next(cfg, s, e, t)
    ensures id in t.placements <==>
              (id in s.placements && !Takes(e, id, s.placements[id].client)) || Grants(s, e, id)
    ensures id in t.placements && id in s.placements ==> SameRequest(t.placements[id], s.placements[id])
    ensures Grants(s, e, id) ==> id !in s.placements && AsRequested(s, e, t.placements[id])
    ensures t.nextPlacement >= s.nextPlacement
    ensures Grants(s, e, id) ==> t.nextPlacement == id
  {
    hide RemoveEach, Upload, Place, Good, BeforeAssigning, HandlesOf, Enumerates, FirstFree, Remove, Free, Disconnect,
         Redraws;
    NumbersBelow(cfg, s);
    match e
    case PlaceRequest(client, handle, anchor, look) =>
      PlaceAdds(s, client, handle, anchor, look);
    case UploadRequest(client, image) =>
      var handle :| FirstFree(HandlesOf(BeforeAssigning(cfg, s, image), client), handle)
                    && t == Upload(cfg, s, client, image, handle);
      UploadPlacesNothing(cfg, s, client, image, handle);
    case UnplaceAllRequest(client) =>
      var order :| Enumerates(order, s.placements.Keys) && t == RemoveEach(s, order, client);
      RemoveAllIs(cfg, s, order, client);
    case ClientDisconnect(client) =>
      var order :| Enumerates(order, s.placements.Keys) && t == Disconnect(s, client, order);
      DisconnectIs(cfg, s, client, order);
    case UnplaceRequest(client, one) => RemoveIs(s, one, client);
    case FreeRequest(client, handle) => FreeIs(s, client, handle);
    case _ => RedrawKeepsRequests(cfg, s, e, t, id);
  }

  lemma NumbersBelow(cfg: Config, s: State)
    requires Good(cfg, s)
    ensures forall id :: id in s.placements ==> id <= s.nextPlacement
  {
    hide Positioned, DrawnRight, AllTold, CacheMirrors, RefsExact, UploadsKept, FreedOnce;
  }

  lemma UploadPlacesNothing(cfg: Config, s: State, client: string, image: Image, handle: nat)
    requires Good(cfg, s)
    ensures var t := Upload(cfg, s, client, image, handle);
            t.placements == s.placements && t.nextPlacement == s.nextPlacement && SameWorld(s, t)
  {
    hide Good, FreeEach, Stored, Victims, Transmitted;
    if Find(s.cache, cfg.hash(image.data)).None? {
      TransmitIs(cfg, s, image);
    }
  }

  lemma RedrawKeepsRequests(cfg: Config, s: State, e: Event, t: State, id: nat)
    requires Good(cfg, s)
    requires if Regeometry(s, e).Some? then Redraws(Regeometry(s, e).value, t) else t == s
    ensures t.placements.Keys == s.placements.Keys && t.nextPlacement == s.nextPlacement
    ensures id in s.placements ==> SameRequest(t.placements[id], s.placements[id])
  {
    if Regeometry(s, e).Some? {
      RedrawIs(cfg, s, e, t);
    }
  }

  /** A redraw changes where placements are, and nothing of what decides that. */
  lemma RedrawIs(cfg: Config, s: State, e: Event, t: State)
    requires Good(cfg, s) && Regeometry(s, e).Some? && Redraws(Regeometry(s, e).value, t)
    ensures var u := Regeometry(s, e).value;
            && t == u.(placements := t.placements, terminal := t.terminal, history := t.history, dropped := {})
            && t.placements.Keys == s.placements.Keys
            && forall id :: id in s.placements ==> t.placements[id] == Resolved(u, s.placements[id])
  {
    hide ScreenPos, RedrawEach, DrawnRight, AllTold, PaneMap;
    var u := Regeometry(s, e).value;
    var order :| Enumerates(order, u.placements.Keys) && t == RedrawEach(u, order).(dropped := {});
    RedrawEachIs(u, order);
  }

  // ------------------------------------------------------ placements over a run

  /** Granted at j, and not taken away by its owner between j and i. */
  ghost predicate GrantedAndKept(states: seq<State>, events: seq<Event>, j: nat, i: nat, id: nat, p: Placement)
    requires j < i <= |events| < |states|
  {
    && Grants(states[j], events[j], id) && AsRequested(states[j], events[j], p)
    && forall k :: j < k < i ==> !Takes(events[k], id, p.client)
  }

  /** Over every run, the placements are the granted requests that their own clients have not taken away since. */
  lemma {:induction false} PlacementsAreRequests(cfg: Config, states: seq<State>, events: seq<Event>, i: nat, id: nat)
    requires Runs(cfg, states, events) && states[0] == Initial() && i < |states|
    ensures id in states[i].placements ==>
              exists j :: 0 <= j < i && GrantedAndKept(states, events, j, i, id, states[i].placements[id])
    ensures forall j, p :: 0 <= j < i && GrantedAndKept(states, events, j, i, id, p) ==>
              id in states[i].placements && SameRequest(states[i].placements[id], p)
    ensures forall j :: 0 <= j < i && Grants(states[j], events[j], id) ==> id <= states[i].nextPlacement
    decreases i
  {
    hide Good, Next, Grants, Takes, AsRequested;
    if i > 0 {
      var n: nat := i - 1;
      GoodInitially(cfg);
      RunsKeepGood(cfg, states, events);
      PlacementsAreRequests(cfg, states, events, n, id);
      assert Next(cfg, states[n], events[n], states[n + 1]);
      StepPlacements(cfg, states[n], events[n], states[i], id);
      CameFromRequest(states, events, n, i, id);
      IsStillThere(states, events, n, i, id);
      GrantsAhead(states[n], events[n], id);
    }
  }

  lemma GrantsAhead(s: State, e: Event, id: nat)
    ensures Grants(s, e, id) ==> id == s.nextPlacement + 1
  {
  }

  lemma CameFromRequest(states: seq<State>, events: seq<Event>, n: nat, i: nat, id: nat)
    requires n + 1 == i <= |events| < |states|
    requires id in states[n].placements ==>
               exists j :: 0 <= j < n && GrantedAndKept(states, events, j, n, id, states[n].placements[id])
    requires id in states[i].placements ==>
               || (id in states[n].placements && !Takes(events[n], id, states[n].placements[id].client)
                   && SameRequest(states[i].placements[id], states[n].placements[id]))
               || (Grants(states[n], events[n], id) && AsRequested(states[n], events[n], states[i].placements[id]))
    ensures id in states[i].placements ==>
              exists j :: 0 <= j < i && GrantedAndKept(states, events, j, i, id, states[i].placements[id])
  {
    hide Grants, Takes;
    if id in states[i].placements {
      if Grants(states[n], events[n], id) && AsRequested(states[n], events[n], states[i].placements[id]) {
        assert GrantedAndKept(states, events, n, i, id, states[i].placements[id]);
      } else {
        var j :| 0 <= j < n && GrantedAndKept(states, events, j, n, id, states[n].placements[id]);
        assert GrantedAndKept(states, events, j, i, id, states[i].placements[id]);
      }
    }
  }

  lemma IsStillThere(states: seq<State>, events: seq<Event>, n: nat, i: nat, id: nat)
    requires n + 1 == i <= |events| < |states|
    requires forall j, p :: 0 <= j < n && GrantedAndKept(states, events, j, n, id, p) ==>
               id in states[n].placements && SameRequest(states[n].placements[id], p)
    requires id in states[n].placements && !Takes(events[n], id, states[n].placements[id].client) ==>
               id in states[i].placements && SameRequest(states[i].placements[id], states[n].placements[id])
    requires Grants(states[n], events[n], id) ==>
               id in states[i].placements && AsRequested(states[n], events[n], states[i].placements[id])
    ensures forall j, p :: 0 <= j < i && GrantedAndKept(states, events, j, i, id, p) ==>
              id in states[i].placements && SameRequest(states[i].placements[id], p)
  {
    hide Grants, Takes;
    forall j, p | 0 <= j < i && GrantedAndKept(states, events, j, i, id, p)
      ensures id in states[i].placements && SameRequest(states[i].placements[id], p)
    {
      if j < n {
        assert GrantedAndKept(states, events, j, n, id, p);
      }
    }
  }

  /** Over every run, whatever is on the screen looks as some client asked, with the image its handle named then. */
  lemma ShownAsRequested(cfg: Config, states: seq<State>, events: seq<Event>, i: nat, k: (nat, nat)) returns (j: nat)
    requires Runs(cfg, states, events) && states[0] == Initial() && i < |states|
    requires k in states[i].terminal.shown
    ensures j < i && events[j].PlaceRequest? && states[i].terminal.shown[k].look == events[j].look
    ensures events[j].client in states[j].handles && events[j].handle in states[j].handles[events[j].client]
    ensures k == (states[j].handles[events[j].client][events[j].handle], states[j].nextPlacement + 1)
  {
    hide Good, Next;
    GoodInitially(cfg);
    RunsKeepGood(cfg, states, events);
    ShownIsPlacement(cfg, states[i], k);
    PlacementsAreRequests(cfg, states, events, i, k.1);
    j :| 0 <= j < i && GrantedAndKept(states, events, j, i, k.1, states[i].placements[k.1]);
  }

  lemma ShownIsPlacement(cfg: Config, s: State, k: (nat, nat))
    requires Good(cfg, s) && k in s.terminal.shown
    ensures k.1 in s.placements && s.placements[k.1].image == k.0
    ensures var p, shown := s.placements[k.1], s.terminal.shown[k];
            shown.row == p.row && shown.col == p.col && shown.look == p.look
  {
    hide Positioned, AllTold, CacheMirrors, RefsExact, UploadsKept, FreedOnce, Numbered;
    assert DrawnAt(s.placements, s.terminal, k);
  }

  // --------------------------------------------------------------------- handles

  /** A new handle is the smallest positive number the client does not use. */
  predicate Smallest(used: map<nat, nat>, handle: nat) {
    1 <= handle && handle !in used && forall k :: 1 <= k < handle ==> k in used
  }

  /** The client has one handle more, for an image that the terminal has. */
  predicate Given(before: map<string, map<nat, nat>>, t: State, client: string, used: map<nat, nat>, handle: nat,
                  image: nat) {
    t.handles == before[client := used[handle := image]] && image in t.terminal.images
  }

  /** What an event does to the handles: an upload gives one, freeing or leaving takes, and nothing else does either. */
  lemma StepHandles(cfg: Config, s: State, e: Event, t: State)
    requires Good(cfg, s) && Next(cfg, s, e, t)
    ensures e.UploadRequest? ==>
              var used := if e.client in s.handles then s.handles[e.client] else map[];
              exists h: nat, image: nat :: Smallest(used, h) && Given(s.handles, t, e.client, used, h, image)
                && cfg.hash(t.terminal.images[image].data) == cfg.hash(e.image.data)
    ensures e.FreeRequest? ==>
              t.handles == if e.client in s.handles then s.handles[e.client := s.handles[e.client] - {e.handle}]
                           else s.handles
    ensures e.ClientDisconnect? ==> t.handles == s.handles - {e.client}
    ensures !e.UploadRequest? && !e.FreeRequest? && !e.ClientDisconnect? ==> t.handles == s.handles
  {
    hide RemoveEach, Upload, Place, Good, BeforeAssigning, HandlesOf, Enumerates, FirstFree, Remove, Free, Disconnect,
         Redraws, Smallest, Given, OnlyTaken;
    match e
    case PlaceRequest(client, handle, anchor, look) => PlaceKeepsHandles(s, client, handle, anchor, look);
    case UploadRequest(client, image) =>
      var handle :| FirstFree(HandlesOf(BeforeAssigning(cfg, s, image), client), handle)
                    && t == Upload(cfg, s, client, image, handle);
      UploadGivesHandle(cfg, s, client, image, handle);
    case UnplaceAllRequest(client) =>
      var order :| Enumerates(order, s.placements.Keys) && t == RemoveEach(s, order, client);
      RemoveAllIs(cfg, s, order, client);
    case ClientDisconnect(client) =>
      var order :| Enumerates(order, s.placements.Keys) && t == Disconnect(s, client, order);
      DisconnectIs(cfg, s, client, order);
    case UnplaceRequest(client, one) => RemoveIs(s, one, client);
    case FreeRequest(client, handle) => FreeIs(s, client, handle);
    case _ => RedrawKeepsHandles(cfg, s, e, t);
  }

  lemma RedrawKeepsHandles(cfg: Config, s: State, e: Event, t: State)
    requires Good(cfg, s)
    requires if Regeometry(s, e).Some? then Redraws(Regeometry(s, e).value, t) else t == s
    ensures t.handles == s.handles
  {
    if Regeometry(s, e).Some? {
      RedrawIs(cfg, s, e, t);
    }
  }

  lemma PlaceKeepsHandles(s: State, client: string, handle: nat, anchor: Anchor, look: Look)
    ensures var t := Place(s, client, handle, anchor, look).0;
            t.handles == s.handles && SameWorld(s, t)
  {
    hide ScreenPos;
  }

  lemma UploadGivesHandle(cfg: Config, s: State, client: string, image: Image, handle: nat)
    requires Good(cfg, s) && FirstFree(HandlesOf(BeforeAssigning(cfg, s, image), client), handle)
    ensures var t := Upload(cfg, s, client, image, handle);
            var used := if client in s.handles then s.handles[client] else map[];
            Smallest(used, handle) &&
            exists id: nat :: Given(s.handles, t, client, used, handle, id)
              && cfg.hash(t.terminal.images[id].data) == cfg.hash(image.data)
  {
    var used := HandlesOf(s, client);
    var t := Upload(cfg, s, client, image, handle);
    if Find(s.cache, cfg.hash(image.data)).Some? {
      HitNames(cfg, s, image);
      var id := s.cache[Find(s.cache, cfg.hash(image.data)).value].id;
      assert Given(s.handles, t, client, used, handle, id);
    } else {
      hide Good, FreeEach, Victims, Transmitted, Stored;
      TransmitIs(cfg, s, image);
      MissIsThere(cfg, s, image);
      assert Given(s.handles, t, client, used, handle, s.nextImage);
    }
  }

  lemma HitNames(cfg: Config, s: State, image: Image)
    requires Good(cfg, s) && Find(s.cache, cfg.hash(image.data)).Some?
    ensures var id := s.cache[Find(s.cache, cfg.hash(image.data)).value].id;
            id in s.terminal.images && cfg.hash(s.terminal.images[id].data) == cfg.hash(image.data)
  {
    hide Positioned, DrawnRight, AllTold, RefsExact, UploadsKept, FreedOnce, Numbered;
    InIds(s.cache, Find(s.cache, cfg.hash(image.data)).value);
  }

  lemma MissIsThere(cfg: Config, s: State, image: Image)
    requires Good(cfg, s) && Find(s.cache, cfg.hash(image.data)).None?
    ensures var t := Transmit(cfg, s, image);
            s.nextImage in t.terminal.images && t.terminal.images[s.nextImage] == image
  {
    hide DrawnAt, AllTold, UploadsKept, Positioned, FreeEach, Kept, Victims, Transmitted, Numbered, Flagged;
    TransmitIs(cfg, s, image);
    MissImages(cfg, s, image, Transmit(cfg, s, image).terminal);
  }

  /** The same bytes are transmitted once: whoever uploads them again gets the image as it was first sized. */
  lemma SecondUploadSharesFirst(cfg: Config, s: State, client: string, image: Image, handle: nat)
    requires Good(cfg, s) && Find(s.cache, cfg.hash(image.data)).Some?
    ensures Upload(cfg, s, client, image, handle).terminal == s.terminal
  {
    hide Good;
  }

  // ------------------------------------------------------------ panes and windows

  /** The last entry for id in the list is p. */
  ghost predicate LastEntry(list: seq<(string, Pane)>, id: string, p: Pane) {
    exists k :: 0 <= k < |list| && list[k] == (id, p) && forall j :: k < j < |list| ==> list[j].0 != id
  }

  lemma {:induction false} PaneMapIs(list: seq<(string, Pane)>, id: string, p: Pane)
    ensures id in PaneMap(list) && PaneMap(list)[id] == p <==> LastEntry(list, id, p)
    decreases |list|
  {
    if list != [] {
      var n: nat := |list| - 1;
      var front := list[..n];
      PaneMapIs(front, id, p);
      if list[n].0 == id {
        assert list[n] == (id, p) ==> LastEntry(list, id, p);
      } else {
        if LastEntry(front, id, p) {
          var k :| 0 <= k < n && front[k] == (id, p) && forall j :: k < j < n ==> front[j].0 != id;
          assert list[k] == (id, p) && forall j :: k < j < |list| ==> list[j].0 != id;
        }
        if LastEntry(list, id, p) {
          var k :| 0 <= k < |list| && list[k] == (id, p) && forall j :: k < j < |list| ==> list[j].0 != id;
          assert front[k] == (id, p) && forall j :: k < j < n ==> front[j].0 != id;
        }
      }
    }
  }

  /** What an event does to the windows. */
  ghost predicate WinsMove(before: map<int, Win>, e: Event, after: map<int, Win>) {
    match e
    case ScrollUpdate(win, top) =>
      && after.Keys == before.Keys
      && (forall w :: w in before && w != win ==> after[w] == before[w])
      && (win in before ==>
            && after[win].scrollTop == top
            && after[win].(scrollTop := before[win].scrollTop) == before[win])
    case RegisterWin(win, geometry) =>
      && after.Keys == before.Keys + {win} && after[win] == geometry
      && forall w :: w in before && w != win ==> after[w] == before[w]
    case UnregisterWin(win) =>
      && after.Keys == before.Keys - {win}
      && forall w :: w in after ==> after[w] == before[w]
    case ClientDisconnect(client) =>
      && (forall w :: w in after <==> w in before && before[w].client != client)
      && forall w :: w in after ==> after[w] == before[w]
    case _ => after == before
  }

  /** Panes, windows and the terminal's size are what the events last said, and nothing else changes them. */
  lemma StepGeometry(cfg: Config, s: State, e: Event, t: State, id: string, p: Pane)
    requires Good(cfg, s) && Next(cfg, s, e, t)
    ensures t.size == if e.Resize? then e.size else s.size
    ensures e.UpdatePanes? ==> (id in t.panes && t.panes[id] == p <==> LastEntry(e.panes, id, p))
    ensures !e.UpdatePanes? ==> t.panes == s.panes
    ensures WinsMove(s.wins, e, t.wins)
  {
    hide RemoveEach, Upload, Place, Good, BeforeAssigning, HandlesOf, Enumerates, FirstFree, Remove, Free, Disconnect,
         Redraws, LastEntry, OnlyTaken;
    match e
    case PlaceRequest(client, handle, anchor, look) => PlaceKeepsHandles(s, client, handle, anchor, look);
    case UploadRequest(client, image) =>
      var handle :| FirstFree(HandlesOf(BeforeAssigning(cfg, s, image), client), handle)
                    && t == Upload(cfg, s, client, image, handle);
      UploadPlacesNothing(cfg, s, client, image, handle);
    case UnplaceAllRequest(client) =>
      var order :| Enumerates(order, s.placements.Keys) && t == RemoveEach(s, order, client);
      RemoveAllIs(cfg, s, order, client);
    case ClientDisconnect(client) =>
      var order :| Enumerates(order, s.placements.Keys) && t == Disconnect(s, client, order);
      DisconnectIs(cfg, s, client, order);
    case UnplaceRequest(client, one) => RemoveIs(s, one, client);
    case FreeRequest(client, handle) => FreeIs(s, client, handle);
    case _ => RegeometryIs(cfg, s, e, t, id, p);
  }

  lemma RegeometryIs(cfg: Config, s: State, e: Event, t: State, id: string, p: Pane)
    requires Good(cfg, s) && !e.ClientDisconnect?
    requires if Regeometry(s, e).Some? then Redraws(Regeometry(s, e).value, t) else t == s
    requires e.ScrollUpdate? || e.RegisterWin? || e.UnregisterWin? || e.UpdatePanes? || e.Resize? || e.Query?
    ensures t.size == if e.Resize? then e.size else s.size
    ensures e.UpdatePanes? ==> (id in t.panes && t.panes[id] == p <==> LastEntry(e.panes, id, p))
    ensures !e.UpdatePanes? ==> t.panes == s.panes
    ensures WinsMove(s.wins, e, t.wins)
  {
    hide Good, Redraws, PaneMap, LastEntry;
    if Regeometry(s, e).Some? {
      RedrawIs(cfg, s, e, t);
    }
    if e.UpdatePanes? {
      PaneMapIs(e.panes, id, p);
    }
  }

  /** Scrolling a window down by some lines moves what stays visible in it up by as many rows. */
  lemma ScrollShifts(cfg: Config, s: State, win: int, top: int, t: State, id: nat)
    requires Good(cfg, s) && Next(cfg, s, ScrollUpdate(win, top), t) && win in s.wins
    requires id in s.placements && s.placements[id].anchor.InWin? && s.placements[id].anchor.win == win
    requires s.placements[id].visible
    ensures id in t.placements
    ensures t.placements[id].visible ==>
              && t.placements[id].row == s.placements[id].row - (top - s.wins[win].scrollTop)
              && t.placements[id].col == s.placements[id].col
  {
    hide Redraws, Good, ScreenPos;
    RedrawIs(cfg, s, ScrollUpdate(win, top), t);
    NotStale(cfg, s, id);
    var anchor := s.placements[id].anchor;
    ScrollingMoves(win, anchor.bufLine, anchor.col, s.panes, s.wins, s.size, top - s.wins[win].scrollTop);
  }

  lemma NotStale(cfg: Config, s: State, id: nat)
    requires Good(cfg, s) && id in s.placements && s.placements[id].anchor.InWin?
    requires s.placements[id].anchor.win in s.wins
    ensures UpToDate(s, s.placements[id])
  {
    hide DrawnRight, AllTold, CacheMirrors, RefsExact, UploadsKept, FreedOnce, Numbered;
  }
}
