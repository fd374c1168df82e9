/**
  The placement engine as a state machine: its maps, the cache it owns and the
  terminal it drives. The order in which it visits a map is not determined.
 */
module EngineState {
  import opened Wrappers
  import opened Geometry
  import opened Screen
  import opened UploadCache

  datatype Placement = Placement(
    client: string, handle: nat, image: nat, anchor: Anchor, look: Look,
    row: int, col: int, visible: bool, rendered: bool)

  /**
    history, dropped and uploads are kept for the proof: each placement's visibility
    at creation and in every notification, the windows dropped by a disconnect since
    the last redraw, and the bytes each handle was given for.
   */
  datatype State = State(
    placements: map<nat, Placement>,
    handles: map<string, map<nat, nat>>,
    panes: map<string, Pane>,
    wins: map<int, Win>,
    size: Size,
    nextPlacement: nat,
    nextImage: nat,
    cache: seq<Held>,
    terminal: Terminal,
    evictions: multiset<(string, nat)>,
    history: map<nat, seq<bool>>,
    dropped: set<int>,
    uploads: map<(string, nat), seq<byte>>)

  datatype Config = Config(maxSize: int, hash: seq<byte> -> Digest)

  function Initial(): State {
    State(map[], map[], map[], map[], Size(0, 0), 0, 1, [], BLANK, multiset{}, map[], {}, map[])
  }

  /** An order in which a map with these keys can be visited. */
  ghost predicate Enumerates<T(!new)>(order: seq<T>, keys: set<T>) {
    && (forall k :: k in order <==> k in keys)
    && (forall i, j :: 0 <= i < j < |order| ==> order[i] != order[j])
  }

  // ------------------------------------------------------------------- redraw

  function SpotOf(s: State, p: Placement): Spot {
    ScreenPos(p.anchor, s.panes, s.wins, s.size)
  }

  function Resolved(s: State, p: Placement): Placement {
    var spot := SpotOf(s, p);
    p.(row := spot.row, col := spot.col, visible := spot.visible, rendered := spot.visible)
  }

  function ShownAs(p: Placement): Shown {
    Shown(p.row, p.col, p.look)
  }

  /** The commands that bring one placement up to date. */
  function Refreshed(t: Terminal, id: nat, was: Placement, now: Placement): Terminal {
    if now.visible && !was.rendered then PlacedAt(t, now.image, id, ShownAs(now))
    else if !now.visible && was.rendered then Unplaced(t, now.image, id)
    else if now.visible && was.rendered && (now.row != was.row || now.col != was.col)
    then PlacedAt(Unplaced(t, now.image, id), now.image, id, ShownAs(now))
    else t
  }

  function Notified(history: map<nat, seq<bool>>, id: nat, was: bool, now: bool): map<nat, seq<bool>> {
    if now != was && id in history then history[id := history[id] + [now]] else history
  }

  function RedrawOne(s: State, id: nat): State {
    if id !in s.placements then s
    else
      var was := s.placements[id];
      var now := Resolved(s, was);
      s.(placements := s.placements[id := now],
         terminal := Refreshed(s.terminal, id, was, now),
         history := Notified(s.history, id, was.visible, now.visible))
  }

  function RedrawEach(s: State, order: seq<nat>): State {
    if order == [] then s else RedrawOne(RedrawEach(s, order[..|order| - 1]), order[|order| - 1])
  }

  // ----------------------------------------------------------------- placements

  datatype PlaceReply = Placed(id: nat) | NoImages | UnknownHandle

  function Place(s: State, client: string, handle: nat, anchor: Anchor, look: Look): (State, PlaceReply) {
    if client !in s.handles then (s, NoImages)
    else if handle !in s.handles[client] then (s, UnknownHandle)
    else
      var id := s.nextPlacement + 1;
      var image := s.handles[client][handle];
      var p := Resolved(s, Placement(client, handle, image, anchor, look, 0, 0, false, false));
      (s.(nextPlacement := id,
          placements := s.placements[id := p],
          terminal := if p.visible then PlacedAt(s.terminal, image, id, ShownAs(p)) else s.terminal,
          history := s.history[id := [p.visible]]),
       Placed(id))
  }

  function Remove(s: State, id: nat, client: string): State {
    if id in s.placements && s.placements[id].client == client then
      var p := s.placements[id];
      s.(placements := s.placements - {id},
         terminal := if p.rendered then Unplaced(s.terminal, p.image, id) else s.terminal)
    else s
  }

  function RemoveEach(s: State, order: seq<nat>, client: string): State {
    if order == [] then s else Remove(RemoveEach(s, order[..|order| - 1], client), order[|order| - 1], client)
  }

  // --------------------------------------------------------------------- images

  predicate FirstFree(handles: map<nat, nat>, handle: nat) {
    && handle > 0 && handle !in handles
    && forall k :: 0 < k < handle ==> k in handles
  }

  function HandlesOf(s: State, client: string): map<nat, nat> {
    if client in s.handles then s.handles[client] else map[]
  }

  function Assigned(s: State, client: string, handle: nat, image: nat, data: seq<byte>): State {
    s.(handles := s.handles[client := HandlesOf(s, client)[handle := image]],
       uploads := s.uploads[(client, handle) := data])
  }

  function Without(images: map<nat, nat>, image: nat): map<nat, nat> {
    map h | h in images && images[h] != image :: images[h]
  }

  /** The clients' handles once those for an image are gone. */
  function HandlesWithout(handles: map<string, map<nat, nat>>, image: nat): map<string, map<nat, nat>> {
    map c | c in handles :: Without(handles[c], image)
  }

  /** Everybody who holds a handle for an image. */
  ghost function Holders(handles: map<string, map<nat, nat>>, image: nat): set<(string, nat)> {
    set c, h | c in handles && h in handles[c] && handles[c][h] == image :: (c, h)
  }

  /** An evicted image is freed, and whoever holds a handle for it loses the handle and is told. */
  ghost function EvictOne(s: State, image: nat): State {
    s.(terminal := Freed(s.terminal, image),
       handles := HandlesWithout(s.handles, image),
       uploads := s.uploads - Holders(s.handles, image),
       evictions := s.evictions + multiset(Holders(s.handles, image)))
  }

  ghost function EvictEach(s: State, images: seq<nat>): State {
    if images == [] then s else EvictOne(EvictEach(s, images[..|images| - 1]), images[|images| - 1])
  }

  /** A hit names the cached image; a miss transmits a new one and evicts what no longer fits. */
  ghost function Upload(cfg: Config, s: State, client: string, image: Image, handle: nat): State {
    var digest := cfg.hash(image.data);
    match Find(s.cache, digest)
    case Some(i) =>
      Assigned(s.(cache := Stored(s.cache, digest, s.cache[i].id, cfg.maxSize)), client, handle, s.cache[i].id,
        image.data)
    case None =>
      Assigned(Transmit(cfg, s, image), client, handle, s.nextImage, image.data)
  }

  ghost function Transmit(cfg: Config, s: State, image: Image): State {
    var digest := cfg.hash(image.data);
    EvictEach(s.(nextImage := s.nextImage + 1,
                 terminal := Transmitted(s.terminal, s.nextImage, image),
                 cache := Stored(s.cache, digest, s.nextImage, cfg.maxSize)),
              EvictedBy(s.cache, digest, cfg.maxSize))
  }

  /** The handle is assigned after the evictions. */
  ghost function BeforeAssigning(cfg: Config, s: State, image: Image): State {
    if Find(s.cache, cfg.hash(image.data)).Some? then s else Transmit(cfg, s, image)
  }

  function Free(s: State, client: string, handle: nat): State {
    if client in s.handles && handle in s.handles[client] then
      s.(handles := s.handles[client := s.handles[client] - {handle}],
         cache := Released(s.cache, s.handles[client][handle]),
         uploads := s.uploads - {(client, handle)})
    else s
  }

  // ------------------------------------------------------------------ geometry

  function Scroll(s: State, win: int, top: int): State
    requires win in s.wins
  {
    s.(wins := s.wins[win := s.wins[win].(scrollTop := top)])
  }

  /** The last entry for a pane counts. */
  function PaneMap(panes: seq<(string, Pane)>): map<string, Pane> {
    if panes == [] then map[] else PaneMap(panes[..|panes| - 1])[panes[|panes| - 1].0 := panes[|panes| - 1].1]
  }

  // ---------------------------------------------------------------- disconnect

  ghost function HandlesTo(images: map<nat, nat>, image: nat): set<nat> {
    set h | h in images && images[h] == image
  }

  ghost function ReleasedAll(c: seq<Held>, images: map<nat, nat>): (r: seq<Held>)
    ensures |r| == |c|
  {
    seq(|c|, i requires 0 <= i < |c| => c[i].(refs := c[i].refs - |HandlesTo(images, c[i].id)|))
  }

  function WinsWithout(wins: map<int, Win>, client: string): map<int, Win> {
    map w | w in wins && wins[w].client != client :: wins[w]
  }

  ghost function Disconnect(s: State, client: string, order: seq<nat>): State {
    var t := RemoveEach(s, order, client);
    t.(cache := ReleasedAll(t.cache, HandlesOf(t, client)),
       handles := t.handles - {client},
       uploads := map k | k in t.uploads && k.0 != client :: t.uploads[k],
       wins := WinsWithout(t.wins, client),
       dropped := t.dropped + (t.wins.Keys - WinsWithout(t.wins, client).Keys))
  }

  // ------------------------------------------------------------------- shutdown

  function EraseOne(t: Terminal, placements: map<nat, Placement>, id: nat): Terminal {
    if id in placements && placements[id].rendered then Unplaced(t, placements[id].image, id) else t
  }

  function EraseEach(t: Terminal, placements: map<nat, Placement>, order: seq<nat>): Terminal {
    if order == [] then t else EraseOne(EraseEach(t, placements, order[..|order| - 1]), placements, order[|order| - 1])
  }

  function FreeEach(t: Terminal, images: seq<nat>): Terminal {
    if images == [] then t else Freed(FreeEach(t, images[..|images| - 1]), images[|images| - 1])
  }

  ghost predicate Referenced(handles: map<string, map<nat, nat>>, image: nat) {
    exists c, h :: c in handles && h in handles[c] && handles[c][h] == image
  }

  /** Erases every rendered placement, then frees every image some client holds a handle for, once. */
  ghost predicate CleansUp(s: State, order: seq<nat>, images: seq<nat>) {
    && Enumerates(order, s.placements.Keys)
    && (forall i :: i in images <==> Referenced(s.handles, i))
    && (forall i, j :: 0 <= i < j < |images| ==> images[i] != images[j])
  }

  function CleanedUp(s: State, order: seq<nat>, images: seq<nat>): State {
    s.(terminal := FreeEach(EraseEach(s.terminal, s.placements, order), images))
  }

  // ---------------------------------------------------------------------- events

  datatype Event =
    | PlaceRequest(client: string, handle: nat, anchor: Anchor, look: Look)
    | UnplaceRequest(client: string, id: nat)
    | UnplaceAllRequest(client: string)
    | UploadRequest(client: string, image: Image)
    | FreeRequest(client: string, handle: nat)
    | ScrollUpdate(win: int, top: int)
    | RegisterWin(win: int, geometry: Win)
    | UnregisterWin(win: int)
    | UpdatePanes(panes: seq<(string, Pane)>)
    | ClientDisconnect(client: string)
    | Resize(size: Size)
    | Query

  /** The state from which everything is redrawn, for events that change the geometry. */
  function Regeometry(s: State, e: Event): Option<State> {
    match e
    case ScrollUpdate(win, top) => if win in s.wins then Some(Scroll(s, win, top)) else None
    case RegisterWin(win, geometry) => Some(s.(wins := s.wins[win := geometry]))
    case UnregisterWin(win) => Some(s.(wins := s.wins - {win}))
    case UpdatePanes(panes) => Some(s.(panes := PaneMap(panes)))
    case Resize(size) => Some(s.(size := size))
    case _ => None
  }

  ghost predicate Redraws(s: State, t: State) {
    exists order :: Enumerates(order, s.placements.Keys) && t == RedrawEach(s, order).(dropped := {})
  }

  ghost predicate Next(cfg: Config, s: State, e: Event, t: State) {
    match e
    case PlaceRequest(client, handle, anchor, look) => t == Place(s, client, handle, anchor, look).0
    case UnplaceRequest(client, id) => t == Remove(s, id, client)
    case UnplaceAllRequest(client) =>
      exists order :: Enumerates(order, s.placements.Keys) && t == RemoveEach(s, order, client)
    case UploadRequest(client, image) =>
      exists handle :: FirstFree(HandlesOf(BeforeAssigning(cfg, s, image), client), handle)
        && t == Upload(cfg, s, client, image, handle)
    case FreeRequest(client, handle) => t == Free(s, client, handle)
    case ClientDisconnect(client) =>
      exists order :: Enumerates(order, s.placements.Keys) && t == Disconnect(s, client, order)
    case _ => if Regeometry(s, e).Some? then Redraws(Regeometry(s, e).value, t) else t == s
  }

  /** states[i + 1] follows states[i] by events[i]. */
  ghost predicate Runs(cfg: Config, states: seq<State>, events: seq<Event>) {
    && |states| == |events| + 1
    && forall i :: 0 <= i < |events| ==> Next(cfg, states[i], events[i], states[i + 1])
  }
}
