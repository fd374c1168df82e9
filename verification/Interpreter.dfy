/**
  What a terminal does with graphics commands, and why the stream the printer writes
  brings about what the commands say.
 */
module Interpreter {
  import opened Wrappers
  import opened Screen
  import Kitty
  import TTYOutput

  function Shows(t: Terminal, cmd: Kitty.Command): Terminal {
    match cmd
    case Transmit(image, format, width, height, data) => Transmitted(t, image, Image(data, format, width, height))
    case Place(image, id, row, col, width, height, srcX, srcY, srcW, srcH, z) =>
      PlacedAt(t, image, id, Shown(row, col, Look(width, height, srcX, srcY, srcW, srcH, z)))
    case Delete(image, id, free) =>
      if id == 0 then if free then Freed(t, image) else Cleared(t, image)
      else if free && OnlyPlacement(t, image, id) then Freed(t, image)
      else Unplaced(t, image, id)
  }

  /** All placements of an image go; the image stays. */
  function Cleared(t: Terminal, image: nat): Terminal {
    t.(shown := map k | k in t.shown && k.0 != image :: t.shown[k])
  }

  predicate OnlyPlacement(t: Terminal, image: nat, id: nat) {
    forall k :: k in t.shown && k.0 == image ==> k.1 == id
  }

  /** Each number of a command ends up where it says, and nothing else changes. */
  lemma ShowsAsSaid(t: Terminal, cmd: Kitty.Command)
    ensures var u := Shows(t, cmd);
            match cmd
            case Transmit(image, format, width, height, data) =>
              && u.shown == t.shown && u.freed == t.freed && u.images.Keys == t.images.Keys + {image}
              && u.images[image].data == data && u.images[image].format == format
              && u.images[image].width == width && u.images[image].height == height
              && forall k :: k in t.images && k != image ==> u.images[k] == t.images[k]
            case Place(image, id, row, col, width, height, srcX, srcY, srcW, srcH, z) =>
              && u.images == t.images && u.freed == t.freed
              && (image !in t.images ==> u == t)
              && (image in t.images ==>
                    && u.shown.Keys == t.shown.Keys + {(image, id)}
                    && var now := u.shown[(image, id)];
                       && now.row == row && now.col == col && now.look.width == width && now.look.height == height
                       && now.look.srcX == srcX && now.look.srcY == srcY
                       && now.look.srcW == srcW && now.look.srcH == srcH && now.look.zIndex == z)
              && forall k :: k in t.shown && k != (image, id) ==> u.shown[k] == t.shown[k]
            case Delete(image, id, free) =>
              && u.images.Keys == (if free && (id == 0 || OnlyPlacement(t, image, id)) then t.images.Keys - {image}
                                   else t.images.Keys)
              && (forall k :: k in u.images ==> u.images[k] == t.images[k])
              && (forall k :: k in u.shown <==> k in t.shown && !(k.0 == image && (id == 0 || k.1 == id)))
              && forall k :: k in u.shown ==> u.shown[k] == t.shown[k]
  {
  }

  function ShowsAll(t: Terminal, cmds: seq<Kitty.Command>): Terminal {
    if cmds == [] then t else Shows(ShowsAll(t, cmds[..|cmds| - 1]), cmds[|cmds| - 1])
  }

  lemma ShowsMore(t: Terminal, cmds: seq<Kitty.Command>, cmd: Kitty.Command)
    ensures ShowsAll(t, cmds + [cmd]) == Shows(ShowsAll(t, cmds), cmd)
  {
    assert (cmds + [cmd])[..|cmds|] == cmds;
  }

  // ------------------------------------------------------- through the printer

  /** Formats that carry their own size lose the one given; negative sizes mean none. */
  function SeenImage(image: Image): Image {
    if Kitty.IsRaw(image.format) then image else Image(image.data, "png", 0, 0)
  }

  lemma SeenAsSized(image: Image)
    ensures image.format == "rgb" || image.format == "rgba" ==> SeenImage(image) == image
    ensures image.format != "rgb" && image.format != "rgba" ==> SeenImage(image) == Image(image.data, "png", 0, 0)
  {
  }

  function SeenLook(look: Look): Look {
    Look(Kitty.AtLeastZero(look.width), Kitty.AtLeastZero(look.height), Kitty.AtLeastZero(look.srcX),
         Kitty.AtLeastZero(look.srcY), Kitty.AtLeastZero(look.srcW), Kitty.AtLeastZero(look.srcH), look.zIndex)
  }

  predicate OnScreen(shown: Shown) {
    shown.row >= 0 && shown.col >= 0
  }

  /** A terminal's contents as far as the escapes can tell: without what is placed off the screen. */
  function OnWire(t: Terminal): Terminal {
    Terminal(map k | k in t.images :: SeenImage(t.images[k]),
             map k | k in t.shown && OnScreen(t.shown[k]) :: t.shown[k].(look := SeenLook(t.shown[k].look)),
             t.freed)
  }

  /**
    A command whose effect survives the printer, which drops placements off the screen:
    it does not move a placement there, and frees images whole.
   */
  predicate Issuable(t: Terminal, cmd: Kitty.Command) {
    && (cmd.Place? ==> (cmd.row >= 0 && cmd.col >= 0) || (cmd.image, cmd.id) !in t.shown)
    && (cmd.Delete? && cmd.free ==> cmd.id == 0)
  }

  predicate WellIssued(cmds: seq<Kitty.Command>) {
    cmds == [] ||
    (var front := cmds[..|cmds| - 1];
     WellIssued(front) && Issuable(ShowsAll(BLANK, front), cmds[|cmds| - 1]))
  }

  lemma IssuedMore(cmds: seq<Kitty.Command>, cmd: Kitty.Command)
    requires WellIssued(cmds) && Issuable(ShowsAll(BLANK, cmds), cmd)
    ensures WellIssued(cmds + [cmd])
  {
    assert (cmds + [cmd])[..|cmds|] == cmds;
  }

  lemma TransmittedOnWire(t: Terminal, image: nat, contents: Image)
    ensures Transmitted(OnWire(t), image, SeenImage(contents)) == OnWire(Transmitted(t, image, contents))
  {
    hide SeenImage, SeenLook;
    assert Transmitted(OnWire(t), image, SeenImage(contents)).images == OnWire(Transmitted(t, image, contents)).images;
  }

  lemma PlacedOnWire(t: Terminal, image: nat, id: nat, shown: Shown)
    ensures OnScreen(shown) ==>
              PlacedAt(OnWire(t), image, id, shown.(look := SeenLook(shown.look)))
                == OnWire(PlacedAt(t, image, id, shown))
    ensures !OnScreen(shown) && (image, id) !in t.shown ==> OnWire(t) == OnWire(PlacedAt(t, image, id, shown))
  {
    hide SeenImage, SeenLook;
    var now := shown.(look := SeenLook(shown.look));
    assert OnWire(t).images.Keys == t.images.Keys;
    assert OnScreen(shown) ==> PlacedAt(OnWire(t), image, id, now).shown == OnWire(PlacedAt(t, image, id, shown)).shown;
    assert !OnScreen(shown) && (image, id) !in t.shown ==>
      OnWire(t).shown == OnWire(PlacedAt(t, image, id, shown)).shown;
  }

  lemma DeletedOnWire(t: Terminal, image: nat, id: nat)
    ensures Unplaced(OnWire(t), image, id) == OnWire(Unplaced(t, image, id))
    ensures Freed(OnWire(t), image) == OnWire(Freed(t, image)) && Cleared(OnWire(t), image) == OnWire(Cleared(t, image))
  {
    hide SeenImage, SeenLook;
    assert Unplaced(OnWire(t), image, id).shown == OnWire(Unplaced(t, image, id)).shown;
    assert Freed(OnWire(t), image).shown == OnWire(Freed(t, image)).shown;
    assert Freed(OnWire(t), image).images == OnWire(Freed(t, image)).images;
    assert Cleared(OnWire(t), image).shown == OnWire(Cleared(t, image)).shown;
  }

  lemma EffectiveShows(t: Terminal, cmd: Kitty.Command)
    requires Issuable(t, cmd)
    ensures ShowsAll(OnWire(t), Kitty.Effective(cmd)) == OnWire(Shows(t, cmd))
  {
    hide OnWire, Transmitted, PlacedAt, Unplaced, Freed, Cleared, OnlyPlacement, Kitty.AtLeastZero;
    ShowsOne(OnWire(t), Kitty.Effective(cmd));
    match cmd
    case Transmit(image, format, width, height, data) => TransmittedOnWire(t, image, Image(data, format, width,
      height));
    case Place(image, id, row, col, width, height, srcX, srcY, srcW, srcH, z) =>
      PlacedOnWire(t, image, id, Shown(row, col, Look(width, height, srcX, srcY, srcW, srcH, z)));
    case Delete(image, id, free) => DeletedOnWire(t, image, id);
  }

  lemma ShowsOne(t: Terminal, cmds: seq<Kitty.Command>)
    ensures cmds == [] ==> ShowsAll(t, cmds) == t
    ensures |cmds| == 1 ==> ShowsAll(t, cmds) == Shows(t, cmds[0])
  {
    hide Shows;
    if |cmds| == 1 {
      assert cmds[..0] == [] && ShowsAll(t, []) == t;
    }
  }

  lemma {:induction false} ShowsAppends(t: Terminal, a: seq<Kitty.Command>, b: seq<Kitty.Command>)
    ensures ShowsAll(t, a + b) == ShowsAll(ShowsAll(t, a), b)
    decreases |b|
  {
    hide Shows;
    if b == [] {
      assert a + b == a;
    } else {
      var front, last := b[..|b| - 1], b[|b| - 1];
      assert a + b == (a + front) + [last];
      ShowsMore(t, a + front, last);
      ShowsAppends(t, a, front);
    }
  }

  /** What the commands amount to on the wire shows what they show, but for what is off the screen. */
  lemma {:induction false} AllEffectiveShows(cmds: seq<Kitty.Command>)
    requires WellIssued(cmds)
    ensures ShowsAll(BLANK, Kitty.AllEffective(cmds)) == OnWire(ShowsAll(BLANK, cmds))
  {
    hide Kitty.Effective, Shows, OnWire, Issuable;
    if cmds == [] {
      BlankOnWire();
    } else {
      var front, last := cmds[..|cmds| - 1], cmds[|cmds| - 1];
      AllEffectiveShows(front);
      EffectiveShows(ShowsAll(BLANK, front), last);
      ShowsAppends(BLANK, Kitty.AllEffective(front), Kitty.Effective(last));
    }
  }

  lemma BlankOnWire()
    ensures OnWire(BLANK) == BLANK
  {
  }

  /**
    A terminal that interprets what was written, plain or through tmux, batched or not,
    shows what the sent commands show.
   */
  lemma WrittenIsShown(gfx: TTYOutput.TTYGraphics)
    requires gfx.Valid() && WellIssued(gfx.sent)
    ensures var passed := TTYOutput.Passed(gfx.inTmux, Joined(gfx.writes));
            && passed.Some? && Kitty.Parse(passed.value).Some?
            && ShowsAll(BLANK, Kitty.Parse(passed.value).value) == OnWire(ShowsAll(BLANK, gfx.sent))
  {
    hide Kitty.Parse, TTYOutput.Passed, OnWire, ShowsAll;
    gfx.WritesReadBack();
    AllEffectiveShows(gfx.sent);
  }
}
