/**
  What the terminal holds: transmitted images, and placements of them at positions,
  as changed by the three graphics commands.
 */
module Screen {
  import Format

  datatype Image = Image(data: seq<Format.byte>, format: string, width: int, height: int)

  datatype Look = Look(width: int, height: int, srcX: int, srcY: int, srcW: int, srcH: int, zIndex: int)

  datatype Shown = Shown(row: int, col: int, look: Look)

  /** Placements are told apart by image id and placement id; freed counts every freeing of an image. */
  datatype Terminal = Terminal(images: map<nat, Image>, shown: map<(nat, nat), Shown>, freed: multiset<nat>)

  const BLANK := Terminal(map[], map[], multiset{})

  function Transmitted(t: Terminal, image: nat, contents: Image): Terminal {
    t.(images := t.images[image := contents])
  }

  /** Placing an image the terminal does not have shows nothing. */
  function PlacedAt(t: Terminal, image: nat, id: nat, shown: Shown): Terminal {
    if image in t.images then t.(shown := t.shown[(image, id) := shown]) else t
  }

  function Unplaced(t: Terminal, image: nat, id: nat): Terminal {
    t.(shown := t.shown - {(image, id)})
  }

  /** Freeing an image also removes its placements. */
  function Freed(t: Terminal, image: nat): Terminal {
    Terminal(t.images - {image}, map k | k in t.shown && k.0 != image :: t.shown[k], t.freed + multiset{image})
  }
}
