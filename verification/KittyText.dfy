/**
  The escapes as text: what the printer's tokens come to, letter by letter, for every
  command and for every piece of an upload.
 */
module KittyText {
  import opened Wrappers
  import opened Text
  import opened Kitty
  import TTYOutput

  /** An application command of the graphics protocol. */
  function Escape(keys: string, payload: string): string {
    [ESC] + "_G" + keys + ";" + payload + [ESC] + "\\"
  }

  /** A labelled number, where there is something to say. */
  function Said(what: string, value: int, present: bool): string {
    if present then what + Number(value) else ""
  }

  lemma TextsOpt(keys: seq<Key>, key: char, value: int, present: bool)
    requires keys != []
    ensures Join(Texts(keys + Opt(key, value, present)))
            == Join(Texts(keys)) + Said([',', key, '='], value, present)
  {
    hide Join, Number;
    var more := Opt(key, value, present);
    if present {
      TTYOutput.AppendIsPrinted(keys, key, value);
      LabelSplits(Join(Texts(keys)), key, Number(value));
    } else {
      assert keys + more == keys;
    }
  }

  lemma LabelSplits(front: string, key: char, value: string)
    ensures front + "," + KeyText((key, value)) == front + ([',', key, '='] + value)
  {
  }

  lemma TextsHead(action: string, key: char, value: string)
    ensures Join(Texts([('a', action), (key, value)])) == "a=" + action + "," + [key] + "=" + value
  {
    hide Join;
    assert Texts([('a', action), (key, value)]) == [KeyText(('a', action)), KeyText((key, value))];
    TTYOutput.JoinTwo(KeyText(('a', action)), KeyText((key, value)));
  }

  lemma TextsMore(keys: seq<Key>, key: char, value: string)
    requires keys != []
    ensures Join(Texts(keys + [(key, value)])) == Join(Texts(keys)) + [',', key, '='] + value
  {
    hide Join;
    assert Texts([(key, value)]) == [KeyText((key, value))];
    TTYOutput.TextsAppend(keys, [(key, value)]);
    TTYOutput.JoinAppends(Texts(keys), [KeyText((key, value))]);
    TTYOutput.JoinOne(KeyText((key, value)));
  }

  lemma TextsMoreTwo(keys: seq<Key>, k: Key, l: Key)
    requires keys != []
    ensures Join(Texts(keys + [k, l])) == Join(Texts(keys)) + [',', k.0, '='] + k.1 + [',', l.0, '='] + l.1
  {
    hide Join, Texts;
    TextsMore(keys, k.0, k.1);
    TextsMore(keys + [k], l.0, l.1);
    assert keys + [k, l] == keys + [k] + [l];
  }

  lemma OneEscape(keys: seq<Key>, payload: string)
    ensures PrintAll([Apc(keys, payload)]) == Escape(Join(Texts(keys)), payload)
  {
    hide Join, Texts;
    PrintOne(Apc(keys, payload));
  }

  // ------------------------------------------------------------------ placements

  lemma PlaceHeadText(cmd: Command)
    requires cmd.Place?
    ensures Join(Texts(PlaceHead(cmd)))
            == "a=p,i=" + Number(cmd.image) + Said(",p=", cmd.id, cmd.id != 0) + Said(",c=", cmd.width, cmd.width > 0)
               + Said(",r=", cmd.height, cmd.height > 0)
  {
    hide Join, Texts, Number, Said, Opt;
    var k0 := [('a', "p"), ('i', Number(cmd.image))];
    TextsHead("p", 'i', Number(cmd.image));
    var k1 := k0 + Opt('p', cmd.id, cmd.id != 0);
    TextsOpt(k0, 'p', cmd.id, cmd.id != 0);
    var k2 := k1 + Opt('c', cmd.width, cmd.width > 0);
    TextsOpt(k1, 'c', cmd.width, cmd.width > 0);
    TextsOpt(k2, 'r', cmd.height, cmd.height > 0);
  }

  lemma PlaceKeysText(cmd: Command)
    requires cmd.Place?
    ensures Join(Texts(PlaceKeys(cmd)))
            == Join(Texts(PlaceHead(cmd)))
               + Said(",x=", cmd.srcX, cmd.srcX > 0) + Said(",y=", cmd.srcY, cmd.srcY > 0)
               + Said(",w=", cmd.srcW, cmd.srcW > 0) + Said(",h=", cmd.srcH, cmd.srcH > 0)
               + Said(",z=", cmd.zIndex, cmd.zIndex != 0) + ",C=1" + ",q=2"
  {
    hide Join, Texts, Number, Said, Opt, PlaceHead;
    var k3 := PlaceHead(cmd);
    HeadIsThere(cmd);
    var k4 := k3 + Opt('x', cmd.srcX, cmd.srcX > 0);
    TextsOpt(k3, 'x', cmd.srcX, cmd.srcX > 0);
    var k5 := k4 + Opt('y', cmd.srcY, cmd.srcY > 0);
    TextsOpt(k4, 'y', cmd.srcY, cmd.srcY > 0);
    var k6 := k5 + Opt('w', cmd.srcW, cmd.srcW > 0);
    TextsOpt(k5, 'w', cmd.srcW, cmd.srcW > 0);
    var k7 := k6 + Opt('h', cmd.srcH, cmd.srcH > 0);
    TextsOpt(k6, 'h', cmd.srcH, cmd.srcH > 0);
    var k8 := k7 + Opt('z', cmd.zIndex, cmd.zIndex != 0);
    TextsOpt(k7, 'z', cmd.zIndex, cmd.zIndex != 0);
    TextsMoreTwo(k8, ('C', "1"), ('q', "2"));
    Labelled(Join(Texts(k8)), 'C', "1", 'q', "2");
    assert PlaceKeys(cmd) == k8 + [('C', "1"), ('q', "2")];
  }

  lemma HeadIsThere(cmd: Command)
    requires cmd.Place?
    ensures PlaceHead(cmd) != []
  {
  }

  lemma Labelled(front: string, k: char, v: string, l: char, w: string)
    ensures front + [',', k, '='] + v + [',', l, '='] + w == front + ([',', k, '='] + v) + ([',', l, '='] + w)
  {
  }

  /** A placement goes to its cell, counted from one, and names what it shows; what is zero is not mentioned. */
  lemma PlaceText(cmd: Command)
    requires cmd.Place? && cmd.row >= 0 && cmd.col >= 0
    ensures var keys := "a=p,i=" + Number(cmd.image) + Said(",p=", cmd.id, cmd.id != 0)
                        + Said(",c=", cmd.width, cmd.width > 0) + Said(",r=", cmd.height, cmd.height > 0)
                        + Said(",x=", cmd.srcX, cmd.srcX > 0) + Said(",y=", cmd.srcY, cmd.srcY > 0)
                        + Said(",w=", cmd.srcW, cmd.srcW > 0) + Said(",h=", cmd.srcH, cmd.srcH > 0)
                        + Said(",z=", cmd.zIndex, cmd.zIndex != 0) + ",C=1" + ",q=2";
            PrintAll(TokensOf(cmd))
            == [ESC] + "[" + Number(cmd.row + 1) + ";" + Number(cmd.col + 1) + "H" + Escape(keys, "")
  {
    hide Join, Texts, Number, Said, PlaceKeys, Escape;
    PlaceHeadText(cmd);
    PlaceKeysText(cmd);
    var cursor, apc := Cursor(cmd.row + 1, cmd.col + 1), Apc(PlaceKeys(cmd), "");
    OneEscape(PlaceKeys(cmd), "");
    assert [cursor, apc][1..] == [apc];
  }

  /** A deletion names the image, or one placement of it, and says with a capital that the image goes too. */
  lemma DeleteText(cmd: Command)
    requires cmd.Delete?
    ensures PrintAll(TokensOf(cmd))
            == Escape("a=d,d=" + (if cmd.free then "I" else "i") + ",i=" + Number(cmd.image)
                      + Said(",p=", cmd.id, cmd.id != 0) + ",q=2", "")
  {
    hide Join, Texts, Number, Said, Opt, Escape;
    var kind := if cmd.free then "I" else "i";
    var k0 := [('a', "d"), ('d', kind)];
    TextsHead("d", 'd', kind);
    var k1 := k0 + [('i', Number(cmd.image))];
    TextsMore(k0, 'i', Number(cmd.image));
    var k2 := k1 + Opt('p', cmd.id, cmd.id != 0);
    TextsOpt(k1, 'p', cmd.id, cmd.id != 0);
    TextsMore(k2, 'q', "2");
    assert DeleteKeys(cmd) == k2 + [('q', "2")];
    OneEscape(DeleteKeys(cmd), "");
    DeleteLabels(Join(Texts(k2)), kind, Number(cmd.image));
  }

  lemma DeleteLabels(front: string, kind: string, image: string)
    ensures front + [',', 'q', '='] + "2" == front + ",q=2"
    ensures "a=" + "d" + "," + ['d'] + "=" + kind + [',', 'i', '='] + image == "a=d,d=" + kind + ",i=" + image
  {
  }

  // --------------------------------------------------------------------- uploads

  /** The codes of the three formats. */
  function CodeText(format: string): string {
    if format == "rgb" then "24" else if format == "rgba" then "32" else "100"
  }

  lemma CodeIsPrinted(format: string)
    ensures FormatCode("rgb") == 24 && FormatCode("rgba") == 32
    ensures format != "rgb" && format != "rgba" ==> FormatCode(format) == 100
    ensures Number(FormatCode(format)) == CodeText(format)
    ensures FormatCode(format) != 100 <==> IsRaw(format)
  {
    assert Decimal(2) == "2" && Decimal(3) == "3" && Decimal(1) == "1";
    assert Decimal(10) == "10";
  }

  /** What an upload says of its image: format and id, and the size of raw pixels. */
  function UploadText(cmd: Command): string
    requires cmd.Transmit?
  {
    "a=t,f=" + CodeText(cmd.format) + ",i=" + Number(cmd.image) + Said(",s=", cmd.width, IsRaw(cmd.format))
    + Said(",v=", cmd.height, IsRaw(cmd.format))
  }

  lemma HeaderKeysText(cmd: Command)
    requires cmd.Transmit?
    ensures Join(Texts(HeaderKeys(cmd))) == UploadText(cmd)
  {
    hide Join, Texts, Number, Said, Opt, FormatCode, CodeText;
    CodeIsPrinted(cmd.format);
    var raw, format := IsRaw(cmd.format), FormatCode(cmd.format);
    var k0 := [('a', "t"), ('f', Number(format))];
    TextsHead("t", 'f', Number(format));
    var k1 := k0 + [('i', Number(cmd.image))];
    TextsMore(k0, 'i', Number(cmd.image));
    var k2 := k1 + Opt('s', cmd.width, raw);
    TextsOpt(k1, 's', cmd.width, raw);
    TextsOpt(k2, 'v', cmd.height, raw);
    assert HeaderKeys(cmd) == k2 + Opt('v', cmd.height, raw);
    UploadLabels(CodeText(cmd.format), Number(cmd.image));
  }

  lemma UploadLabels(code: string, image: string)
    ensures "a=" + "t" + "," + ['f'] + "=" + code + [',', 'i', '='] + image == "a=t,f=" + code + ",i=" + image
  {
  }

  /** An upload of up to 4096 symbols is one escape. */
  lemma SmallUploadText(cmd: Command)
    requires cmd.Transmit? && |Base64(cmd.data)| <= 4096
    ensures PrintAll(TokensOf(cmd)) == Escape(UploadText(cmd) + ",q=2", Base64(cmd.data))
  {
    hide Join, Texts, UploadText, HeaderKeys, Escape, Base64;
    HeaderKeysText(cmd);
    TTYOutput.HeaderIsThere(cmd);
    TextsMore(HeaderKeys(cmd), 'q', "2");
    var keys := HeaderKeys(cmd) + [('q', "2")];
    OneEscape(keys, Base64(cmd.data));
    assert UploadText(cmd) + [',', 'q', '='] + "2" == UploadText(cmd) + ",q=2";
  }

  /** The i-th chunk is the i-th stretch of the text, of that size unless the text ends. */
  lemma {:induction false} ChunkAt(s: string, size: nat, i: nat)
    requires size > 0 && i * size < |s|
    ensures i < |Chunks(s, size)|
    ensures Chunks(s, size)[i] == s[i * size..if i * size + size < |s| then i * size + size else |s|]
    ensures i == |Chunks(s, size)| - 1 <==> i * size + size >= |s|
    decreases |s|
  {
    var end := if |s| < size then |s| else size;
    if i > 0 {
      assert i * size == (i - 1) * size + size;
      Product(i - 1, size);
      ChunkAt(s[end..], size, i - 1);
    } else {
      assert Chunks("", size) == [];
      if end < |s| {
        ChunkAt(s[end..], size, 0);
      }
    }
  }

  lemma Product(a: nat, b: nat)
    ensures a * b >= 0
  {
  }

  /** Which piece of a longer upload says what: the first about the image, all but the last that more follows. */
  lemma ChunkText(cmd: Command, i: nat)
    requires cmd.Transmit? && |Base64(cmd.data)| > 4096 && i * 4096 < |Base64(cmd.data)|
    ensures var text := Base64(cmd.data);
            var last := i * 4096 + 4096 >= |text|;
            && i < |TokensOf(cmd)| && (last <==> i == |TokensOf(cmd)| - 1)
            && Print(TokensOf(cmd)[i])
               == Escape((if i == 0 then UploadText(cmd) + "," else "") + (if last then "m=0,q=2" else "m=1,q=2"),
                         text[i * 4096..if last then |text| else i * 4096 + 4096])
  {
    hide Join, Texts, UploadText, HeaderKeys, Base64, Chunks, ChunkToken, Print, Escape;
    var text := Base64(cmd.data);
    ChunkAt(text, 4096, i);
    var chunks := Chunks(text, 4096);
    ChunkTokenText(cmd, chunks, i);
  }

  lemma ChunkTokenText(cmd: Command, chunks: seq<string>, i: nat)
    requires cmd.Transmit? && i < |chunks|
    ensures Print(ChunkToken(cmd, chunks, i))
            == Escape((if i == 0 then UploadText(cmd) + "," else "")
                      + (if i == |chunks| - 1 then "m=0,q=2" else "m=1,q=2"), chunks[i])
  {
    hide Join, Texts, UploadText, HeaderKeys;
    HeaderKeysText(cmd);
    TTYOutput.HeaderIsThere(cmd);
    TTYOutput.MoreIsPrinted(HeaderKeys(cmd), i == |chunks| - 1);
    MoreText(i == |chunks| - 1);
    if i == 0 {
      Grouped(UploadText(cmd), ",", TTYOutput.MoreText(i == |chunks| - 1));
    }
  }

  lemma MoreText(last: bool)
    ensures TTYOutput.MoreText(last) == if last then "m=0,q=2" else "m=1,q=2"
  {
  }

  // ------------------------------------------------------------------- round trip

  /** An upload of raw pixels reads back as it was given; of anything else the bytes do, as a PNG. */
  lemma UploadReadsBack(cmd: Command)
    requires cmd.Transmit?
    ensures Parse(PrintAll(TokensOf(cmd)))
            == Some([if cmd.format == "rgb" || cmd.format == "rgba" then cmd
                     else cmd.(format := "png", width := 0, height := 0)])
  {
    hide Parse, PrintAll, TokensOf;
    StreamReadsBack([cmd]);
    assert [cmd][..0] == [] && AllEffective([]) == [] && AllTokens([]) == [];
    assert AllTokens([cmd]) == [] + TokensOf(cmd) == TokensOf(cmd);
    assert AllEffective([cmd]) == [] + Effective(cmd) == Effective(cmd);
  }

  // ------------------------------------------------------------------------- tmux

  /** A passthrough is a text in a frame, every escape in it doubled and nothing else changed. */
  lemma WrapText(a: string, c: char, b: string)
    ensures WrapTmux(a) == [ESC] + "Ptmux;" + Doubled(a) + [ESC] + "\\"
    ensures Doubled(a + [c] + b) == Doubled(a) + (if c == ESC then [ESC, ESC] else [c]) + Doubled(b)
    ensures (forall k :: 0 <= k < |a| ==> a[k] != ESC) ==> Doubled(a) == a
  {
    DoubledAppends(a, [c] + b);
    DoubledAppends([c], b);
    DoubledOne(c);
    hide Doubled;
    Framed(Doubled(a));
    var twice := if c == ESC then [ESC, ESC] else [c];
    assert a + [c] + b == a + ([c] + b);
    assert Doubled(a) + (twice + Doubled(b)) == Doubled(a) + twice + Doubled(b);
    if forall k :: 0 <= k < |a| ==> a[k] != ESC {
      NothingDoubled(a);
    }
  }

  lemma DoubledOne(c: char)
    ensures Doubled([c]) == if c == ESC then [ESC, ESC] else [c]
  {
    assert [c][1..] == "" && Doubled("") == "";
  }

  lemma Framed(inner: string)
    ensures PASSTHROUGH + inner + [ESC, '\\'] == [ESC] + "Ptmux;" + inner + [ESC] + "\\"
  {
  }

  lemma {:induction false} NothingDoubled(a: string)
    requires forall k :: 0 <= k < |a| ==> a[k] != ESC
    ensures Doubled(a) == a
  {
    if a != "" {
      NothingDoubled(a[1..]);
    }
  }

  lemma {:induction false} DoubledAppends(a: string, b: string)
    ensures Doubled(a + b) == Doubled(a) + Doubled(b)
  {
    if a == "" {
      assert a + b == b;
    } else {
      assert (a + b)[1..] == a[1..] + b;
      DoubledAppends(a[1..], b);
    }
  }
}
