/**
  The printer at work: commands serialized, wrapped for tmux if need be, and written
  out one by one or as a batch.
 */
module TTYOutput {
  import opened Wrappers
  import opened Text
  import opened Kitty

  // ---------------------------------------------------------------- serializing

  method SplitChunks(text: string, size: nat) returns (chunks: seq<string>)
    requires size > 0
    ensures chunks == Chunks(text, size)
  {
    chunks := [];
    var s := text;
    while |s| > 0
      invariant chunks + Chunks(s, size) == Chunks(text, size)
      decreases |s|
    {
      var end := size;
      if end > |s| {
        end := |s|;
      }
      chunks := chunks + [s[..end]];
      s := s[end..];
    }
  }

  function Keyed(key: char, value: int): string {
    KeyText((key, Number(value)))
  }

  lemma {:induction false} JoinAppends(a: seq<string>, b: seq<string>)
    requires a != [] && b != []
    ensures Join(a + b) == Join(a) + "," + Join(b)
    decreases |b|
  {
    var all, last := a + b, b[|b| - 1];
    if |b| == 1 {
      assert all[..|all| - 1] == a;
    } else {
      assert all[..|all| - 1] == a + b[..|b| - 1];
      JoinAppends(a, b[..|b| - 1]);
      calc {
        Join(all);
        Join(a + b[..|b| - 1]) + "," + last;
        (Join(a) + "," + Join(b[..|b| - 1])) + "," + last;
        Join(a) + "," + (Join(b[..|b| - 1]) + "," + last);
        Join(a) + "," + Join(b);
      }
    }
  }

  lemma JoinOne(part: string)
    ensures Join([part]) == part
  {
  }

  lemma JoinTwo(a: string, b: string)
    ensures Join([a, b]) == a + "," + b
  {
    assert [a, b][..1] == [a];
  }

  lemma TextsAppend(a: seq<Key>, b: seq<Key>)
    ensures Texts(a + b) == Texts(a) + Texts(b)
  {
  }

  /** The sizes go with raw pixels only. */
  method HeaderText(cmd: Command) returns (s: string)
    requires cmd.Transmit?
    ensures s == Join(Texts(HeaderKeys(cmd)))
  {
    hide Join, Number, KeyText;
    var format := FormatCode(cmd.format);
    var sizeKeys := "";
    ghost var sizes: seq<Key> := [];
    if format != 100 {
      sizeKeys := "," + (Keyed('s', cmd.width) + "," + Keyed('v', cmd.height));
      sizes := [('s', Number(cmd.width)), ('v', Number(cmd.height))];
      assert Texts(sizes) == [Keyed('s', cmd.width), Keyed('v', cmd.height)];
      JoinTwo(Keyed('s', cmd.width), Keyed('v', cmd.height));
    }
    ghost var first := [('a', "t"), ('f', Number(format)), ('i', Number(cmd.image))];
    s := KeyText(('a', "t")) + "," + Keyed('f', format) + "," + Keyed('i', cmd.image);
    assert Texts(first) == [KeyText(('a', "t")), Keyed('f', format)] + [Keyed('i', cmd.image)];
    JoinTwo(KeyText(('a', "t")), Keyed('f', format));
    JoinAppends([KeyText(('a', "t")), Keyed('f', format)], [Keyed('i', cmd.image)]);
    JoinOne(Keyed('i', cmd.image));
    assert HeaderKeys(cmd) == first + sizes;
    TextsAppend(first, sizes);
    if format != 100 {
      JoinAppends(Texts(first), Texts(sizes));
      s := s + sizeKeys;
      assert Join(Texts(first)) + "," + Join(Texts(sizes)) == Join(Texts(first)) + ("," + Join(Texts(sizes)));
    } else {
      assert Texts(first) + Texts(sizes) == Texts(first);
    }
  }

  function Escape(keys: string, payload: string): string {
    [ESC] + "_G" + keys + ";" + payload + [ESC] + "\\"
  }

  function MoreText(last: bool): string {
    KeyText(('m', if last then "0" else "1")) + "," + KeyText(('q', "2"))
  }

  lemma MoreIsPrinted(keys: seq<Key>, last: bool)
    ensures var more := [('m', if last then "0" else "1"), ('q', "2")];
            && Join(Texts(more)) == MoreText(last)
            && (keys != [] ==> Join(Texts(keys + more)) == Join(Texts(keys)) + "," + MoreText(last))
  {
    hide Join, KeyText;
    var m := if last then "0" else "1";
    var more := [('m', m), ('q', "2")];
    assert Texts(more) == [KeyText(('m', m)), KeyText(('q', "2"))];
    JoinTwo(KeyText(('m', m)), KeyText(('q', "2")));
    if keys != [] {
      TextsAppend(keys, more);
      JoinAppends(Texts(keys), Texts(more));
    }
  }

  /** One escape per chunk. */
  method SerializeChunks(cmd: Command) returns (result: seq<string>)
    requires cmd.Transmit?
    ensures |result| == |TransmitTokens(cmd)|
    ensures forall i :: 0 <= i < |result| ==> result[i] == Print(TransmitTokens(cmd)[i])
  {
    hide Join, KeyText, HeaderKeys, Chunks, Base64, MoreText;
    var text := Base64(cmd.data);
    var header := HeaderText(cmd);
    HeaderIsThere(cmd);
    if |text| <= CHUNK_SIZE {
      QuietIsPrinted(HeaderKeys(cmd));
      return [Escape(header + "," + KeyText(('q', "2")), text)];
    }
    var chunks := SplitChunks(text, CHUNK_SIZE);
    var lines := new string[|chunks|];
    var i := 0;
    while i < |chunks|
      invariant i <= |chunks|
      invariant forall k :: 0 <= k < i ==> lines[k] == Print(ChunkToken(cmd, chunks, k))
    {
      var last := i == |chunks| - 1;
      MoreIsPrinted(HeaderKeys(cmd), last);
      if i == 0 {
        lines[i] := Escape(header + "," + MoreText(last), chunks[i]);
      } else {
        lines[i] := Escape(MoreText(last), chunks[i]);
      }
      i := i + 1;
    }
    result := lines[..];
  }

  lemma HeaderIsThere(cmd: Command)
    requires cmd.Transmit?
    ensures HeaderKeys(cmd) != []
  {
  }

  lemma QuietIsPrinted(keys: seq<Key>)
    requires keys != []
    ensures Join(Texts(keys + [('q', "2")])) == Join(Texts(keys)) + "," + KeyText(('q', "2"))
  {
    hide Join, KeyText;
    TextsAppend(keys, [('q', "2")]);
    assert Texts([('q', "2")]) == [KeyText(('q', "2"))];
    JoinAppends(Texts(keys), [KeyText(('q', "2"))]);
    JoinOne(KeyText(('q', "2")));
  }

  /** The optional parts of a placement are appended one by one. */
  method PlaceParts(cmd: Command) returns (parts: seq<string>)
    requires cmd.Place?
    ensures parts == Texts(PlaceKeys(cmd))
  {
    hide KeyText, Number, PlaceHead, Texts;
    parts := HeadParts(cmd);
    ghost var keys := PlaceHead(cmd);
    parts, keys := Optional(parts, keys, 'x', cmd.srcX, cmd.srcX > 0);
    parts, keys := Optional(parts, keys, 'y', cmd.srcY, cmd.srcY > 0);
    parts, keys := Optional(parts, keys, 'w', cmd.srcW, cmd.srcW > 0);
    parts, keys := Optional(parts, keys, 'h', cmd.srcH, cmd.srcH > 0);
    parts, keys := Optional(parts, keys, 'z', cmd.zIndex, cmd.zIndex != 0);
    assert PlaceKeys(cmd) == keys + [('C', "1"), ('q', "2")];
    TextsAppend(keys, [('C', "1"), ('q', "2")]);
    TextsOfTwo(('C', "1"), ('q', "2"));
    parts := parts + [KeyText(('C', "1")), KeyText(('q', "2"))];
  }

  method HeadParts(cmd: Command) returns (parts: seq<string>)
    requires cmd.Place?
    ensures parts == Texts(PlaceHead(cmd))
  {
    hide KeyText, Number, Texts;
    parts := [KeyText(('a', "p"))];
    parts := parts + [Keyed('i', cmd.image)];
    ghost var keys := [('a', "p"), ('i', Number(cmd.image))];
    TextsOfTwo(('a', "p"), ('i', Number(cmd.image)));
    parts, keys := Optional(parts, keys, 'p', cmd.id, cmd.id != 0);
    parts, keys := Optional(parts, keys, 'c', cmd.width, cmd.width > 0);
    parts, keys := Optional(parts, keys, 'r', cmd.height, cmd.height > 0);
  }

  lemma TextsOfTwo(k: Key, l: Key)
    ensures Texts([k, l]) == [KeyText(k), KeyText(l)]
  {
    hide KeyText;
  }

  method Optional(before: seq<string>, ghost keys: seq<Key>, key: char, value: int, present: bool)
    returns (parts: seq<string>, ghost more: seq<Key>)
    requires before == Texts(keys)
    ensures more == keys + Opt(key, value, present) && parts == Texts(more)
  {
    hide KeyText, Number;
    parts, more := before, keys + Opt(key, value, present);
    if present {
      parts := parts + [Keyed(key, value)];
    }
    assert parts == Texts(more);
  }

  method SerializePlace(cmd: Command) returns (s: string)
    requires cmd.Place?
    ensures s == PrintAll(TokensOf(cmd))
  {
    hide Join, KeyText, Number, PlaceKeys;
    if cmd.row < 0 || cmd.col < 0 {
      return "";
    }
    var parts := PlaceParts(cmd);
    s := [ESC] + "[" + Number(cmd.row + 1) + ";" + Number(cmd.col + 1) + "H" + Escape(Join(parts), "");
    ghost var cursor, apc := Cursor(cmd.row + 1, cmd.col + 1), Apc(PlaceKeys(cmd), "");
    PrintOne(apc);
    assert [cursor, apc][1..] == [apc];
  }

  function DeleteText(cmd: Command): string
    requires cmd.Delete?
  {
    var kind := KeyText(('d', if cmd.free then "I" else "i"));
    var head := KeyText(('a', "d")) + "," + kind + "," + Keyed('i', cmd.image);
    Escape((if cmd.id != 0 then head + "," + Keyed('p', cmd.id) else head) + "," + KeyText(('q', "2")), "")
  }

  lemma DeleteIsPrinted(cmd: Command)
    requires cmd.Delete?
    ensures DeleteText(cmd) == PrintAll(TokensOf(cmd))
  {
    hide Join, KeyText, Number;
    var kind := ('d', if cmd.free then "I" else "i");
    var k0 := [('a', "d"), kind];
    var k1 := k0 + [('i', Number(cmd.image))];
    var k2 := k1 + Opt('p', cmd.id, cmd.id != 0);
    assert Texts(k0) == [KeyText(('a', "d")), KeyText(kind)];
    JoinTwo(KeyText(('a', "d")), KeyText(kind));
    AppendIsPrinted(k0, 'i', cmd.image);
    if cmd.id != 0 {
      AppendIsPrinted(k1, 'p', cmd.id);
    } else {
      assert k2 == k1;
    }
    QuietIsPrinted(k2);
    assert DeleteKeys(cmd) == k2 + [('q', "2")];
    PrintOne(Apc(DeleteKeys(cmd), ""));
  }

  lemma AppendIsPrinted(keys: seq<Key>, key: char, value: int)
    requires keys != []
    ensures Join(Texts(keys + [(key, Number(value))])) == Join(Texts(keys)) + "," + Keyed(key, value)
  {
    hide Join, KeyText, Number;
    var more := [(key, Number(value))];
    TextsAppend(keys, more);
    assert Texts(more) == [Keyed(key, value)];
    JoinAppends(Texts(keys), Texts(more));
    JoinOne(Keyed(key, value));
  }

  // ------------------------------------------------------------------- writing

  /** What the terminal sees of a stream: outside tmux the stream, inside what tmux passes on. */
  function Passed(inTmux: bool, s: string): Option<string> {
    if inTmux then Unwrap(s) else Some(s)
  }

  function Wrapped(inTmux: bool, s: string): string {
    if inTmux then WrapTmux(s) else s
  }

  lemma PassedAppends(inTmux: bool, s: string, printed: string, more: string)
    requires Passed(inTmux, s) == Some(printed)
    ensures Passed(inTmux, s + Wrapped(inTmux, more)) == Some(printed + more)
  {
    if inTmux {
      WrapReadsBack(more, "");
      assert WrapTmux(more) + "" == WrapTmux(more) && more + "" == more;
      UnwrapAppends(s, WrapTmux(more));
    }
  }

  lemma PassedJoins(inTmux: bool, a: string, b: string, x: string, y: string)
    requires Passed(inTmux, a) == Some(x) && Passed(inTmux, b) == Some(y)
    ensures Passed(inTmux, a + b) == Some(x + y)
  {
    if inTmux {
      UnwrapAppends(a, b);
    }
  }

  class TTYGraphics {
    const inTmux: bool
    var batching: bool
    var batch: string
    /** What was handed to the terminal writer, in order. */
    var writes: seq<string>

    /** The commands those writes and the batch stand for. */
    ghost var sent: seq<Command>
    ghost var queued: seq<Command>

    ghost predicate Valid()
      reads this
    {
      && Passed(inTmux, Joined(writes)) == Some(PrintAll(AllTokens(sent)))
      && Passed(inTmux, batch) == Some(PrintAll(AllTokens(queued)))
      && (!batching ==> queued == [])
    }

    constructor (inTmux: bool)
      ensures Valid() && !batching && writes == [] && sent == [] && queued == []
      ensures this.inTmux == inTmux
    {
      this.inTmux := inTmux;
      batching, batch, writes, sent, queued := false, "", [], [], [];
    }

    /** Uploads go out chunk by chunk at once, even while batching. */
    method Transmit(cmd: Command)
      requires Valid() && cmd.Transmit?
      modifies this`writes, this`sent
      ensures Valid() && sent == old(sent) + [cmd]
      ensures old(writes) <= writes && |writes| == |old(writes)| + |TransmitTokens(cmd)|
    {
      hide Unwrap, WrapTmux, PrintAll, TransmitTokens, Print, Joined, AllTokens, Passed;
      var chunks := SerializeChunks(cmd);
      ghost var tokens, before := TransmitTokens(cmd), AllTokens(sent);
      NothingMore(before, tokens);
      var i := 0;
      while i < |chunks|
        invariant i <= |chunks| && old(writes) <= writes && |writes| == |old(writes)| + i && sent == old(sent)
        invariant Passed(inTmux, Joined(writes)) == Some(PrintAll(before + tokens[..i]))
      {
        var chunk := chunks[i];
        OneMore(before, tokens, i);
        PassedAppends(inTmux, Joined(writes), PrintAll(before + tokens[..i]), chunk);
        if inTmux {
          chunk := WrapTmux(chunk);
        }
        JoinedSnoc(writes, chunk);
        writes := writes + [chunk];
        i := i + 1;
      }
      assert tokens[..i] == tokens;
      AllTokensSnoc(sent, cmd);
      sent := sent + [cmd];
    }

    method Place(cmd: Command)
      requires Valid() && cmd.Place?
      modifies this`writes, this`batch, this`sent, this`queued
      ensures Valid() && SentOrQueued(cmd, old(sent), old(queued))
    {
      var s := SerializePlace(cmd);
      Send(s, cmd);
    }

    method Delete(cmd: Command)
      requires Valid() && cmd.Delete?
      modifies this`writes, this`batch, this`sent, this`queued
      ensures Valid() && SentOrQueued(cmd, old(sent), old(queued))
    {
      DeleteIsPrinted(cmd);
      Send(DeleteText(cmd), cmd);
    }

    ghost predicate SentOrQueued(cmd: Command, sentBefore: seq<Command>, queuedBefore: seq<Command>)
      reads this
    {
      if batching then sent == sentBefore && queued == queuedBefore + [cmd]
      else sent == sentBefore + [cmd] && queued == queuedBefore
    }

    method Send(text: string, ghost cmd: Command)
      requires Valid() && text == PrintAll(TokensOf(cmd))
      modifies this`writes, this`batch, this`sent, this`queued
      ensures Valid() && SentOrQueued(cmd, old(sent), old(queued))
    {
      hide Unwrap, WrapTmux, PrintAll, TokensOf, Joined, AllTokens, Passed;
      var escape := text;
      if inTmux {
        escape := WrapTmux(escape);
      }
      if batching {
        AllTokensSnoc(queued, cmd);
        PrintAllAppends(AllTokens(queued), TokensOf(cmd));
        PassedAppends(inTmux, batch, PrintAll(AllTokens(queued)), text);
        batch := batch + escape;
        queued := queued + [cmd];
        return;
      }
      AllTokensSnoc(sent, cmd);
      PrintAllAppends(AllTokens(sent), TokensOf(cmd));
      PassedAppends(inTmux, Joined(writes), PrintAll(AllTokens(sent)), text);
      JoinedSnoc(writes, escape);
      writes := writes + [escape];
      sent := sent + [cmd];
    }

    /** Starts over: what an earlier batch had not flushed is dropped. */
    method BeginBatch()
      requires Valid()
      modifies this`batching, this`batch, this`queued
      ensures Valid() && batching && queued == []
    {
      NothingPrinted(inTmux);
      batching := true;
      batch := "";
      queued := [];
    }

    /** The batch goes out as one write, if there is anything in it. */
    method FlushBatch()
      requires Valid()
      modifies this`batching, this`batch, this`writes, this`sent, this`queued
      ensures Valid() && !batching && sent == old(sent) + old(queued) && queued == []
      ensures writes == if old(batch) == "" then old(writes) else old(writes) + [old(batch)]
    {
      hide Unwrap, PrintAll, Joined, AllTokens;
      NothingPrinted(inTmux);
      AllTokensAppend(sent, queued);
      PrintAllAppends(AllTokens(sent), AllTokens(queued));
      PassedJoins(inTmux, Joined(writes), batch, PrintAll(AllTokens(sent)), PrintAll(AllTokens(queued)));
      if |batch| > 0 {
        JoinedSnoc(writes, batch);
        writes := writes + [batch];
      } else {
        assert Joined(writes) + batch == Joined(writes);
      }
      batch := "";
      batching := false;
      sent, queued := sent + queued, [];
    }

    /** Whatever was sent, batched or not, the terminal reads back. */
    lemma WritesReadBack()
      requires Valid()
      ensures var seen := Passed(inTmux, Joined(writes));
              seen.Some? && Parse(seen.value) == Some(AllEffective(sent))
    {
      hide Parse;
      Kitty.StreamReadsBack(sent);
    }
  }

  lemma NothingPrinted(inTmux: bool)
    ensures PrintAll(AllTokens([])) == "" && Passed(inTmux, "") == Some("")
  {
  }

  lemma NothingMore(before: seq<Token>, tokens: seq<Token>)
    ensures before + tokens[..0] == before
  {
  }

  lemma OneMore(before: seq<Token>, tokens: seq<Token>, i: nat)
    requires i < |tokens|
    ensures PrintAll(before + tokens[..i + 1]) == PrintAll(before + tokens[..i]) + Print(tokens[i])
  {
    hide Print, PrintAll;
    assert before + tokens[..i + 1] == (before + tokens[..i]) + [tokens[i]];
    PrintAllAppends(before + tokens[..i], [tokens[i]]);
    PrintOne(tokens[i]);
  }

  lemma AllTokensSnoc(cmds: seq<Command>, cmd: Command)
    ensures AllTokens(cmds + [cmd]) == AllTokens(cmds) + TokensOf(cmd)
  {
    hide TokensOf;
    assert (cmds + [cmd])[..|cmds|] == cmds;
  }

  lemma {:induction false} AllTokensAppend(a: seq<Command>, b: seq<Command>)
    ensures AllTokens(a + b) == AllTokens(a) + AllTokens(b)
    decreases |b|
  {
    hide TokensOf;
    if b == [] {
      assert a + b == a && AllTokens(b) == [];
    } else {
      var front, last := b[..|b| - 1], b[|b| - 1];
      assert a + b == (a + front) + [last];
      AllTokensSnoc(a + front, last);
      AllTokensAppend(a, front);
    }
  }
}
