/**
  The kitty graphics escapes: what the printer emits for each command, and a reader
  of such streams that recovers the commands.
 */
module Kitty {
  import opened Wrappers
  import opened Text

  const CHUNK_SIZE: nat := 4096

  datatype Command =
    | Transmit(image: nat, format: string, width: int, height: int, data: seq<byte>)
    | Place(image: nat, id: nat, row: int, col: int, width: int, height: int,
            srcX: int, srcY: int, srcW: int, srcH: int, zIndex: int)
    | Delete(image: nat, id: nat, free: bool)

  type Key = (char, string)

  /** A cursor movement, 1-based, or an application command with its keys and payload. */
  datatype Token = Cursor(row: int, col: int) | Apc(keys: seq<Key>, payload: string)

  // ------------------------------------------------------------------ printing

  function KeyText(key: Key): string {
    [key.0] + "=" + key.1
  }

  function Texts(keys: seq<Key>): (r: seq<string>)
    ensures |r| == |keys|
  {
    seq(|keys|, i requires 0 <= i < |keys| => KeyText(keys[i]))
  }

  function Join(parts: seq<string>): string {
    if parts == [] then ""
    else if |parts| == 1 then parts[0]
    else Join(parts[..|parts| - 1]) + "," + parts[|parts| - 1]
  }

  function Print(t: Token): string {
    match t
    case Cursor(row, col) => [ESC] + "[" + Number(row) + ";" + Number(col) + "H"
    case Apc(keys, payload) => [ESC] + "_G" + Join(Texts(keys)) + ";" + payload + [ESC] + "\\"
  }

  function PrintAll(tokens: seq<Token>): string {
    if tokens == [] then "" else Print(tokens[0]) + PrintAll(tokens[1..])
  }

  // ------------------------------------------------------------- what is printed

  function FormatCode(format: string): nat {
    if format == "rgb" then 24 else if format == "rgba" then 32 else 100
  }

  function Opt(key: char, value: int, present: bool): seq<Key> {
    if present then [(key, Number(value))] else []
  }

  /** The keys that say what is uploaded; sizes go with raw pixels only. */
  function HeaderKeys(cmd: Command): seq<Key>
    requires cmd.Transmit?
  {
    var format := FormatCode(cmd.format);
    [('a', "t"), ('f', Number(format)), ('i', Number(cmd.image))]
    + Opt('s', cmd.width, format != 100) + Opt('v', cmd.height, format != 100)
  }

  function PlaceHead(cmd: Command): seq<Key>
    requires cmd.Place?
  {
    [('a', "p"), ('i', Number(cmd.image))]
    + Opt('p', cmd.id, cmd.id != 0)
    + Opt('c', cmd.width, cmd.width > 0) + Opt('r', cmd.height, cmd.height > 0)
  }

  function PlaceKeys(cmd: Command): seq<Key>
    requires cmd.Place?
  {
    PlaceHead(cmd)
    + Opt('x', cmd.srcX, cmd.srcX > 0) + Opt('y', cmd.srcY, cmd.srcY > 0)
    + Opt('w', cmd.srcW, cmd.srcW > 0) + Opt('h', cmd.srcH, cmd.srcH > 0)
    + Opt('z', cmd.zIndex, cmd.zIndex != 0)
    + [('C', "1"), ('q', "2")]
  }

  function DeleteKeys(cmd: Command): seq<Key>
    requires cmd.Delete?
  {
    [('a', "d"), ('d', if cmd.free then "I"
      else "i"), ('i', Number(cmd.image))] + Opt('p', cmd.id, cmd.id != 0) + [('q', "2")]
  }

  function Chunks(s: string, size: nat): (r: seq<string>)
    requires size > 0
  {
    if s == "" then []
    else
      var end := if |s| < size then |s| else size;
      [s[..end]] + Chunks(s[end..], size)
  }

  /** The i-th of n chunks: the first carries the header, all but the last promise more. */
  function ChunkToken(cmd: Command, chunks: seq<string>, i: nat): Token
    requires cmd.Transmit? && i < |chunks|
  {
    var more := [('m', if i == |chunks| - 1 then "0" else "1"), ('q', "2")];
    Apc(if i == 0 then HeaderKeys(cmd) + more else more, chunks[i])
  }

  function TransmitTokens(cmd: Command): seq<Token>
    requires cmd.Transmit?
  {
    var text := Base64(cmd.data);
    if |text| <= CHUNK_SIZE then [Apc(HeaderKeys(cmd) + [('q', "2")], text)]
    else
      var chunks := Chunks(text, CHUNK_SIZE);
      seq(|chunks|, i requires 0 <= i < |chunks| => ChunkToken(cmd, chunks, i))
  }

  function TokensOf(cmd: Command): seq<Token> {
    match cmd
    case Transmit(_, _, _, _, _) => TransmitTokens(cmd)
    case Place(_, _, row, col, _, _, _, _, _, _, _) =>
      if row < 0 || col < 0 then [] else [Cursor(row + 1, col + 1), Apc(PlaceKeys(cmd), "")]
    case Delete(_, _, _) => [Apc(DeleteKeys(cmd), "")]
  }

  // ------------------------------------------------------------------- scanning

  function ReadKey(s: string): Option<Key> {
    if |s| < 2 || s[1] != '=' then None else Some((s[0], s[2..]))
  }

  function ReadKeys(s: string): Option<seq<Key>>
    decreases |s|
  {
    var i := IndexOf(s, ',');
    var key := ReadKey(s[..i]);
    if key.None? then None
    else if i == |s| then Some([key.value])
    else
      var rest := ReadKeys(s[i + 1..]);
      if rest.None? then None else Some([key.value] + rest.value)
  }

  /** Row and column up to the H, and what follows. */
  function ReadCursor(s: string): (r: Option<(Token, string)>)
    ensures r.Some? ==> |r.value.1| < |s|
  {
    var i := IndexOf(s, ';');
    if i == |s| then None
    else
      var row, tail := ReadNumber(s[..i]), s[i + 1..];
      var j := IndexOf(tail, 'H');
      if j == |tail| then None
      else
        var col := ReadNumber(tail[..j]);
        if row.None? || col.None? then None else Some((Cursor(row.value, col.value), tail[j + 1..]))
  }

  /** Keys and payload up to the terminator, and what follows. */
  function ReadApc(s: string): (r: Option<(Token, string)>)
    ensures r.Some? ==> |r.value.1| < |s|
  {
    var i := IndexOf(s, ';');
    if i == |s| then None
    else
      var keys, tail := ReadKeys(s[..i]), s[i + 1..];
      var j := IndexOf(tail, ESC);
      if keys.None? || j + 1 >= |tail| || tail[j + 1] != '\\' then None
      else Some((Apc(keys.value, tail[..j]), tail[j + 2..]))
  }

  /** The token at the front of a stream, and what follows it. */
  function NextToken(s: string): (r: Option<(Token, string)>)
    ensures r.Some? ==> |r.value.1| < |s|
  {
    if |s| < 3 || s[0] != ESC then None
    else if s[1] == '[' then ReadCursor(s[2..])
    else if s[1] == '_' && s[2] == 'G' then ReadApc(s[3..])
    else None
  }

  function Scan(s: string): Option<seq<Token>>
    decreases |s|
  {
    if s == "" then Some([])
    else
      var next := NextToken(s);
      if next.None? then None
      else
        var rest := Scan(next.value.1);
        if rest.None? then None else Some([next.value.0] + rest.value)
  }

  // -------------------------------------------------------- tokens read back

  predicate CleanKey(key: Key) {
    && key.0 != ',' && key.0 != ';'
    && Lacks(key.1, ',') && Lacks(key.1, ';')
  }

  predicate Clean(t: Token) {
    t.Apc? ==> t.keys != [] && (forall i :: 0 <= i < |t.keys| ==> CleanKey(t.keys[i])) && Lacks(t.payload, ESC)
  }

  lemma KeyTextIsClean(key: Key)
    requires CleanKey(key)
    ensures Lacks(KeyText(key), ',') && Lacks(KeyText(key), ';')
    ensures ReadKey(KeyText(key)) == Some(key)
  {
    assert KeyText(key)[2..] == key.1;
  }

  lemma {:induction false} JoinLacks(keys: seq<Key>)
    requires forall i :: 0 <= i < |keys| ==> CleanKey(keys[i])
    ensures Lacks(Join(Texts(keys)), ';')
  {
    if keys != [] {
      KeyTextIsClean(keys[|keys| - 1]);
      JoinLacks(keys[..|keys| - 1]);
      assert Texts(keys)[..|keys| - 1] == Texts(keys[..|keys| - 1]);
    }
  }

  /** Joining from the front. */
  lemma {:induction false} JoinFront(parts: seq<string>)
    requires |parts| > 1
    ensures Join(parts) == parts[0] + "," + Join(parts[1..])
    decreases |parts|
  {
    var front, last := parts[..|parts| - 1], parts[|parts| - 1];
    if |parts| > 2 {
      JoinFront(front);
      assert parts[1..][..|parts| - 2] == front[1..];
      assert front[0] == parts[0];
      calc {
        Join(parts);
        Join(front) + "," + last;
        (parts[0] + "," + Join(front[1..])) + "," + last;
        parts[0] + "," + (Join(front[1..]) + "," + last);
        parts[0] + "," + Join(parts[1..]);
      }
    } else {
      assert front == [parts[0]] && parts[1..] == [last];
    }
  }

  lemma {:induction false} KeysReadBack(keys: seq<Key>)
    requires keys != [] && forall i :: 0 <= i < |keys| ==> CleanKey(keys[i])
    ensures ReadKeys(Join(Texts(keys))) == Some(keys)
    decreases |keys|
  {
    hide IndexOf, KeyText, Join, ReadKey;
    var s, first := Join(Texts(keys)), KeyText(keys[0]);
    KeyTextIsClean(keys[0]);
    if |keys| == 1 {
      JoinSingle(Texts(keys));
      WholeLacks(s, ',');
      assert s[..|s|] == s && keys == [keys[0]];
    } else {
      JoinFront(Texts(keys));
      assert Texts(keys)[1..] == Texts(keys[1..]);
      var rest := Join(Texts(keys[1..]));
      assert s == first + [','] + rest;
      IndexOfIs(first, ',', rest);
      assert s[..|first|] == first && s[|first| + 1..] == rest;
      KeysReadBack(keys[1..]);
      assert [keys[0]] + keys[1..] == keys;
    }
  }

  lemma JoinSingle(parts: seq<string>)
    requires |parts| == 1
    ensures Join(parts) == parts[0]
  {
  }

  lemma WholeLacks(s: string, c: char)
    requires Lacks(s, c)
    ensures IndexOf(s, c) == |s|
  {
  }

  lemma CursorBody(row: int, col: int, rest: string)
    ensures ReadCursor(Number(row) + [';'] + (Number(col) + ['H'] + rest)) == Some((Cursor(row, col), rest))
  {
    hide Number, ReadNumber, IndexOf;
    var r, c := Number(row), Number(col);
    var tail := c + ['H'] + rest;
    var s := r + [';'] + tail;
    NumberReadsBack(row);
    NumberReadsBack(col);
    IndexOfIs(r, ';', tail);
    IndexOfIs(c, 'H', rest);
    assert s[..|r|] == r && s[|r| + 1..] == tail;
    assert tail[..|c|] == c && tail[|c| + 1..] == rest;
  }

  lemma CursorReadsBack(row: int, col: int, rest: string)
    ensures NextToken(Print(Cursor(row, col)) + rest) == Some((Cursor(row, col), rest))
  {
    hide Number, ReadCursor, ReadApc;
    var r, c := Number(row), Number(col);
    var s, body := Print(Cursor(row, col)) + rest, r + [';'] + (c + ['H'] + rest);
    CursorBody(row, col, rest);
    assert s == [ESC, '['] + body;
    assert s[2..] == body;
  }

  lemma ApcBody(keys: seq<Key>, payload: string, rest: string)
    requires Clean(Apc(keys, payload))
    ensures ReadApc(Join(Texts(keys)) + [';'] + (payload + [ESC] + (['\\'] + rest))) == Some((Apc(keys, payload), rest))
  {
    hide Join, Texts, ReadKeys, IndexOf;
    var k := Join(Texts(keys));
    var after := ['\\'] + rest;
    var tail := payload + [ESC] + after;
    var s := k + [';'] + tail;
    KeysReadBack(keys);
    JoinLacks(keys);
    IndexOfIs(k, ';', tail);
    IndexOfIs(payload, ESC, after);
    assert s[..|k|] == k && s[|k| + 1..] == tail;
    assert tail[..|payload|] == payload && tail[|payload| + 2..] == rest && tail[|payload| + 1] == '\\';
  }

  lemma RegroupApc(a: string, k: string, b: string, p: string, c: string, d: string, rest: string)
    ensures (((((a + k) + b) + p) + c) + d) + rest == a + ((k + b) + ((p + c) + (d + rest)))
  {
  }

  lemma ApcReadsBack(keys: seq<Key>, payload: string, rest: string)
    requires Clean(Apc(keys, payload))
    ensures NextToken(Print(Apc(keys, payload)) + rest) == Some((Apc(keys, payload), rest))
  {
    hide Join, Texts, ReadApc, ReadCursor;
    var k := Join(Texts(keys));
    var s, body := Print(Apc(keys, payload)) + rest, k + [';'] + (payload + [ESC] + (['\\'] + rest));
    ApcBody(keys, payload, rest);
    RegroupApc([ESC] + "_G", k, ";", payload, [ESC], "\\", rest);
    assert s == ([ESC] + "_G") + body;
    assert s[3..] == body;
  }

  lemma TokenReadsBack(t: Token, rest: string)
    requires Clean(t)
    ensures NextToken(Print(t) + rest) == Some((t, rest))
  {
    hide Print, NextToken;
    match t
    case Cursor(row, col) => CursorReadsBack(row, col, rest);
    case Apc(keys, payload) => ApcReadsBack(keys, payload, rest);
  }

  /** What was printed scans back to the same tokens. */
  lemma {:induction false} TokensReadBack(tokens: seq<Token>)
    requires forall i :: 0 <= i < |tokens| ==> Clean(tokens[i])
    ensures Scan(PrintAll(tokens)) == Some(tokens)
  {
    hide Print, NextToken, Clean;
    if tokens != [] {
      TokensReadBack(tokens[1..]);
      TokenReadsBack(tokens[0], PrintAll(tokens[1..]));
      assert PrintAll(tokens) != "";
      assert [tokens[0]] + tokens[1..] == tokens;
    }
  }

  lemma {:induction false} PrintAllAppends(a: seq<Token>, b: seq<Token>)
    ensures PrintAll(a + b) == PrintAll(a) + PrintAll(b)
  {
    hide Print;
    if a == [] {
      assert a + b == b;
    } else {
      assert (a + b)[1..] == a[1..] + b;
      PrintAllAppends(a[1..], b);
    }
  }

  lemma PrintOne(t: Token)
    ensures PrintAll([t]) == Print(t)
  {
    assert [t][1..] == [];
    assert PrintAll([]) == "";
  }

  // -------------------------------------------------------------- interpretation

  function Get(keys: seq<Key>, c: char): Option<string> {
    if keys == [] then None
    else if keys[0].0 == c then Some(keys[0].1)
    else Get(keys[1..], c)
  }

  /** A numeric key; absent ones are zero. */
  function GetNumber(keys: seq<Key>, c: char): Option<int> {
    match Get(keys, c)
    case None => Some(0)
    case Some(text) => ReadNumber(text)
  }

  /** The reading side: where the cursor is, 0-based, and the upload in progress. */
  datatype Reader = Reader(row: int, col: int, upload: Option<(seq<Key>, string)>)

  function FormatOf(code: int): Option<string> {
    if code == 24 then Some("rgb") else if code == 32 then Some("rgba") else if code == 100 then Some("png") else None
  }

  function ReadTransmit(keys: seq<Key>, text: string): Option<Command> {
    var data, code := Unbase64(text), GetNumber(keys, 'f');
    var image, width, height := GetNumber(keys, 'i'), GetNumber(keys, 's'), GetNumber(keys, 'v');
    if data.None? || code.None? || image.None? || width.None? || height.None? || image.value < 0 then None
    else if FormatOf(code.value).None? then None
    else Some(Transmit(image.value, FormatOf(code.value).value, width.value, height.value, data.value))
  }

  function ReadPlace(keys: seq<Key>, row: int, col: int): Option<Command> {
    var image, id := GetNumber(keys, 'i'), GetNumber(keys, 'p');
    var c, r := GetNumber(keys, 'c'), GetNumber(keys, 'r');
    var x, y, w, h, z := GetNumber(keys, 'x'), GetNumber(keys, 'y'), GetNumber(keys, 'w'), GetNumber(keys, 'h'),
      GetNumber(keys, 'z');
    if image.None? || id.None? || c.None? || r.None? || x.None? || y.None? || w.None? || h.None? || z.None? then None
    else if image.value < 0 || id.value < 0 then None
    else Some(Place(image.value, id.value, row, col, c.value, r.value, x.value, y.value, w.value, h.value, z.value))
  }

  function ReadDelete(keys: seq<Key>): Option<Command> {
    var image, id := GetNumber(keys, 'i'), GetNumber(keys, 'p');
    if image.None? || id.None? || image.value < 0 || id.value < 0 then None
    else Some(Delete(image.value, id.value, Get(keys, 'd') == Some("I")))
  }

  function Deliver(reader: Reader, cmd: Option<Command>): Option<(Reader, seq<Command>)> {
    if cmd.None? then None else Some((reader, [cmd.value]))
  }

  function Feed(reader: Reader, t: Token): Option<(Reader, seq<Command>)> {
    match t
    case Cursor(row, col) => Some((reader.(row := row - 1, col := col - 1), []))
    case Apc(keys, payload) =>
      if reader.upload.Some? then
        var (head, text) := reader.upload.value;
        if Get(keys, 'm') == Some("1") then Some((reader.(upload := Some((head, text + payload))), []))
        else Deliver(reader.(upload := None), ReadTransmit(head, text + payload))
      else if Get(keys, 'a') == Some("t") then
        if Get(keys, 'm') == Some("1") then Some((reader.(upload := Some((keys, payload))), []))
        else Deliver(reader, ReadTransmit(keys, payload))
      else if Get(keys, 'a') == Some("p") then Deliver(reader, ReadPlace(keys, reader.row, reader.col))
      else if Get(keys, 'a') == Some("d") then Deliver(reader, ReadDelete(keys))
      else None
  }

  function FeedAll(reader: Reader, tokens: seq<Token>): Option<(Reader, seq<Command>)>
    decreases |tokens|
  {
    if tokens == [] then Some((reader, []))
    else
      var first := Feed(reader, tokens[0]);
      if first.None? then None
      else
        var rest := FeedAll(first.value.0, tokens[1..]);
        if rest.None? then None else Some((rest.value.0, first.value.1 + rest.value.1))
  }

  const START := Reader(0, 0, None)

  /** The commands in a stream of escapes. */
  function Parse(s: string): Option<seq<Command>> {
    var tokens := Scan(s);
    if tokens.None? then None
    else
      var r := FeedAll(START, tokens.value);
      if r.None? || r.value.0.upload.Some? then None else Some(r.value.1)
  }

  lemma {:induction false} FeedAllAppends(reader: Reader, a: seq<Token>, b: seq<Token>)
    requires FeedAll(reader, a).Some?
    ensures var (mid, cmds) := FeedAll(reader, a).value;
            var rest := FeedAll(mid, b);
            FeedAll(reader, a + b) == if rest.None? then None else Some((rest.value.0, cmds + rest.value.1))
    decreases |a|
  {
    hide Feed;
    if a == [] {
      assert a + b == b;
      var rest := FeedAll(reader, b);
      if rest.Some? {
        assert [] + rest.value.1 == rest.value.1;
      }
    } else {
      assert (a + b)[1..] == a[1..] + b;
      var (mid, cmds) := Feed(reader, a[0]).value;
      FeedAllAppends(mid, a[1..], b);
      var (end, more) := FeedAll(mid, a[1..]).value;
      var rest := FeedAll(end, b);
      if rest.Some? {
        assert cmds + (more + rest.value.1) == (cmds + more) + rest.value.1;
      }
    }
  }

  lemma FeedOne(reader: Reader, t: Token)
    ensures FeedAll(reader, [t]) == Feed(reader, t)
  {
    hide Feed;
    assert [t][1..] == [];
    var first := Feed(reader, t);
    if first.Some? {
      assert first.value.1 + [] == first.value.1;
    }
  }

  lemma FeedQuiet(reader: Reader, tokens: seq<Token>, next: Reader)
    requires tokens != [] && Feed(reader, tokens[0]) == Some((next, []))
    ensures FeedAll(reader, tokens) == FeedAll(next, tokens[1..])
  {
    hide Feed;
    var rest := FeedAll(next, tokens[1..]);
    if rest.Some? {
      assert [] + rest.value.1 == rest.value.1;
    }
  }

  // ------------------------------------------------------ commands read back

  function AtLeastZero(n: int): int {
    if n > 0 then n else 0
  }

  /** Raw pixels need a size beside them; everything else is taken for a PNG, which has its own. */
  predicate IsRaw(format: string) {
    format == "rgb" || format == "rgba"
  }

  /**
    What a command amounts to on the wire: nothing at a negative position, no size for
    formats that carry their own.
   */
  function Effective(cmd: Command): seq<Command> {
    match cmd
    case Transmit(image, format, width, height, data) =>
      if IsRaw(format) then [cmd] else [Transmit(image, "png", 0, 0, data)]
    case Place(image, id, row, col, width, height, srcX, srcY, srcW, srcH, zIndex) =>
      if row < 0 || col < 0 then []
      else [Place(image, id, row, col, AtLeastZero(width), AtLeastZero(height), AtLeastZero(srcX), AtLeastZero(srcY),
                  AtLeastZero(srcW), AtLeastZero(srcH), zIndex)]
    case Delete(_, _, _) => [cmd]
  }

  lemma {:induction false} GetAppends(a: seq<Key>, b: seq<Key>, c: char)
    ensures Get(a + b, c) == if Get(a, c).Some? then Get(a, c) else Get(b, c)
  {
    if a == [] {
      assert a + b == b;
    } else {
      assert (a + b)[1..] == a[1..] + b;
      GetAppends(a[1..], b, c);
    }
  }

  lemma GetOpt(keys: seq<Key>, key: char, value: int, present: bool)
    ensures forall c :: Get(keys + Opt(key, value, present), c)
                        == if Get(keys, c).Some? then Get(keys, c) else if c == key
                          && present then Some(Number(value)) else None
  {
    hide Number;
    forall c
      ensures Get(keys + Opt(key, value, present), c)
              == if Get(keys, c).Some? then Get(keys, c) else if c == key && present then Some(Number(value)) else None
    {
      GetAppends(keys, Opt(key, value, present), c);
    }
  }

  lemma GetTwo(keys: seq<Key>, k: Key, l: Key)
    ensures forall c :: Get(keys + [k, l], c)
                        == if Get(keys, c).Some? then Get(keys, c) else if c == k.0 then Some(k.1)
                          else if c == l.0 then Some(l.1) else None
  {
    forall c
      ensures Get(keys + [k, l], c)
              == if Get(keys, c).Some? then Get(keys, c) else if c == k.0 then Some(k.1)
                else if c == l.0 then Some(l.1) else None
    {
      GetAppends(keys, [k, l], c);
      GetAppends([k], [l], c);
      assert [k] + [l] == [k, l] && [k][1..] == [] && [l][1..] == [];
      assert Get([k], c) == if c == k.0 then Some(k.1) else None;
      assert Get([l], c) == if c == l.0 then Some(l.1) else None;
    }
  }

  lemma GetOne(keys: seq<Key>, k: Key)
    ensures forall c :: Get(keys + [k], c) == if Get(keys, c).Some? then Get(keys, c)
              else if c == k.0 then Some(k.1) else None
  {
    forall c
      ensures Get(keys + [k], c) == if Get(keys, c).Some? then Get(keys, c) else if c == k.0 then Some(k.1) else None
    {
      GetAppends(keys, [k], c);
    }
  }

  lemma PlaceHeadGet(cmd: Command)
    requires cmd.Place?
    ensures forall c :: Get(PlaceHead(cmd), c) ==
              (if c == 'a' then Some("p")
               else if c == 'i' then Some(Number(cmd.image))
               else if c == 'p' && cmd.id != 0 then Some(Number(cmd.id))
               else if c == 'c' && cmd.width > 0 then Some(Number(cmd.width))
               else if c == 'r' && cmd.height > 0 then Some(Number(cmd.height))
               else None)
  {
    hide Number, Get, Opt;
    var k0 := [('a', "p"), ('i', Number(cmd.image))];
    assert [] + k0 == k0;
    GetNone();
    GetTwo([], ('a', "p"), ('i', Number(cmd.image)));
    var k1 := k0 + Opt('p', cmd.id, cmd.id != 0);
    GetOpt(k0, 'p', cmd.id, cmd.id != 0);
    GetOpt(k1, 'c', cmd.width, cmd.width > 0);
    GetOpt(k1 + Opt('c', cmd.width, cmd.width > 0), 'r', cmd.height, cmd.height > 0);
  }

  /** The keys of a placement, looked up one by one. */
  lemma PlaceKeysGet(cmd: Command, c: char)
    requires cmd.Place? && c in ['a', 'i', 'p', 'c', 'r', 'x', 'y', 'w', 'h', 'z']
    ensures Get(PlaceKeys(cmd), c) ==
              if c == 'x' then (if cmd.srcX > 0 then Some(Number(cmd.srcX)) else None)
              else if c == 'y' then (if cmd.srcY > 0 then Some(Number(cmd.srcY)) else None)
              else if c == 'w' then (if cmd.srcW > 0 then Some(Number(cmd.srcW)) else None)
              else if c == 'h' then (if cmd.srcH > 0 then Some(Number(cmd.srcH)) else None)
              else if c == 'z' then (if cmd.zIndex != 0 then Some(Number(cmd.zIndex)) else None)
              else Get(PlaceHead(cmd), c)
  {
    hide Number, Get, Opt, PlaceHead;
    PlaceHeadGet(cmd);
    var k3 := PlaceHead(cmd);
    var k4 := k3 + Opt('x', cmd.srcX, cmd.srcX > 0);
    GetOpt(k3, 'x', cmd.srcX, cmd.srcX > 0);
    var k5 := k4 + Opt('y', cmd.srcY, cmd.srcY > 0);
    GetOpt(k4, 'y', cmd.srcY, cmd.srcY > 0);
    var k6 := k5 + Opt('w', cmd.srcW, cmd.srcW > 0);
    GetOpt(k5, 'w', cmd.srcW, cmd.srcW > 0);
    var k7 := k6 + Opt('h', cmd.srcH, cmd.srcH > 0);
    GetOpt(k6, 'h', cmd.srcH, cmd.srcH > 0);
    var k8 := k7 + Opt('z', cmd.zIndex, cmd.zIndex != 0);
    GetOpt(k7, 'z', cmd.zIndex, cmd.zIndex != 0);
    GetTwo(k8, ('C', "1"), ('q', "2"));
    assert PlaceKeys(cmd) == k8 + [('C', "1"), ('q', "2")];
  }

  /** Every number of a placement reads back, absent ones as zero. */
  lemma PlaceNumbers(cmd: Command)
    requires cmd.Place?
    ensures var keys := PlaceKeys(cmd);
            && Get(keys, 'a') == Some("p")
            && GetNumber(keys, 'i') == Some(cmd.image) && GetNumber(keys, 'p') == Some(cmd.id)
            && GetNumber(keys, 'c') == Some(AtLeastZero(cmd.width))
               && GetNumber(keys, 'r') == Some(AtLeastZero(cmd.height))
            && GetNumber(keys, 'x') == Some(AtLeastZero(cmd.srcX))
               && GetNumber(keys, 'y') == Some(AtLeastZero(cmd.srcY))
            && GetNumber(keys, 'w') == Some(AtLeastZero(cmd.srcW))
               && GetNumber(keys, 'h') == Some(AtLeastZero(cmd.srcH))
            && GetNumber(keys, 'z') == Some(cmd.zIndex)
  {
    hide Number, ReadNumber, Get, PlaceKeys, PlaceHead;
    PlaceHeadGet(cmd);
    forall c | c in ['a', 'i', 'p', 'c', 'r', 'x', 'y', 'w', 'h', 'z']
      ensures Get(PlaceKeys(cmd), c) ==
                if c == 'x' then (if cmd.srcX > 0 then Some(Number(cmd.srcX)) else None)
                else if c == 'y' then (if cmd.srcY > 0 then Some(Number(cmd.srcY)) else None)
                else if c == 'w' then (if cmd.srcW > 0 then Some(Number(cmd.srcW)) else None)
                else if c == 'h' then (if cmd.srcH > 0 then Some(Number(cmd.srcH)) else None)
                else if c == 'z' then (if cmd.zIndex != 0 then Some(Number(cmd.zIndex)) else None)
                else Get(PlaceHead(cmd), c)
    {
      PlaceKeysGet(cmd, c);
    }
    forall n
      ensures ReadNumber(Number(n)) == Some(n)
    {
      NumberReadsBack(n);
    }
  }

  lemma GetNone()
    ensures forall c :: Get([], c) == None
  {
  }

  lemma PlaceReadsBack(reader: Reader, cmd: Command)
    requires cmd.Place? && cmd.row >= 0 && cmd.col >= 0 && reader.upload.None?
    ensures var r := FeedAll(reader, TokensOf(cmd));
            r.Some? && r.value.0.upload.None? && r.value.1 == Effective(cmd)
  {
    hide Number, ReadNumber, Get, GetNumber, PlaceKeys;
    var cursor, apc := Cursor(cmd.row + 1, cmd.col + 1), Apc(PlaceKeys(cmd), "");
    var mid := reader.(row := cmd.row, col := cmd.col);
    PlaceNumbers(cmd);
    assert Feed(mid, apc) == Some((mid, Effective(cmd)));
    FeedOne(reader, cursor);
    FeedOne(mid, apc);
    assert [cursor] + [apc] == [cursor, apc];
    FeedAllAppends(reader, [cursor], [apc]);
  }

  lemma DeleteReadsBack(reader: Reader, cmd: Command)
    requires cmd.Delete? && reader.upload.None?
    ensures FeedAll(reader, TokensOf(cmd)) == Some((reader, Effective(cmd)))
  {
    hide Number, ReadNumber, Get, Opt;
    var kind := if cmd.free then "I" else "i";
    var k0 := [('a', "d"), ('d', kind)];
    assert [] + k0 == k0;
    GetNone();
    GetTwo([], ('a', "d"), ('d', kind));
    var k1 := k0 + [('i', Number(cmd.image))];
    GetOne(k0, ('i', Number(cmd.image)));
    var k2 := k1 + Opt('p', cmd.id, cmd.id != 0);
    GetOpt(k1, 'p', cmd.id, cmd.id != 0);
    GetOne(k2, ('q', "2"));
    assert DeleteKeys(cmd) == k2 + [('q', "2")];
    NumberReadsBack(cmd.image);
    NumberReadsBack(cmd.id);
    FeedOne(reader, Apc(DeleteKeys(cmd), ""));
  }

  /** The header of an upload, looked up behind whatever keys follow it. */
  lemma HeaderGet(cmd: Command, more: seq<Key>)
    requires cmd.Transmit?
    requires Get(more, 's') == None && Get(more, 'v') == None
    ensures var keys, format := HeaderKeys(cmd) + more, FormatCode(cmd.format);
            && Get(keys, 'a') == Some("t") && Get(keys, 'f') == Some(Number(format))
               && Get(keys, 'i') == Some(Number(cmd.image))
            && Get(keys, 's') == (if format != 100 then Some(Number(cmd.width)) else None)
            && Get(keys, 'v') == (if format != 100 then Some(Number(cmd.height)) else None)
            && Get(keys, 'm') == Get(more, 'm')
  {
    hide Number, Get, Opt;
    var format := FormatCode(cmd.format);
    var k0 := [('a', "t"), ('f', Number(format))];
    assert [] + k0 == k0;
    GetNone();
    GetTwo([], ('a', "t"), ('f', Number(format)));
    var k1 := k0 + [('i', Number(cmd.image))];
    GetOne(k0, ('i', Number(cmd.image)));
    var k2 := k1 + Opt('s', cmd.width, format != 100);
    GetOpt(k1, 's', cmd.width, format != 100);
    var k3 := k2 + Opt('v', cmd.height, format != 100);
    GetOpt(k2, 'v', cmd.height, format != 100);
    assert HeaderKeys(cmd) == k3;
    forall c
      ensures Get(k3 + more, c) == if Get(k3, c).Some? then Get(k3, c) else Get(more, c)
    {
      GetAppends(k3, more, c);
    }
  }

  /** Header and payload together say what was uploaded. */
  lemma HeaderReadsBack(cmd: Command, more: seq<Key>)
    requires cmd.Transmit?
    requires Get(more, 's') == None && Get(more, 'v') == None
    ensures ReadTransmit(HeaderKeys(cmd) + more, Base64(cmd.data)) == Some(Effective(cmd)[0])
  {
    hide Number, ReadNumber, Get, HeaderKeys, Base64, Unbase64;
    HeaderGet(cmd, more);
    Base64ReadsBack(cmd.data);
    NumberReadsBack(FormatCode(cmd.format));
    NumberReadsBack(cmd.image);
    NumberReadsBack(cmd.width);
    NumberReadsBack(cmd.height);
  }

  // --------------------------------------------------------------------- chunks

  /** Chunks are full except possibly the last, and are the text when put together. */
  lemma {:induction false} ChunksAre(s: string, size: nat)
    requires size > 0
    ensures var r := Chunks(s, size);
            && Joined(r) == s
            && (forall i :: 0 <= i < |r| - 1 ==> |r[i]| == size)
            && (r != [] ==> 0 < |r[|r| - 1]| <= size)
            && (|s| > size ==> |r| > 1)
    decreases |s|
  {
    if s != "" {
      var end := if |s| < size then |s| else size;
      ChunksAre(s[end..], size);
      JoinedPrepends(s[..end], Chunks(s[end..], size));
      assert s == s[..end] + s[end..];
    }
  }

  /** What terminals ask of uploads in pieces. */
  lemma ChunksFit(cmd: Command)
    requires cmd.Transmit?
    ensures var tokens := TransmitTokens(cmd);
            && tokens != []
            && (forall i :: 0 <= i < |tokens| ==>
                  tokens[i].Apc? && |tokens[i].payload| <= CHUNK_SIZE && |tokens[i].payload| % 4 == 0)
            && (|tokens| > 1 ==> forall i :: 0 <= i < |tokens| ==>
                  Get(tokens[i].keys, 'm') == Some(if i == |tokens| - 1 then "0" else "1"))
  {
    hide Base64, Chunks, HeaderKeys, Get, Number;
    var text := Base64(cmd.data);
    if |text| > CHUNK_SIZE {
      var chunks := Chunks(text, CHUNK_SIZE);
      ChunksAre(text, CHUNK_SIZE);
      PiecesOf4(chunks, CHUNK_SIZE);
      forall i | 0 <= i < |chunks|
        ensures Get(ChunkToken(cmd, chunks, i).keys, 'm') == Some(if i == |chunks| - 1 then "0" else "1")
      {
        MoreGet(if i == |chunks| - 1 then "0" else "1");
        HeaderGet(cmd, [('m', if i == |chunks| - 1 then "0" else "1"), ('q', "2")]);
      }
    }
  }

  lemma MoreGet(more: string)
    ensures var keys := [('m', more), ('q', "2")];
            Get(keys, 'm') == Some(more) && Get(keys, 's') == None && Get(keys, 'v') == None
  {
    hide Get;
    GetNone();
    GetTwo([], ('m', more), ('q', "2"));
    assert [] + [('m', more), ('q', "2")] == [('m', more), ('q', "2")];
  }

  /** If the whole and all pieces but the last are multiples of four, so is the last. */
  lemma {:induction false} PiecesOf4(parts: seq<string>, size: nat)
    requires parts != [] && size % 4 == 0 && |Joined(parts)| % 4 == 0
    requires forall i :: 0 <= i < |parts| - 1 ==> |parts[i]| == size
    ensures forall i :: 0 <= i < |parts| ==> |parts[i]| % 4 == 0
  {
    var n: nat := |parts| - 1;
    FullPieces(parts[..n], size);
    LastOf4(|Joined(parts[..n])|, |parts[n]|);
  }

  lemma LastOf4(a: nat, b: nat)
    requires a % 4 == 0 && (a + b) % 4 == 0
    ensures b % 4 == 0
  {
  }

  lemma SumOf4(a: nat, b: nat)
    requires a % 4 == 0 && b % 4 == 0
    ensures (a + b) % 4 == 0
  {
  }

  lemma {:induction false} FullPieces(parts: seq<string>, size: nat)
    requires size % 4 == 0 && forall i :: 0 <= i < |parts| ==> |parts[i]| == size
    ensures |Joined(parts)| % 4 == 0
  {
    if parts != [] {
      FullPieces(parts[..|parts| - 1], size);
      SumOf4(|Joined(parts[..|parts| - 1])|, size);
    }
  }

  // ------------------------------------------------------- uploads read back

  /** From the i-th chunk on, the upload in progress is completed. */
  lemma {:induction false} ChunksReadBack(reader: Reader, cmd: Command, head: seq<Key>, chunks: seq<string>, i: nat)
    requires cmd.Transmit? && 0 < i < |chunks|
    requires reader.upload == Some((head, Joined(chunks[..i])))
    requires ReadTransmit(head, Joined(chunks)).Some?
    ensures FeedAll(reader, seq(|chunks| - i, k requires 0 <= k < |chunks| - i => ChunkToken(cmd, chunks, i + k)))
            == Some((reader.(upload := None), [ReadTransmit(head, Joined(chunks)).value]))
    decreases |chunks| - i
  {
    hide ReadTransmit, Get, Joined;
    var t := ChunkToken(cmd, chunks, i);
    var tokens := seq(|chunks| - i, k requires 0 <= k < |chunks| - i => ChunkToken(cmd, chunks, i + k));
    MoreGet(if i == |chunks| - 1 then "0" else "1");
    JoinedMore(chunks, i);
    assert tokens[0] == t;
    if i == |chunks| - 1 {
      assert chunks[..i + 1] == chunks;
      assert tokens == [t];
      FeedOne(reader, t);
    } else {
      var next := reader.(upload := Some((head, Joined(chunks[..i + 1]))));
      assert Feed(reader, t) == Some((next, []));
      assert tokens[1..] == seq(|chunks| - (i + 1), k requires 0 <= k < |chunks| - (i + 1) => ChunkToken(cmd,
        chunks, i + 1 + k));
      ChunksReadBack(next, cmd, head, chunks, i + 1);
      FeedQuiet(reader, tokens, next);
    }
  }

  lemma JoinedMore(parts: seq<string>, i: nat)
    requires i < |parts|
    ensures Joined(parts[..i + 1]) == Joined(parts[..i]) + parts[i]
  {
    assert parts[..i + 1][..i] == parts[..i];
  }

  lemma TransmitReadsBack(reader: Reader, cmd: Command)
    requires cmd.Transmit? && reader.upload.None?
    ensures FeedAll(reader, TokensOf(cmd)) == Some((reader, Effective(cmd)))
  {
    hide Base64, Chunks, HeaderKeys, Get, Number, ReadTransmit, Joined;
    var text := Base64(cmd.data);
    if |text| <= CHUNK_SIZE {
      QuietGet();
      HeaderGet(cmd, [('q', "2")]);
      HeaderReadsBack(cmd, [('q', "2")]);
      FeedOne(reader, Apc(HeaderKeys(cmd) + [('q', "2")], text));
    } else {
      var chunks := Chunks(text, CHUNK_SIZE);
      ChunksAre(text, CHUNK_SIZE);
      var more := [('m', "1"), ('q', "2")];
      var head := HeaderKeys(cmd) + more;
      MoreGet("1");
      HeaderGet(cmd, more);
      HeaderReadsBack(cmd, more);
      FirstJoined(chunks);
      var mid := reader.(upload := Some((head, chunks[0])));
      var tokens := TransmitTokens(cmd);
      assert tokens[0] == Apc(head, chunks[0]);
      assert Feed(reader, tokens[0]) == Some((mid, []));
      assert tokens[1..] == seq(|chunks| - 1, k requires 0 <= k < |chunks| - 1 => ChunkToken(cmd, chunks, 1 + k));
      ChunksReadBack(mid, cmd, head, chunks, 1);
      FeedQuiet(reader, tokens, mid);
    }
  }

  lemma FirstJoined(parts: seq<string>)
    requires parts != []
    ensures Joined(parts[..1]) == parts[0]
  {
    JoinedMore(parts, 0);
    assert parts[..0] == [] && Joined([]) + parts[0] == parts[0];
  }

  lemma QuietGet()
    ensures var keys := [('q', "2")]; Get(keys, 'm') == None && Get(keys, 's') == None && Get(keys, 'v') == None
  {
    assert [('q', "2")][1..] == [];
  }

  lemma CommandReadsBack(reader: Reader, cmd: Command)
    requires reader.upload.None?
    ensures var r := FeedAll(reader, TokensOf(cmd));
            r.Some? && r.value.0.upload.None? && r.value.1 == Effective(cmd)
  {
    hide Effective;
    match cmd
    case Transmit(_, _, _, _, _) => TransmitReadsBack(reader, cmd);
    case Place(_, _, row, col, _, _, _, _, _, _, _) =>
      if row >= 0 && col >= 0 {
        PlaceReadsBack(reader, cmd);
      } else {
        NothingPlaced(cmd);
      }
    case Delete(_, _, _) => DeleteReadsBack(reader, cmd);
  }

  lemma NothingPlaced(cmd: Command)
    requires cmd.Place? && (cmd.row < 0 || cmd.col < 0)
    ensures Effective(cmd) == []
  {
  }

  // ------------------------------------------------------------ whole streams

  function AllTokens(cmds: seq<Command>): seq<Token> {
    if cmds == [] then [] else AllTokens(cmds[..|cmds| - 1]) + TokensOf(cmds[|cmds| - 1])
  }

  function AllEffective(cmds: seq<Command>): seq<Command> {
    if cmds == [] then [] else AllEffective(cmds[..|cmds| - 1]) + Effective(cmds[|cmds| - 1])
  }

  lemma {:induction false} CommandsReadBack(cmds: seq<Command>)
    ensures var r := FeedAll(START, AllTokens(cmds));
            r.Some? && r.value.0.upload.None? && r.value.1 == AllEffective(cmds)
    decreases |cmds|
  {
    hide Feed, TokensOf, Effective;
    if cmds != [] {
      var front, last := cmds[..|cmds| - 1], cmds[|cmds| - 1];
      CommandsReadBack(front);
      var (mid, _) := FeedAll(START, AllTokens(front)).value;
      CommandReadsBack(mid, last);
      FeedAllAppends(START, AllTokens(front), TokensOf(last));
    }
  }

  lemma NumberIsClean(n: int)
    ensures Lacks(Number(n), ',') && Lacks(Number(n), ';')
  {
    hide Number, ReadNumber;
    NumberReadsBack(n);
  }

  ghost predicate AllClean(tokens: seq<Token>) {
    forall i :: 0 <= i < |tokens| ==> Clean(tokens[i])
  }

  lemma OptIsClean(key: char, value: int, present: bool)
    requires key != ',' && key != ';'
    ensures CleanKeys(Opt(key, value, present))
  {
    hide Number;
    NumberIsClean(value);
  }

  ghost predicate CleanKeys(keys: seq<Key>) {
    forall i :: 0 <= i < |keys| ==> CleanKey(keys[i])
  }

  lemma TransmitIsClean(cmd: Command)
    requires cmd.Transmit?
    ensures AllClean(TokensOf(cmd))
  {
    hide Number, Base64, Chunks, HeaderKeys, CleanKeys;
    HeaderIsClean(cmd);
    Base64ReadsBack(cmd.data);
    var text := Base64(cmd.data);
    if |text| <= CHUNK_SIZE {
      CleanApc(HeaderKeys(cmd), [('q', "2")], text);
    } else {
      var chunks := Chunks(text, CHUNK_SIZE);
      ChunksAre(text, CHUNK_SIZE);
      PiecesLack(chunks, ESC);
      forall i | 0 <= i < |chunks|
        ensures Clean(ChunkToken(cmd, chunks, i))
      {
        var more := [('m', if i == |chunks| - 1 then "0" else "1"), ('q', "2")];
        CleanApc(if i == 0 then HeaderKeys(cmd) else [], more, chunks[i]);
        assert [] + more == more;
      }
    }
  }

  lemma CleanApc(head: seq<Key>, more: seq<Key>, payload: string)
    requires head == [] || CleanKeys(head)
    requires Lacks(payload, ESC)
    requires more == [('q', "2")] || more == [('m', "0"), ('q', "2")] || more == [('m', "1"), ('q', "2")]
    ensures Clean(Apc(head + more, payload))
  {
    assert CleanKeys(more);
  }

  lemma HeaderIsClean(cmd: Command)
    requires cmd.Transmit?
    ensures CleanKeys(HeaderKeys(cmd))
  {
    hide Number, Opt;
    var format := FormatCode(cmd.format);
    NumberIsClean(format);
    NumberIsClean(cmd.image);
    OptIsClean('s', cmd.width, format != 100);
    OptIsClean('v', cmd.height, format != 100);
  }

  lemma PlaceHeadIsClean(cmd: Command)
    requires cmd.Place?
    ensures CleanKeys(PlaceHead(cmd))
  {
    hide Number, Opt;
    NumberIsClean(cmd.image);
    OptIsClean('p', cmd.id, cmd.id != 0);
    OptIsClean('c', cmd.width, cmd.width > 0);
    OptIsClean('r', cmd.height, cmd.height > 0);
  }

  lemma CleanAppends(a: seq<Key>, b: seq<Key>)
    requires CleanKeys(a) && CleanKeys(b)
    ensures CleanKeys(a + b)
  {
  }

  lemma PlaceIsClean(cmd: Command)
    requires cmd.Place?
    ensures CleanKeys(PlaceKeys(cmd))
  {
    hide Number, Opt, PlaceHead, CleanKeys;
    PlaceHeadIsClean(cmd);
    var k3 := PlaceHead(cmd);
    var k4 := k3 + Opt('x', cmd.srcX, cmd.srcX > 0);
    OptIsClean('x', cmd.srcX, cmd.srcX > 0);
    CleanAppends(k3, Opt('x', cmd.srcX, cmd.srcX > 0));
    var k5 := k4 + Opt('y', cmd.srcY, cmd.srcY > 0);
    OptIsClean('y', cmd.srcY, cmd.srcY > 0);
    CleanAppends(k4, Opt('y', cmd.srcY, cmd.srcY > 0));
    var k6 := k5 + Opt('w', cmd.srcW, cmd.srcW > 0);
    OptIsClean('w', cmd.srcW, cmd.srcW > 0);
    CleanAppends(k5, Opt('w', cmd.srcW, cmd.srcW > 0));
    var k7 := k6 + Opt('h', cmd.srcH, cmd.srcH > 0);
    OptIsClean('h', cmd.srcH, cmd.srcH > 0);
    CleanAppends(k6, Opt('h', cmd.srcH, cmd.srcH > 0));
    var k8 := k7 + Opt('z', cmd.zIndex, cmd.zIndex != 0);
    OptIsClean('z', cmd.zIndex, cmd.zIndex != 0);
    CleanAppends(k7, Opt('z', cmd.zIndex, cmd.zIndex != 0));
    QuietIsClean();
    CleanAppends(k8, [('C', "1"), ('q', "2")]);
    assert PlaceKeys(cmd) == k8 + [('C', "1"), ('q', "2")];
  }

  lemma QuietIsClean()
    ensures CleanKeys([('C', "1"), ('q', "2")])
  {
  }

  lemma CommandIsClean(cmd: Command)
    ensures AllClean(TokensOf(cmd))
  {
    hide Number, Opt;
    if cmd.Transmit? {
      TransmitIsClean(cmd);
    } else if cmd.Place? {
      PlaceIsClean(cmd);
    } else {
      NumberIsClean(cmd.image);
      OptIsClean('p', cmd.id, cmd.id != 0);
    }
  }

  lemma {:induction false} PiecesLack(parts: seq<string>, c: char)
    requires Lacks(Joined(parts), c)
    ensures forall i :: 0 <= i < |parts| ==> Lacks(parts[i], c)
  {
    if parts != [] {
      var front, last := parts[..|parts| - 1], parts[|parts| - 1];
      var whole := Joined(front) + last;
      assert Joined(front) == whole[..|Joined(front)|] && last == whole[|Joined(front)|..];
      PiecesLack(front, c);
    }
  }

  lemma {:induction false} AllAreClean(cmds: seq<Command>)
    ensures AllClean(AllTokens(cmds))
  {
    hide TokensOf, Clean;
    if cmds != [] {
      AllAreClean(cmds[..|cmds| - 1]);
      CommandIsClean(cmds[|cmds| - 1]);
    }
  }

  /** The escapes of any list of commands parse back to what those commands amount to. */
  lemma StreamReadsBack(cmds: seq<Command>)
    ensures Parse(PrintAll(AllTokens(cmds))) == Some(AllEffective(cmds))
  {
    hide FeedAll, Scan, Clean, PrintAll;
    AllAreClean(cmds);
    TokensReadBack(AllTokens(cmds));
    CommandsReadBack(cmds);
  }

  // ------------------------------------------------------------ tmux passthrough

  /** Escapes inside a passthrough are doubled. */
  function Doubled(s: string): string {
    if s == "" then "" else (if s[0] == ESC then [ESC, ESC] else [s[0]]) + Doubled(s[1..])
  }

  function WrapTmux(s: string): string {
    PASSTHROUGH + Doubled(s) + [ESC, '\\']
  }

  /** The text of the passthrough that ends first, and what follows it. */
  function Inner(s: string): (r: Option<(string, string)>)
    ensures r.Some? ==> |r.value.1| < |s|
  {
    if s == "" then None
    else if s[0] == ESC then
      if |s| == 1 then None
      else if s[1] == '\\' then Some(("", s[2..]))
      else if s[1] == ESC then
        var rest := Inner(s[2..]);
        if rest.None? then None else Some(([ESC] + rest.value.0, rest.value.1))
      else None
    else
      var rest := Inner(s[1..]);
      if rest.None? then None else Some(([s[0]] + rest.value.0, rest.value.1))
  }

  const PASSTHROUGH: string := [ESC] + "Ptmux;"

  /** What tmux passes on of a stream of passthroughs. */
  function Unwrap(s: string): Option<string>
    decreases |s|
  {
    if s == "" then Some("")
    else if |s| < 7 || s[..7] != PASSTHROUGH then None
    else
      var inner := Inner(s[7..]);
      if inner.None? then None
      else
        var rest := Unwrap(inner.value.1);
        if rest.None? then None else Some(inner.value.0 + rest.value)
  }

  lemma InnerStep(c: char, tail: string)
    requires Inner(tail).Some?
    ensures Inner((if c == ESC then [ESC, ESC]
              else [c]) + tail) == Some(([c] + Inner(tail).value.0, Inner(tail).value.1))
  {
    var first := if c == ESC then [ESC, ESC] else [c];
    assert (first + tail)[|first|..] == tail;
  }

  lemma InnerEnds(rest: string)
    ensures Inner([ESC, '\\'] + rest) == Some(("", rest))
  {
    assert ([ESC, '\\'] + rest)[2..] == rest;
  }

  lemma {:induction false} InnerReadsBack(s: string, rest: string)
    ensures Inner(Doubled(s) + ([ESC, '\\'] + rest)) == Some((s, rest))
  {
    hide Inner;
    var end := [ESC, '\\'] + rest;
    if s == "" {
      InnerEnds(rest);
      assert Doubled(s) + end == end;
    } else {
      var first := if s[0] == ESC then [ESC, ESC] else [s[0]];
      InnerReadsBack(s[1..], rest);
      InnerStep(s[0], Doubled(s[1..]) + end);
      assert (first + Doubled(s[1..])) + end == first + (Doubled(s[1..]) + end);
      assert [s[0]] + s[1..] == s;
    }
  }

  lemma Regroup(a: string, b: string, c: string, d: string)
    ensures ((a + b) + c) + d == a + (b + (c + d))
  {
  }

  lemma WrapReadsBack(s: string, rest: string)
    requires Unwrap(rest).Some?
    ensures Unwrap(WrapTmux(s) + rest) == Some(s + Unwrap(rest).value)
  {
    hide Inner, Doubled;
    var whole := WrapTmux(s) + rest;
    var tail := Doubled(s) + ([ESC, '\\'] + rest);
    InnerReadsBack(s, rest);
    Regroup(PASSTHROUGH, Doubled(s), [ESC, '\\'], rest);
    assert whole == PASSTHROUGH + tail;
    assert whole[..7] == PASSTHROUGH && whole[7..] == tail;
  }

  lemma {:induction false} UnwrapAppends(a: string, b: string)
    requires Unwrap(a).Some? && Unwrap(b).Some?
    ensures Unwrap(a + b) == Some(Unwrap(a).value + Unwrap(b).value)
    decreases |a|
  {
    hide Inner;
    if a == "" {
      assert a + b == b && "" + Unwrap(b).value == Unwrap(b).value;
    } else {
      var (inner, rest) := Inner(a[7..]).value;
      InnerExtends(a[7..], b);
      UnwrapAppends(rest, b);
      assert inner + (Unwrap(rest).value + Unwrap(b).value) == (inner + Unwrap(rest).value) + Unwrap(b).value;
      assert (a + b)[..7] == a[..7] && (a + b)[7..] == a[7..] + b;
    }
  }

  lemma {:induction false} InnerExtends(a: string, b: string)
    requires Inner(a).Some?
    ensures Inner(a + b) == Some((Inner(a).value.0, Inner(a).value.1 + b))
    decreases |a|
  {
    if a[0] == ESC && a[1] == '\\' {
      assert (a + b)[2..] == a[2..] + b;
    } else if a[0] == ESC {
      assert (a + b)[2..] == a[2..] + b;
      InnerExtends(a[2..], b);
    } else {
      assert (a + b)[1..] == a[1..] + b;
      InnerExtends(a[1..], b);
    }
  }
}
