/**
  The MessagePack data format as the C client's codec uses it: headers, values,
  a recursive decoder and an encoder that knows every count in advance.
  Extension types are compiled out, so their lead bytes are rejected.
  Floats and doubles are kept as their raw 4- and 8-byte payloads.
 */
module Format {

  type byte = x: int | 0 <= x < 0x100

  datatype Error = Invalid | Unsupported | TooBig | Io | Bug

  // ---------------------------------------------------------------- integers

  /** The number of values a w-byte field can hold. */
  function Range(w: nat): (r: nat)
    ensures r >= 1
  {
    if w == 0 then 1 else 0x100 * Range(w - 1)
  }

  lemma RangeValues()
    ensures Range(1) == 0x100 && Range(2) == 0x1_0000
    ensures Range(4) == 0x1_0000_0000 && Range(8) == 0x1_0000_0000_0000_0000
  {
    assert Range(2) == 0x100 * Range(1);
    assert Range(3) == 0x100 * Range(2);
    assert Range(4) == 0x100 * Range(3);
    assert Range(5) == 0x100 * Range(4);
    assert Range(6) == 0x100 * Range(5);
    assert Range(7) == 0x100 * Range(6);
  }

  /** Big-endian load of w bytes at pos. */
  function Load(s: seq<byte>, pos: nat, w: nat): (n: nat)
    requires pos + w <= |s|
    ensures n < Range(w)
  {
    if w == 0 then 0 else Load(s, pos, w - 1) * 0x100 + s[pos + w - 1]
  }

  /** Big-endian store of the low w bytes of n. */
  function Store(n: nat, w: nat): (s: seq<byte>)
    ensures |s| == w
  {
    if w == 0 then [] else Store(n / 0x100, w - 1) + [n % 0x100]
  }

  /** Two's-complement reading of a w-byte field. */
  function Signed(n: nat, w: nat): int {
    if n < Range(w) / 2 then n else n - Range(w)
  }

  /** Two's-complement field of a signed number. */
  function Unsigned(i: int, w: nat): (n: nat)
    requires 0 <= i + Range(w)
  {
    if i < 0 then i + Range(w) else i
  }

  lemma {:induction false} LoadAgrees(s: seq<byte>, t: seq<byte>, pos: nat, w: nat)
    requires pos + w <= |s| && pos + w <= |t|
    requires forall i :: pos <= i < pos + w ==> s[i] == t[i]
    ensures Load(s, pos, w) == Load(t, pos, w)
  {
    if w > 0 {
      LoadAgrees(s, t, pos, w - 1);
    }
  }

  lemma {:induction false} LoadStored(s: seq<byte>, pos: nat, n: nat, w: nat)
    requires pos + w <= |s| && n < Range(w)
    requires s[pos..pos + w] == Store(n, w)
    ensures Load(s, pos, w) == n
  {
    if w > 0 {
      var stored := s[pos..pos + w];
      assert s[pos..pos + w - 1] == stored[..w - 1] == Store(n / 0x100, w - 1);
      LoadStored(s, pos, n / 0x100, w - 1);
      assert s[pos + w - 1] == stored[w - 1] == n % 0x100;
    }
  }

  // ----------------------------------------------------------------- headers

  /** What a header announces; lengths and counts are not yet checked against the data. */
  datatype Tag =
    | NilTag
    | BoolTag(b: bool)
    | UIntTag(u: nat)
    | IntTag(i: int)
    | FloatTag(bits: nat)
    | DoubleTag(bits: nat)
    | StrTag(len: nat)
    | BinTag(len: nat)
    | ArrayTag(count: nat)
    | MapTag(count: nat)

  datatype Family = UIntFamily | IntFamily | FloatFamily | DoubleFamily
                  | StrFamily | BinFamily | ArrayFamily | MapFamily

  /** The format table, by lead byte. */
  datatype Lead = Fixed(tag: Tag) | Wide(family: Family, width: nat) | Rejected(error: Error)

  function LeadOf(b: byte): (r: Lead)
    ensures r.Wide? ==> r.width in {1, 2, 4, 8}
  {
    if b < 0x80 then Fixed(UIntTag(b))
    else if b < 0x90 then Fixed(MapTag(b - 0x80))
    else if b < 0xa0 then Fixed(ArrayTag(b - 0x90))
    else if b < 0xc0 then Fixed(StrTag(b - 0xa0))
    else if b == 0xc0 then Fixed(NilTag)
    else if b == 0xc1 then Rejected(Invalid)
    else if b == 0xc2 then Fixed(BoolTag(false))
    else if b == 0xc3 then Fixed(BoolTag(true))
    else if b == 0xc4 then Wide(BinFamily, 1)
    else if b == 0xc5 then Wide(BinFamily, 2)
    else if b == 0xc6 then Wide(BinFamily, 4)
    else if b <= 0xc9 then Rejected(Unsupported)
    else if b == 0xca then Wide(FloatFamily, 4)
    else if b == 0xcb then Wide(DoubleFamily, 8)
    else if b == 0xcc then Wide(UIntFamily, 1)
    else if b == 0xcd then Wide(UIntFamily, 2)
    else if b == 0xce then Wide(UIntFamily, 4)
    else if b == 0xcf then Wide(UIntFamily, 8)
    else if b == 0xd0 then Wide(IntFamily, 1)
    else if b == 0xd1 then Wide(IntFamily, 2)
    else if b == 0xd2 then Wide(IntFamily, 4)
    else if b == 0xd3 then Wide(IntFamily, 8)
    else if b <= 0xd8 then Rejected(Unsupported)
    else if b == 0xd9 then Wide(StrFamily, 1)
    else if b == 0xda then Wide(StrFamily, 2)
    else if b == 0xdb then Wide(StrFamily, 4)
    else if b == 0xdc then Wide(ArrayFamily, 2)
    else if b == 0xdd then Wide(ArrayFamily, 4)
    else if b == 0xde then Wide(MapFamily, 2)
    else if b == 0xdf then Wide(MapFamily, 4)
    else Fixed(IntTag(b - 0x100))
  }

  function WideTag(family: Family, field: nat, w: nat): Tag {
    match family
    case UIntFamily => UIntTag(field)
    case IntFamily => IntTag(Signed(field, w))
    case FloatFamily => FloatTag(field)
    case DoubleFamily => DoubleTag(field)
    case StrFamily => StrTag(field)
    case BinFamily => BinTag(field)
    case ArrayFamily => ArrayTag(field)
    case MapFamily => MapTag(field)
  }

  datatype Header = Head(tag: Tag, size: nat) | NoHead(error: Error)

  /** The header at pos; running out of bytes reads as Invalid, as it does in memory. */
  function HeaderAt(s: seq<byte>, pos: nat): (h: Header)
    requires pos <= |s|
    ensures h.Head? ==> 0 < h.size <= 9 && pos + h.size <= |s|
  {
    if pos == |s| then NoHead(Invalid)
    else
      match LeadOf(s[pos])
      case Fixed(tag) => Head(tag, 1)
      case Rejected(error) => NoHead(error)
      case Wide(family, w) =>
        if pos + 1 + w <= |s| then Head(WideTag(family, Load(s, pos + 1, w), w), 1 + w)
        else NoHead(Invalid)
  }

  /** Bytes of content that follow the header itself. */
  function Payload(tag: Tag): nat {
    match tag
    case StrTag(len) => len
    case BinTag(len) => len
    case _ => 0
  }

  /** Values that follow the header. */
  function Children(tag: Tag): nat {
    match tag
    case ArrayTag(count) => count
    case MapTag(count) => 2 * count
    case _ => 0
  }

  // ------------------------------------------------------------------ values

  /** Map items alternate key and value. */
  datatype Value =
    | Nil
    | Bool(b: bool)
    | UInt(u: nat)
    | Int(i: int)
    | Float(bits: nat)
    | Double(bits: nat)
    | Str(bytes: seq<byte>)
    | Bin(bytes: seq<byte>)
    | Array(items: seq<Value>)
    | Map(items: seq<Value>)

  datatype Decoded<+T> = Done(value: T, end: nat) | Failed(error: Error)

  /** The value a header with complete contents stands for. */
  function Assemble(tag: Tag, payload: seq<byte>, items: seq<Value>): Value {
    match tag
    case NilTag => Nil
    case BoolTag(b) => Bool(b)
    case UIntTag(u) => UInt(u)
    case IntTag(i) => Int(i)
    case FloatTag(bits) => Float(bits)
    case DoubleTag(bits) => Double(bits)
    case StrTag(_) => Str(payload)
    case BinTag(_) => Bin(payload)
    case ArrayTag(_) => Array(items)
    case MapTag(_) => Map(items)
  }

  function Wrapped(tag: Tag, payload: seq<byte>, items: Decoded<seq<Value>>): Decoded<Value> {
    match items
    case Failed(error) => Failed(error)
    case Done(vs, end) => Done(Assemble(tag, payload, vs), end)
  }

  /** The recursive decoder: one value starting at pos. */
  function DecodeValue(s: seq<byte>, pos: nat): (r: Decoded<Value>)
    requires pos <= |s|
    ensures r.Done? ==> pos < r.end <= |s|
    decreases |s| - pos, 0, 0
  {
    match HeaderAt(s, pos)
    case NoHead(error) => Failed(error)
    case Head(tag, size) =>
      var body := pos + size + Payload(tag);
      if body > |s| then Failed(Invalid)
      else Wrapped(tag, s[pos + size..body], DecodeValues(s, body, Children(tag)))
  }

  /** n values in a row. */
  function DecodeValues(s: seq<byte>, pos: nat, n: nat): (r: Decoded<seq<Value>>)
    requires pos <= |s|
    ensures r.Done? ==> pos <= r.end <= |s| && |r.value| == n
    decreases |s| - pos, 1, n
  {
    if n == 0 then Done([], pos)
    else
      match DecodeValues(s, pos, n - 1)
      case Failed(error) => Failed(error)
      case Done(vs, mid) =>
        match DecodeValue(s, mid)
        case Failed(error) => Failed(error)
        case Done(v, end) => Done(vs + [v], end)
  }

  // --------------------------------------------------- one flat run of headers

  datatype Skipped = At(pos: nat) | Stuck

  /**
    Skips n values by looking at headers only: a compound header simply adds its
    children to the number of values still owed.
   */
  function Skip(s: seq<byte>, pos: nat, n: nat): (r: Skipped)
    requires pos <= |s|
    ensures r.At? ==> pos + n <= r.pos <= |s|
    decreases |s| - pos
  {
    if n == 0 then At(pos)
    else
      match HeaderAt(s, pos)
      case NoHead(_) => Stuck
      case Head(tag, size) =>
        var body := pos + size + Payload(tag);
        if body > |s| then Stuck else Skip(s, body, n - 1 + Children(tag))
  }

  lemma {:induction false} SkipSplits(s: seq<byte>, pos: nat, a: nat, b: nat)
    requires pos <= |s|
    ensures Skip(s, pos, a + b) ==
            (if Skip(s, pos, a).At? then Skip(s, Skip(s, pos, a).pos, b) else Stuck)
    decreases |s| - pos
  {
    hide HeaderAt, Payload, Children;
    if a > 0 {
      var header := HeaderAt(s, pos);
      if header.Head? {
        var body := pos + header.size + Payload(header.tag);
        if body <= |s| {
          assert a + b - 1 + Children(header.tag) == (a - 1 + Children(header.tag)) + b;
          SkipSplits(s, body, a - 1 + Children(header.tag), b);
        }
      }
    }
  }

  /** Flat skipping and recursive decoding succeed together and end at the same byte. */
  lemma {:induction false} DecodeSkips(s: seq<byte>, pos: nat)
    requires pos <= |s|
    ensures DecodeValue(s, pos).Done? <==> Skip(s, pos, 1).At?
    ensures DecodeValue(s, pos).Done? ==> Skip(s, pos, 1) == At(DecodeValue(s, pos).end)
    decreases |s| - pos, 0, 0
  {
    hide HeaderAt, Payload, Children, Assemble, DecodeValues;
    match HeaderAt(s, pos)
    case NoHead(_) =>
    case Head(tag, size) =>
      var body := pos + size + Payload(tag);
      if body <= |s| {
        DecodeSkipsAll(s, body, Children(tag));
      }
  }

  lemma {:induction false} DecodeSkipsAll(s: seq<byte>, pos: nat, n: nat)
    requires pos <= |s|
    ensures DecodeValues(s, pos, n).Done? <==> Skip(s, pos, n).At?
    ensures DecodeValues(s, pos, n).Done? ==> Skip(s, pos, n) == At(DecodeValues(s, pos, n).end)
    decreases |s| - pos, 1, n
  {
    hide HeaderAt, DecodeValue;
    if n > 0 {
      DecodeSkipsAll(s, pos, n - 1);
      SkipSplits(s, pos, n - 1, 1);
      if DecodeValues(s, pos, n - 1).Done? {
        DecodeSkips(s, DecodeValues(s, pos, n - 1).end);
      }
    }
  }

  // ------------------------------------------------------- prefix stability

  lemma HeaderStable(s: seq<byte>, t: seq<byte>, pos: nat)
    requires pos <= |s| && s <= t
    requires HeaderAt(s, pos).Head?
    ensures HeaderAt(t, pos) == HeaderAt(s, pos)
  {
    var lead := LeadOf(s[pos]);
    if lead.Wide? {
      LoadAgrees(s, t, pos + 1, lead.width);
    }
  }

  /** More data never changes a value that is already complete. */
  lemma {:induction false} DecodeStable(s: seq<byte>, t: seq<byte>, pos: nat)
    requires pos <= |s| && s <= t
    requires DecodeValue(s, pos).Done?
    ensures DecodeValue(t, pos) == DecodeValue(s, pos)
    decreases |s| - pos, 0, 0
  {
    HeaderStable(s, t, pos);
    var Head(tag, size) := HeaderAt(s, pos);
    var body := pos + size + Payload(tag);
    assert s[pos + size..body] == t[pos + size..body];
    DecodeAllStable(s, t, body, Children(tag));
  }

  lemma {:induction false} DecodeAllStable(s: seq<byte>, t: seq<byte>, pos: nat, n: nat)
    requires pos <= |s| && s <= t
    requires DecodeValues(s, pos, n).Done?
    ensures DecodeValues(t, pos, n) == DecodeValues(s, pos, n)
    decreases |s| - pos, 1, n
  {
    if n > 0 {
      DecodeAllStable(s, t, pos, n - 1);
      DecodeStable(s, t, DecodeValues(s, pos, n - 1).end);
    }
  }
}
