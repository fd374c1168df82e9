/**
  The format table of the MessagePack specification, section "Formats", byte by byte:
  which bytes spell which header, and that the reader and the writer keep to it.
 */
module WireFormat {
  import opened Format
  import opened Encoding

  // ---------------------------------------------------------------- byte order

  /** The byte of i that counts in units of Range(k); for negative i, of its two's complement. */
  function ByteOf(i: int, k: nat): byte {
    i / Range(k) % 0x100
  }

  /** The w bytes at pos are those of i, most significant first. */
  predicate BigEndian(s: seq<byte>, pos: nat, i: int, w: nat)
    requires pos + w <= |s|
  {
    forall j :: pos <= j < pos + w ==> s[j] == ByteOf(i, pos + w - 1 - j)
  }

  lemma QuotientIs(n: int, d: int, q: int, r: int)
    requires d > 0 && n == d * q + r && 0 <= r < d
    ensures n / d == q && n % d == r
  {
    var e := q - n / d;
    assert n == d * (n / d) + n % d;
    assert d * q - d * (n / d) == d * e;
    assert -d < d * e < d;
    Between(d, e);
  }

  lemma Between(d: int, e: int)
    requires d > 0 && -d < d * e < d
    ensures e == 0
  {
  }

  /** Taking off the last byte first. */
  lemma LastByteOff(i: int, k: nat)
    ensures i / 0x100 / Range(k) == i / Range(k + 1)
    ensures i % Range(k + 1) == 0x100 * (i / 0x100 % Range(k)) + i % 0x100
  {
    var high, r := i / 0x100, Range(k);
    var q, rest := high / r, high % r;
    assert Range(k + 1) == 0x100 * r;
    calc {
      i;
      0x100 * (r * q + rest) + i % 0x100;
      0x100 * (r * q) + (0x100 * rest + i % 0x100);
      { assert 0x100 * (r * q) == (0x100 * r) * q; }
      Range(k + 1) * q + (0x100 * rest + i % 0x100);
    }
    QuotientIs(i, Range(k + 1), q, 0x100 * rest + i % 0x100);
  }

  lemma ByteAbove(i: int, k: nat)
    ensures ByteOf(i / 0x100, k) == ByteOf(i, k + 1)
  {
    LastByteOff(i, k);
  }

  lemma LowByte(i: int)
    ensures ByteOf(i, 0) == i % 0x100
  {
    assert i / Range(0) == i;
  }

  /** One more byte at the end. */
  lemma BigEndianMore(s: seq<byte>, pos: nat, i: int, w: nat)
    requires w > 0 && pos + w <= |s|
    ensures BigEndian(s, pos, i, w) <==>
              BigEndian(s, pos, i / 0x100, w - 1) && s[pos + w - 1] == i % 0x100
  {
    hide ByteOf;
    LowByte(i);
    forall j | pos <= j < pos + w - 1
      ensures s[j] == ByteOf(i / 0x100, pos + (w - 1) - 1 - j) <==> s[j] == ByteOf(i, pos + w - 1 - j)
    {
      ByteAbove(i, pos + (w - 1) - 1 - j);
    }
  }

  /** A stored number has its most significant byte first. */
  lemma {:induction false} StoreIsBigEndian(n: nat, w: nat)
    ensures BigEndian(Store(n, w), 0, n, w)
  {
    hide BigEndian;
    if w > 0 {
      StoreIsBigEndian(n / 0x100, w - 1);
      BigEndianMore(Store(n, w), 0, n, w);
      BigEndianOnly(Store(n / 0x100, w - 1), Store(n, w), n / 0x100, w - 1);
    } else {
      EmptyField(Store(n, w), n);
    }
  }

  lemma BigEndianOnly(s: seq<byte>, t: seq<byte>, i: int, w: nat)
    requires w <= |s| <= |t| && s == t[..|s|] && BigEndian(s, 0, i, w)
    ensures BigEndian(t, 0, i, w)
  {
    hide ByteOf;
  }

  lemma EmptyField(s: seq<byte>, i: int)
    ensures BigEndian(s, 0, i, 0)
  {
  }

  /** The bytes of any integer load as that integer, up to what the field can hold. */
  lemma {:induction false} BigEndianIsLoaded(s: seq<byte>, pos: nat, i: int, w: nat)
    requires pos + w <= |s| && BigEndian(s, pos, i, w)
    ensures Load(s, pos, w) == i % Range(w)
    decreases w
  {
    hide BigEndian;
    if w > 0 {
      BigEndianMore(s, pos, i, w);
      BigEndianIsLoaded(s, pos, i / 0x100, w - 1);
      LastByteOff(i, w - 1);
    }
  }

  /** Whatever bytes a field has, they are those of the loaded number. */
  lemma {:induction false} LoadedIsBigEndian(s: seq<byte>, pos: nat, w: nat)
    requires pos + w <= |s|
    ensures BigEndian(s, pos, Load(s, pos, w), w)
  {
    if w > 0 {
      LoadedIsBigEndian(s, pos, w - 1);
      LoadedLast(s, pos, w);
      hide BigEndian, Load;
      BigEndianMore(s, pos, Load(s, pos, w), w);
    }
  }

  lemma LoadedLast(s: seq<byte>, pos: nat, w: nat)
    requires w > 0 && pos + w <= |s|
    ensures Load(s, pos, w) / 0x100 == Load(s, pos, w - 1) && Load(s, pos, w) % 0x100 == s[pos + w - 1]
  {
    var front := Load(s, pos, w - 1);
    assert Load(s, pos, w) == front * 0x100 + s[pos + w - 1];
  }

  /** Adding what a field wraps around at changes none of its bytes. */
  lemma {:induction false} BytesWrap(i: int, w: nat, k: nat)
    requires k < w
    ensures ByteOf(i + Range(w), k) == ByteOf(i, k)
    decreases k
  {
    hide ByteOf;
    assert Range(w) == 0x100 * Range(w - 1);
    if k > 0 {
      assert (i + Range(w)) / 0x100 == i / 0x100 + Range(w - 1);
      BytesWrap(i / 0x100, w - 1, k - 1);
      ByteAbove(i, k - 1);
      ByteAbove(i + Range(w), k - 1);
    } else {
      LowByte(i);
      LowByte(i + Range(w));
    }
  }

  lemma WrappedIsBigEndian(s: seq<byte>, pos: nat, i: int, w: nat)
    requires pos + w <= |s|
    ensures BigEndian(s, pos, i + Range(w), w) <==> BigEndian(s, pos, i, w)
  {
    hide ByteOf, Range;
    forall j | pos <= j < pos + w
      ensures s[j] == ByteOf(i + Range(w), pos + w - 1 - j) <==> s[j] == ByteOf(i, pos + w - 1 - j)
    {
      BytesWrap(i, w, pos + w - 1 - j);
    }
  }

  // ----------------------------------------------------------- the format table

  /** A lead byte and, behind it, the w bytes of a number. */
  predicate Field(s: seq<byte>, pos: nat, lead: byte, i: int, w: nat) {
    pos + 1 + w <= |s| && s[pos] == lead && BigEndian(s, pos + 1, i, w)
  }

  /** One of the forms with a field, by its lead byte, the width of its field and the numbers it can hold. */
  predicate UsesForm(s: seq<byte>, pos: nat, size: nat, lead: byte, w: nat, i: int, least: int, most: int) {
    size == 1 + w && least <= i <= most && Field(s, pos, lead, i, w)
  }

  predicate Single(s: seq<byte>, pos: nat, size: nat, b: int) {
    size == 1 && pos < |s| && s[pos] == b
  }

  predicate SpellsUnsigned(s: seq<byte>, pos: nat, u: int, size: nat) {
    || (0 <= u <= 0x7f && Single(s, pos, size, u))
    || UsesForm(s, pos, size, 0xcc, 1, u, 0, 0xff)
    || UsesForm(s, pos, size, 0xcd, 2, u, 0, 0xffff)
    || UsesForm(s, pos, size, 0xce, 4, u, 0, 0xffff_ffff)
    || UsesForm(s, pos, size, 0xcf, 8, u, 0, 0xffff_ffff_ffff_ffff)
  }

  predicate SpellsSigned(s: seq<byte>, pos: nat, i: int, size: nat) {
    || (-0x20 <= i <= -1 && Single(s, pos, size, 0x100 + i))
    || UsesForm(s, pos, size, 0xd0, 1, i, -0x80, 0x7f)
    || UsesForm(s, pos, size, 0xd1, 2, i, -0x8000, 0x7fff)
    || UsesForm(s, pos, size, 0xd2, 4, i, -0x8000_0000, 0x7fff_ffff)
    || UsesForm(s, pos, size, 0xd3, 8, i, -0x8000_0000_0000_0000, 0x7fff_ffff_ffff_ffff)
  }

  /** What a header says as a number. */
  function NumberIn(tag: Tag): int {
    match tag
    case UIntTag(u) => u
    case IntTag(i) => i
    case FloatTag(bits) => bits
    case DoubleTag(bits) => bits
    case StrTag(len) => len
    case BinTag(len) => len
    case ArrayTag(count) => count
    case MapTag(count) => count
    case _ => 0
  }

  /** The bytes at pos spell this header. */
  predicate Spells(s: seq<byte>, pos: nat, tag: Tag, size: nat) {
    match tag
    case NilTag => Single(s, pos, size, 0xc0)
    case BoolTag(b) => Single(s, pos, size, if b then 0xc3 else 0xc2)
    case UIntTag(u) => SpellsUnsigned(s, pos, u, size)
    case IntTag(i) => SpellsSigned(s, pos, i, size)
    case FloatTag(bits) => UsesForm(s, pos, size, 0xca, 4, bits, 0, 0xffff_ffff)
    case DoubleTag(bits) => UsesForm(s, pos, size, 0xcb, 8, bits, 0, 0xffff_ffff_ffff_ffff)
    case StrTag(len) =>
      || (len <= 31 && Single(s, pos, size, 0xa0 + len))
      || UsesForm(s, pos, size, 0xd9, 1, len, 0, 0xff)
      || UsesForm(s, pos, size, 0xda, 2, len, 0, 0xffff)
      || UsesForm(s, pos, size, 0xdb, 4, len, 0, 0xffff_ffff)
    case BinTag(len) =>
      || UsesForm(s, pos, size, 0xc4, 1, len, 0, 0xff)
      || UsesForm(s, pos, size, 0xc5, 2, len, 0, 0xffff)
      || UsesForm(s, pos, size, 0xc6, 4, len, 0, 0xffff_ffff)
    case ArrayTag(count) =>
      || (count <= 15 && Single(s, pos, size, 0x90 + count))
      || UsesForm(s, pos, size, 0xdc, 2, count, 0, 0xffff)
      || UsesForm(s, pos, size, 0xdd, 4, count, 0, 0xffff_ffff)
    case MapTag(count) =>
      || (count <= 15 && Single(s, pos, size, 0x80 + count))
      || UsesForm(s, pos, size, 0xde, 2, count, 0, 0xffff)
      || UsesForm(s, pos, size, 0xdf, 4, count, 0, 0xffff_ffff)
  }

  /** The lead bytes of extension types. */
  predicate LeadsExtension(b: byte) {
    0xc7 <= b <= 0xc9 || 0xd4 <= b <= 0xd8
  }

  /** Reading an unsigned field gives the number its bytes spell, and no other. */
  lemma UnsignedField(s: seq<byte>, pos: nat, i: int, w: nat)
    requires pos + w <= |s|
    ensures 0 <= i < Range(w) && BigEndian(s, pos, i, w) <==> i == Load(s, pos, w)
  {
    hide BigEndian, Load, Range;
    LoadedIsBigEndian(s, pos, w);
    if 0 <= i < Range(w) && BigEndian(s, pos, i, w) {
      BigEndianIsLoaded(s, pos, i, w);
      QuotientIs(i, Range(w), 0, i);
    }
  }

  /** Reading a signed field gives the number whose two's complement its bytes are, and no other. */
  lemma SignedField(s: seq<byte>, pos: nat, i: int, w: nat)
    requires pos + w <= |s| && w in {1, 2, 4, 8}
    ensures -(Range(w) / 2) <= i < Range(w) / 2 && BigEndian(s, pos, i, w) <==> i == Signed(Load(s, pos, w), w)
  {
    hide BigEndian, Load;
    RangeValues();
    LoadedIsBigEndian(s, pos, w);
    WrappedIsBigEndian(s, pos, Load(s, pos, w) - Range(w), w);
    if -(Range(w) / 2) <= i < Range(w) / 2 && BigEndian(s, pos, i, w) {
      BigEndianIsLoaded(s, pos, i, w);
    }
  }

  /** What a lead byte with a field makes of that field. */
  lemma WideIffSpelled(s: seq<byte>, pos: nat, tag: Tag, size: nat)
    requires pos < |s| && LeadOf(s[pos]).Wide?
    ensures HeaderAt(s, pos) == Head(tag, size) <==> Spells(s, pos, tag, size)
  {
    hide Load, Signed, BigEndian, Range;
    RangeValues();
    var w := LeadOf(s[pos]).width;
    if pos + 1 + w <= |s| {
      UnsignedField(s, pos + 1, NumberIn(tag), w);
      SignedField(s, pos + 1, NumberIn(tag), w);
    }
  }

  /** A header is read exactly as the format table spells it: every form of every tag, and nothing else. */
  lemma HeaderIffSpelled(s: seq<byte>, pos: nat, tag: Tag, size: nat)
    requires pos <= |s|
    ensures HeaderAt(s, pos) == Head(tag, size) <==> Spells(s, pos, tag, size)
  {
    hide Load, Signed, BigEndian;
    if pos < |s| && LeadOf(s[pos]).Wide? {
      WideIffSpelled(s, pos, tag, size);
    }
  }

  /** What is not spelled is refused: as an extension type, or as cut off or reserved. */
  lemma HeaderRefused(s: seq<byte>, pos: nat, error: Error)
    requires pos <= |s|
    ensures HeaderAt(s, pos) == NoHead(error) <==>
            && (forall tag, size :: !Spells(s, pos, tag, size))
            && error == if pos < |s| && LeadsExtension(s[pos]) then Unsupported else Invalid
  {
    hide Spells, Load, Signed, WideTag;
    var h := HeaderAt(s, pos);
    if h.Head? {
      HeaderIffSpelled(s, pos, h.tag, h.size);
    }
    forall tag, size | Spells(s, pos, tag, size)
      ensures h == Head(tag, size)
    {
      HeaderIffSpelled(s, pos, tag, size);
    }
  }

  // ----------------------------------------------------------------- the writer

  /** The lead byte of a spelled header is fixed by what it says and its size. */
  lemma SpelledLead(s: seq<byte>, pos: nat, t: seq<byte>, at: nat, tag: Tag, size: nat)
    requires Spells(s, pos, tag, size) && Spells(t, at, tag, size)
    ensures 0 < size && pos + size <= |s| && at + size <= |t| && s[pos] == t[at]
  {
    hide BigEndian;
  }

  lemma SpelledField(s: seq<byte>, pos: nat, tag: Tag, size: nat)
    requires Spells(s, pos, tag, size) && size > 1
    ensures pos + size <= |s| && BigEndian(s, pos + 1, NumberIn(tag), size - 1)
  {
    hide BigEndian;
  }

  lemma SameBytes(s: seq<byte>, pos: nat, t: seq<byte>, at: nat, i: int, w: nat)
    requires pos + w <= |s| && at + w <= |t| && BigEndian(s, pos, i, w) && BigEndian(t, at, i, w)
    ensures s[pos..pos + w] == t[at..at + w]
  {
    hide ByteOf;
    var a, b := s[pos..pos + w], t[at..at + w];
    forall k | 0 <= k < w
      ensures a[k] == b[k]
    {
      assert s[pos + k] == ByteOf(i, pos + w - 1 - (pos + k));
      assert t[at + k] == ByteOf(i, at + w - 1 - (at + k));
    }
  }

  /** No two headers of one size say the same. */
  lemma SpelledAlike(s: seq<byte>, pos: nat, t: seq<byte>, at: nat, tag: Tag, size: nat)
    requires Spells(s, pos, tag, size) && Spells(t, at, tag, size)
    ensures pos + size <= |s| && at + size <= |t| && s[pos..pos + size] == t[at..at + size]
  {
    SpelledLead(s, pos, t, at, tag, size);
    hide Spells, BigEndian;
    if size > 1 {
      SpelledField(s, pos, tag, size);
      SpelledField(t, at, tag, size);
      SameBytes(s, pos + 1, t, at + 1, NumberIn(tag), size - 1);
    }
    assert s[pos..pos + size] == [s[pos]] + s[pos + 1..pos + 1 + (size - 1)];
    assert t[at..at + size] == [t[at]] + t[at + 1..at + 1 + (size - 1)];
  }

  /** No header that says the same is shorter. */
  ghost predicate IsShortest(tag: Tag, size: nat) {
    forall s, pos, n :: Spells(s, pos, tag, n) ==> size <= n
  }

  /** The writer emits the shortest spelling the format table has for what is written, and there is only one. */
  lemma WrittenIffShortest(s: seq<byte>, pos: nat, size: nat, tag: Tag)
    requires ValidTag(tag) && pos + size <= |s|
    ensures s[pos..pos + size] == EncodeTag(tag) <==>
              Spells(s, pos, CanonicalTag(tag), size) && IsShortest(CanonicalTag(tag), size)
  {
    hide Spells, EncodeTag, CanonicalTag, HeaderAt;
    var written, said := EncodeTag(tag), CanonicalTag(tag);
    TagReadsBack(written, 0, tag);
    HeaderIffSpelled(written, 0, said, |written|);
    forall t, at, n | Spells(t, at, said, n)
      ensures |written| <= n
    {
      SpelledInside(t, at, said, n);
      HeaderIffSpelled(t, at, said, n);
      CanonicalTwice(tag);
      TagIsShortest(t, at, tag);
    }
    if s[pos..pos + size] == written {
      TagReadsBack(s, pos, tag);
      HeaderIffSpelled(s, pos, said, size);
    }
    if Spells(s, pos, said, size) && IsShortest(said, size) {
      SpelledAlike(s, pos, written, 0, said, size);
    }
  }

  lemma SpelledInside(s: seq<byte>, pos: nat, tag: Tag, size: nat)
    requires Spells(s, pos, tag, size)
    ensures pos < |s|
  {
    hide BigEndian;
  }

  lemma CanonicalTwice(tag: Tag)
    ensures CanonicalTag(CanonicalTag(tag)) == CanonicalTag(tag)
  {
  }

  // ----------------------------------------------------- behind the header

  /** The content or the elements that a value's header, as spelled, announces behind it. */
  predicate Announces(tag: Tag, v: Value) {
    match v
    case Nil => tag == NilTag
    case Bool(b) => tag == BoolTag(b)
    case UInt(u) => tag == UIntTag(u)
    case Int(i) => tag == IntTag(i)
    case Float(bits) => tag == FloatTag(bits)
    case Double(bits) => tag == DoubleTag(bits)
    case Str(bytes) => tag == StrTag(|bytes|)
    case Bin(bytes) => tag == BinTag(|bytes|)
    case Array(items) => tag == ArrayTag(|items|)
    case Map(items) => tag.MapTag? && |items| == 2 * tag.count
  }

  function ItemsOf(v: Value): seq<Value> {
    match v
    case Array(items) => items
    case Map(items) => items
    case _ => []
  }

  /**
    A decoded value is a spelled header, the announced content or elements right
    behind it, the first element first, and nothing else.
   */
  lemma DecodedIsSpelled(s: seq<byte>, pos: nat, v: Value, end: nat) returns (tag: Tag, size: nat)
    requires pos <= |s| && DecodeValue(s, pos) == Done(v, end)
    ensures Spells(s, pos, tag, size) && Announces(tag, v)
    ensures v.Str? || v.Bin? ==> pos + size <= end <= |s| && s[pos + size..end] == v.bytes
    ensures !v.Str? && !v.Bin? ==>
              pos + size <= |s| && Skip(s, pos + size, |ItemsOf(v)|) == At(end)
              && forall k :: 0 <= k < |ItemsOf(v)| ==>
                   Skip(s, pos + size, k).At? && DecodeValue(s, Skip(s, pos + size, k).pos).Done?
                   && DecodeValue(s, Skip(s, pos + size, k).pos).value == ItemsOf(v)[k]
  {
    hide HeaderAt, Spells, DecodeValues, Skip;
    tag, size := HeaderAt(s, pos).tag, HeaderAt(s, pos).size;
    HeaderIffSpelled(s, pos, tag, size);
    var body := pos + size + Payload(tag);
    DecodeSkipsAll(s, body, Children(tag));
    NoValues(s, body);
    forall k | 0 <= k < Children(tag)
      ensures Skip(s, body, k).At? && DecodeValue(s, Skip(s, body, k).pos).Done?
              && DecodeValue(s, Skip(s, body, k).pos).value == DecodeValues(s, body, Children(tag)).value[k]
    {
      ElementAt(s, body, Children(tag), k);
    }
  }

  /** The k-th of n values is the one behind the first k. */
  lemma {:induction false} ElementAt(s: seq<byte>, pos: nat, n: nat, k: nat)
    requires pos <= |s| && DecodeValues(s, pos, n).Done? && k < n
    ensures Skip(s, pos, k).At?
    ensures var mid := Skip(s, pos, k).pos;
            DecodeValue(s, mid).Done? && DecodeValue(s, mid).value == DecodeValues(s, pos, n).value[k]
  {
    hide DecodeValue, Skip;
    if k < n - 1 {
      ElementAt(s, pos, n - 1, k);
    } else {
      DecodeSkipsAll(s, pos, k);
    }
  }

  // --------------------------------------------------------------- what is refused

  /** Going over n values by their headers, an extension type comes up before the data runs out. */
  predicate MeetsExtension(s: seq<byte>, pos: nat, n: nat)
    requires pos <= |s|
    decreases |s| - pos
  {
    n > 0 && pos < |s| &&
    (LeadsExtension(s[pos]) ||
     match HeaderAt(s, pos)
     case NoHead(_) => false
     case Head(tag, size) =>
       var body := pos + size + Payload(tag);
       body <= |s| && MeetsExtension(s, body, n - 1 + Children(tag)))
  }

  /** The error that stops the decoding of n values. */
  function Reason(s: seq<byte>, pos: nat, n: nat): Error
    requires pos <= |s|
  {
    if MeetsExtension(s, pos, n) then Unsupported else Invalid
  }

  lemma {:induction false} MeetsSplits(s: seq<byte>, pos: nat, a: nat, b: nat)
    requires pos <= |s|
    ensures MeetsExtension(s, pos, a + b) <==>
              MeetsExtension(s, pos, a) || (Skip(s, pos, a).At? && MeetsExtension(s, Skip(s, pos, a).pos, b))
    decreases |s| - pos
  {
    hide HeaderAt, Payload, Children;
    if a > 0 && pos < |s| && !LeadsExtension(s[pos]) {
      var header := HeaderAt(s, pos);
      if header.Head? {
        var body := pos + header.size + Payload(header.tag);
        if body <= |s| {
          assert a + b - 1 + Children(header.tag) == (a - 1 + Children(header.tag)) + b;
          MeetsSplits(s, body, a - 1 + Children(header.tag), b);
        }
      }
    }
  }

  /** Decoding fails as unsupported exactly when an extension type comes up before the data runs out. */
  lemma {:induction false} DecodeFailsFor(s: seq<byte>, pos: nat)
    requires pos <= |s|
    ensures DecodeValue(s, pos).Failed? ==> DecodeValue(s, pos).error == Reason(s, pos, 1)
    ensures DecodeValue(s, pos).Done? ==> !MeetsExtension(s, pos, 1)
    decreases |s| - pos, 0, 0
  {
    hide Spells, Payload, Children, Assemble, DecodeValues;
    match HeaderAt(s, pos)
    case NoHead(error) => HeaderRefused(s, pos, error);
    case Head(tag, size) =>
      hide HeaderAt;
      NotExtension(s, pos);
      var body := pos + size + Payload(tag);
      if body <= |s| {
        DecodeAllFailsFor(s, body, Children(tag));
      }
  }

  lemma NotExtension(s: seq<byte>, pos: nat)
    requires pos < |s| && HeaderAt(s, pos).Head?
    ensures !LeadsExtension(s[pos])
  {
    hide Load, Signed, WideTag;
  }

  lemma {:induction false} DecodeAllFailsFor(s: seq<byte>, pos: nat, n: nat)
    requires pos <= |s|
    ensures DecodeValues(s, pos, n).Failed? ==> DecodeValues(s, pos, n).error == Reason(s, pos, n)
    ensures DecodeValues(s, pos, n).Done? ==> !MeetsExtension(s, pos, n)
    decreases |s| - pos, 1, n
  {
    hide HeaderAt, DecodeValue, Skip, MeetsExtension;
    if n > 0 {
      DecodeAllFailsFor(s, pos, n - 1);
      DecodeSkipsAll(s, pos, n - 1);
      MeetsSplits(s, pos, n - 1, 1);
      if DecodeValues(s, pos, n - 1).Done? {
        DecodeFailsFor(s, DecodeValues(s, pos, n - 1).end);
      }
    } else {
      NoneMet(s, pos);
    }
  }

  lemma NoneMet(s: seq<byte>, pos: nat)
    requires pos <= |s|
    ensures !MeetsExtension(s, pos, 0)
  {
  }
}
