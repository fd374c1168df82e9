/**
  The one-shot encoder: what the C writer emits for a value whose counts are all
  known beforehand, and its agreement with the decoder.
 */
module Encoding {
  import opened Format

  /** The header the writer emits: the branches of mpack_write_* and mpack_start_*. */
  function EncodeTag(tag: Tag): (s: seq<byte>)
    requires ValidTag(tag)
    ensures 0 < |s| <= 9
  {
    match tag
    case NilTag => [0xc0]
    case BoolTag(b) => [if b then 0xc3 else 0xc2]
    case UIntTag(u) => EncodeUInt(u)
    case IntTag(i) => EncodeInt(i)
    case FloatTag(bits) => [0xca] + Store(bits, 4)
    case DoubleTag(bits) => [0xcb] + Store(bits, 8)
    case StrTag(len) =>
      if len <= 31 then [0xa0 + len]
      else if len <= 0xff then [0xd9] + Store(len, 1)
      else if len <= 0xffff then [0xda] + Store(len, 2)
      else [0xdb] + Store(len, 4)
    case BinTag(len) =>
      if len <= 0xff then [0xc4] + Store(len, 1)
      else if len <= 0xffff then [0xc5] + Store(len, 2)
      else [0xc6] + Store(len, 4)
    case ArrayTag(count) =>
      if count <= 15 then [0x90 + count]
      else if count <= 0xffff then [0xdc] + Store(count, 2)
      else [0xdd] + Store(count, 4)
    case MapTag(count) =>
      if count <= 15 then [0x80 + count]
      else if count <= 0xffff then [0xde] + Store(count, 2)
      else [0xdf] + Store(count, 4)
  }

  function EncodeUInt(u: nat): (s: seq<byte>)
    ensures 0 < |s| <= 9
  {
    if u <= 127 then [u]
    else if u <= 0xff then [0xcc] + Store(u, 1)
    else if u <= 0xffff then [0xcd] + Store(u, 2)
    else if u <= 0xffff_ffff then [0xce] + Store(u, 4)
    else [0xcf] + Store(u, 8)
  }

  function EncodeInt(i: int): (s: seq<byte>)
    requires -0x8000_0000_0000_0000 <= i
    ensures 0 < |s| <= 9
  {
    if i >= 0 then EncodeUInt(i)
    else if i >= -32 then [i + 0x100]
    else if i >= -0x80 then [0xd0] + Store(Unsigned(i, 1), 1)
    else if i >= -0x8000 then [0xd1] + Store(Unsigned(i, 2), 2)
    else if i >= -0x8000_0000 then RangeValues(); [0xd2] + Store(Unsigned(i, 4), 4)
    else RangeValues(); [0xd3] + Store(Unsigned(i, 8), 8)
  }

  /** The numbers and lengths a C caller can pass. */
  predicate ValidTag(tag: Tag) {
    match tag
    case NilTag => true
    case BoolTag(_) => true
    case UIntTag(u) => u < 0x1_0000_0000_0000_0000
    case IntTag(i) => -0x8000_0000_0000_0000 <= i < 0x8000_0000_0000_0000
    case FloatTag(bits) => bits < 0x1_0000_0000
    case DoubleTag(bits) => bits < 0x1_0000_0000_0000_0000
    case StrTag(len) => len < 0x1_0000_0000
    case BinTag(len) => len < 0x1_0000_0000
    case ArrayTag(count) => count < 0x1_0000_0000
    case MapTag(count) => count < 0x1_0000_0000
  }

  /** Non-negative integers have one reading, whichever writer produced them. */
  function CanonicalTag(tag: Tag): Tag {
    if tag.IntTag? && tag.i >= 0 then UIntTag(tag.i) else tag
  }

  lemma SignedInvertsUnsigned(i: int, w: nat)
    requires w in {1, 2, 4, 8}
    requires -(Range(w) / 2) <= i < Range(w) / 2
    ensures Unsigned(i, w) < Range(w) && Signed(Unsigned(i, w), w) == i
  {
    RangeValues();
  }

  lemma WideHeader(s: seq<byte>, pos: nat, lead: byte, field: nat, w: nat)
    requires LeadOf(lead).Wide? && LeadOf(lead).width == w
    requires field < Range(w)
    requires pos + 1 + w <= |s| && s[pos..pos + 1 + w] == [lead] + Store(field, w)
    ensures HeaderAt(s, pos) == Head(WideTag(LeadOf(lead).family, field, w), 1 + w)
  {
    var written := s[pos..pos + 1 + w];
    assert s[pos] == written[0] == lead;
    assert s[pos + 1..pos + 1 + w] == written[1..] == Store(field, w);
    LoadStored(s, pos + 1, field, w);
  }

  lemma FixedHeader(s: seq<byte>, pos: nat, lead: byte)
    requires LeadOf(lead).Fixed?
    requires pos + 1 <= |s| && s[pos..pos + 1] == [lead]
    ensures HeaderAt(s, pos) == Head(LeadOf(lead).tag, 1)
  {
    assert s[pos] == s[pos..pos + 1][0];
  }

  lemma UIntHeader(s: seq<byte>, pos: nat, u: nat)
    requires u < 0x1_0000_0000_0000_0000
    requires pos + |EncodeUInt(u)| <= |s| && s[pos..pos + |EncodeUInt(u)|] == EncodeUInt(u)
    ensures HeaderAt(s, pos) == Head(UIntTag(u), |EncodeUInt(u)|)
  {
    hide HeaderAt, Store, Load;
    RangeValues();
    if u <= 127 {
      FixedHeader(s, pos, u);
    } else if u <= 0xff {
      WideHeader(s, pos, 0xcc, u, 1);
    } else if u <= 0xffff {
      WideHeader(s, pos, 0xcd, u, 2);
    } else if u <= 0xffff_ffff {
      WideHeader(s, pos, 0xce, u, 4);
    } else {
      WideHeader(s, pos, 0xcf, u, 8);
    }
  }

  lemma NegativeHeader(s: seq<byte>, pos: nat, i: int)
    requires -0x8000_0000_0000_0000 <= i < 0
    requires pos + |EncodeInt(i)| <= |s| && s[pos..pos + |EncodeInt(i)|] == EncodeInt(i)
    ensures HeaderAt(s, pos) == Head(IntTag(i), |EncodeInt(i)|)
  {
    hide HeaderAt, Store, Load, Signed, Unsigned;
    RangeValues();
    if i >= -32 {
      FixedHeader(s, pos, i + 0x100);
    } else if i >= -0x80 {
      SignedInvertsUnsigned(i, 1);
      WideHeader(s, pos, 0xd0, Unsigned(i, 1), 1);
    } else if i >= -0x8000 {
      SignedInvertsUnsigned(i, 2);
      WideHeader(s, pos, 0xd1, Unsigned(i, 2), 2);
    } else if i >= -0x8000_0000 {
      SignedInvertsUnsigned(i, 4);
      WideHeader(s, pos, 0xd2, Unsigned(i, 4), 4);
    } else {
      SignedInvertsUnsigned(i, 8);
      WideHeader(s, pos, 0xd3, Unsigned(i, 8), 8);
    }
  }

  lemma LengthHeader(s: seq<byte>, pos: nat, tag: Tag)
    requires ValidTag(tag) && (tag.StrTag? || tag.BinTag?)
    requires pos + |EncodeTag(tag)| <= |s| && s[pos..pos + |EncodeTag(tag)|] == EncodeTag(tag)
    ensures HeaderAt(s, pos) == Head(tag, |EncodeTag(tag)|)
  {
    hide HeaderAt, Store, Load;
    RangeValues();
    var len := tag.len;
    if tag.StrTag? && len <= 31 {
      FixedHeader(s, pos, 0xa0 + len);
    } else if len <= 0xff {
      WideHeader(s, pos, if tag.StrTag? then 0xd9 else 0xc4, len, 1);
    } else if len <= 0xffff {
      WideHeader(s, pos, if tag.StrTag? then 0xda else 0xc5, len, 2);
    } else {
      WideHeader(s, pos, if tag.StrTag? then 0xdb else 0xc6, len, 4);
    }
  }

  lemma CountHeader(s: seq<byte>, pos: nat, tag: Tag)
    requires ValidTag(tag) && (tag.ArrayTag? || tag.MapTag?)
    requires pos + |EncodeTag(tag)| <= |s| && s[pos..pos + |EncodeTag(tag)|] == EncodeTag(tag)
    ensures HeaderAt(s, pos) == Head(tag, |EncodeTag(tag)|)
  {
    hide HeaderAt, Store, Load;
    RangeValues();
    var count := tag.count;
    if count <= 15 {
      FixedHeader(s, pos, (if tag.ArrayTag? then 0x90 else 0x80) + count);
    } else if count <= 0xffff {
      WideHeader(s, pos, if tag.ArrayTag? then 0xdc else 0xde, count, 2);
    } else {
      WideHeader(s, pos, if tag.ArrayTag? then 0xdd else 0xdf, count, 4);
    }
  }

  /** Every header the writer emits is read back as the tag that was written. */
  lemma TagReadsBack(s: seq<byte>, pos: nat, tag: Tag)
    requires ValidTag(tag)
    requires pos + |EncodeTag(tag)| <= |s| && s[pos..pos + |EncodeTag(tag)|] == EncodeTag(tag)
    ensures HeaderAt(s, pos) == Head(CanonicalTag(tag), |EncodeTag(tag)|)
  {
    hide HeaderAt, Store, Load, EncodeUInt, EncodeInt;
    match tag
    case NilTag => FixedHeader(s, pos, 0xc0);
    case BoolTag(b) => FixedHeader(s, pos, if b then 0xc3 else 0xc2);
    case UIntTag(u) => UIntHeader(s, pos, u);
    case IntTag(i) =>
      if i < 0 {
        NegativeHeader(s, pos, i);
      } else {
        NonNegativeEncoding(i);
        UIntHeader(s, pos, i);
      }
    case FloatTag(bits) => RangeValues(); WideHeader(s, pos, 0xca, bits, 4);
    case DoubleTag(bits) => RangeValues(); WideHeader(s, pos, 0xcb, bits, 8);
    case StrTag(_) => LengthHeader(s, pos, tag);
    case BinTag(_) => LengthHeader(s, pos, tag);
    case ArrayTag(_) => CountHeader(s, pos, tag);
    case MapTag(_) => CountHeader(s, pos, tag);
  }

  lemma NonNegativeEncoding(i: int)
    requires i >= 0
    ensures EncodeInt(i) == EncodeUInt(i)
  {
  }

  /** No accepted header with the same meaning is shorter than the one the writer picks. */
  lemma TagIsShortest(s: seq<byte>, pos: nat, tag: Tag)
    requires ValidTag(tag) && pos <= |s|
    requires HeaderAt(s, pos).Head? && CanonicalTag(HeaderAt(s, pos).tag) == CanonicalTag(tag)
    ensures |EncodeTag(tag)| <= HeaderAt(s, pos).size
  {
    RangeValues();
    var lead := LeadOf(s[pos]);
    if lead.Wide? {
      var field := Load(s, pos + 1, lead.width);
      assert field < Range(lead.width);
    }
  }

  // ------------------------------------------------------------------ values

  function TagOf(v: Value): Tag {
    match v
    case Nil => NilTag
    case Bool(b) => BoolTag(b)
    case UInt(u) => UIntTag(u)
    case Int(i) => IntTag(i)
    case Float(bits) => FloatTag(bits)
    case Double(bits) => DoubleTag(bits)
    case Str(bytes) => StrTag(|bytes|)
    case Bin(bytes) => BinTag(|bytes|)
    case Array(items) => ArrayTag(|items|)
    case Map(items) => MapTag(|items| / 2)
  }

  function ContentOf(v: Value): seq<byte> {
    match v
    case Str(bytes) => bytes
    case Bin(bytes) => bytes
    case _ => []
  }

  /** Counts and lengths fit 32 bits and maps pair every key with a value, all the way down. */
  predicate Writable(v: Value) {
    && ValidTag(TagOf(v))
    && match v
       case Array(items) => AllWritable(items)
       case Map(items) => |items| % 2 == 0 && AllWritable(items)
       case _ => true
  }

  predicate AllWritable(items: seq<Value>) {
    forall i :: 0 <= i < |items| ==> Writable(items[i])
  }

  function Encode(v: Value): (s: seq<byte>)
    requires Writable(v)
    ensures |s| > 0
    decreases v, 1
  {
    EncodeTag(TagOf(v)) + BodyOf(v)
  }

  /** Everything after the header. */
  function BodyOf(v: Value): (s: seq<byte>)
    requires Writable(v)
    decreases v, 0
  {
    match v
    case Array(items) => EncodeAll(items)
    case Map(items) => EncodeAll(items)
    case _ => ContentOf(v)
  }

  function EncodeAll(items: seq<Value>): (s: seq<byte>)
    requires AllWritable(items)
    decreases items, 2
  {
    if items == [] then []
    else EncodeAll(items[..|items| - 1]) + Encode(items[|items| - 1])
  }

  /** What the decoder returns for a written value. */
  function Canonical(v: Value): Value {
    match v
    case Int(i) => if i >= 0 then UInt(i) else v
    case Array(items) => Array(CanonicalAll(items))
    case Map(items) => Map(CanonicalAll(items))
    case _ => v
  }

  function CanonicalAll(items: seq<Value>): (r: seq<Value>)
    ensures |r| == |items|
  {
    if items == [] then []
    else CanonicalAll(items[..|items| - 1]) + [Canonical(items[|items| - 1])]
  }

  /** `part` lies in `s` at `pos`. */
  predicate Occurs(part: seq<byte>, s: seq<byte>, pos: nat) {
    pos + |part| <= |s| && s[pos..pos + |part|] == part
  }

  lemma OccursSplit(a: seq<byte>, b: seq<byte>, s: seq<byte>, pos: nat)
    requires Occurs(a + b, s, pos)
    ensures Occurs(a, s, pos) && Occurs(b, s, pos + |a|)
  {
    var both := s[pos..pos + |a + b|];
    assert both[..|a|] == s[pos..pos + |a|];
    assert both[|a|..] == s[pos + |a|..pos + |a| + |b|];
  }

  lemma EncodedParts(s: seq<byte>, pos: nat, v: Value)
    requires Writable(v) && Occurs(Encode(v), s, pos)
    ensures Occurs(EncodeTag(TagOf(v)), s, pos)
    ensures Occurs(BodyOf(v), s, pos + |EncodeTag(TagOf(v))|)
    ensures |Encode(v)| == |EncodeTag(TagOf(v))| + |BodyOf(v)|
  {
    hide EncodeTag, BodyOf;
    OccursSplit(EncodeTag(TagOf(v)), BodyOf(v), s, pos);
  }

  /** A written value reads back equal, wherever it stands, and nothing past it is consumed. */
  lemma {:induction false} ValueReadsBack(s: seq<byte>, pos: nat, v: Value)
    requires Writable(v) && Occurs(Encode(v), s, pos)
    ensures DecodeValue(s, pos) == Done(Canonical(v), pos + |Encode(v)|)
    decreases v, 1
  {
    hide HeaderAt, Encode, EncodeTag, BodyOf, DecodeValues, Writable, Canonical, CanonicalTag, Assemble, Payload,
         Children;
    EncodedParts(s, pos, v);
    WritableTag(v);
    TagReadsBack(s, pos, TagOf(v));
    BodyReadsBack(s, pos + |EncodeTag(TagOf(v))|, v);
  }

  lemma WritableTag(v: Value)
    requires Writable(v)
    ensures ValidTag(TagOf(v))
  {
  }

  /** Content and elements are read back behind the header. */
  lemma BodyReadsBack(s: seq<byte>, body: nat, v: Value)
    requires Writable(v) && Occurs(BodyOf(v), s, body)
    ensures var tag := CanonicalTag(TagOf(v));
            var content := body + Payload(tag);
            && content <= |s|
            && var r := DecodeValues(s, content, Children(tag));
               && r.Done? && r.end == body + |BodyOf(v)|
               && Assemble(tag, s[body..content], r.value) == Canonical(v)
    decreases v, 0
  {
    hide EncodeAll, DecodeValues, CanonicalAll, ValidTag;
    match v
    case Array(items) => ValuesReadBack(s, body, items);
    case Map(items) => ValuesReadBack(s, body, items);
    case _ => NoValues(s, body + |ContentOf(v)|);
  }

  lemma NoValues(s: seq<byte>, pos: nat)
    requires pos <= |s|
    ensures DecodeValues(s, pos, 0) == Done([], pos)
  {
  }

  lemma {:induction false} ValuesReadBack(s: seq<byte>, pos: nat, items: seq<Value>)
    requires AllWritable(items) && Occurs(EncodeAll(items), s, pos)
    ensures DecodeValues(s, pos, |items|) == Done(CanonicalAll(items), pos + |EncodeAll(items)|)
    decreases items, 2
  {
    hide HeaderAt, Encode, Writable, DecodeValue;
    if items != [] {
      var init, last := items[..|items| - 1], items[|items| - 1];
      OccursSplit(EncodeAll(init), Encode(last), s, pos);
      ValuesReadBack(s, pos, init);
      ValueReadsBack(s, pos + |EncodeAll(init)|, last);
    }
  }

  // ---------------------------------------------------------- whole minimality

  /** What decodes to a value says the same in its header as the value's own tag. */
  lemma SameHeader(tag: Tag, payload: seq<byte>, items: seq<Value>, v: Value)
    requires Writable(v) && |payload| == Payload(tag) && |items| == Children(tag)
    requires Canonical(Assemble(tag, payload, items)) == Canonical(v)
    ensures CanonicalTag(tag) == CanonicalTag(TagOf(v))
  {
    hide CanonicalAll;
  }

  /** Any bytes that decode to the value, in whatever form, are at least as long as its encoding. */
  lemma {:induction false} EncodeIsShortest(s: seq<byte>, pos: nat, v: Value)
    requires Writable(v) && pos <= |s| && DecodeValue(s, pos).Done?
    requires Canonical(DecodeValue(s, pos).value) == Canonical(v)
    ensures pos + |Encode(v)| <= DecodeValue(s, pos).end
    decreases v, 1
  {
    hide HeaderAt, DecodeValues, Canonical, CanonicalTag, EncodeTag, Assemble, Payload, Children, BodyOf, Writable;
    var Head(tag, size) := HeaderAt(s, pos);
    var content := pos + size;
    var body := content + Payload(tag);
    var items := DecodeValues(s, body, Children(tag)).value;
    var payload := s[content..body];
    SameHeader(tag, payload, items, v);
    WritableTag(v);
    TagIsShortest(s, pos, TagOf(v));
    BodyIsShortest(s, tag, payload, body, v);
  }

  lemma BodyIsShortest(s: seq<byte>, tag: Tag, payload: seq<byte>, body: nat, v: Value)
    requires Writable(v) && body <= |s| && |payload| == Payload(tag)
    requires DecodeValues(s, body, Children(tag)).Done?
    requires Canonical(Assemble(tag, payload, DecodeValues(s, body, Children(tag)).value)) == Canonical(v)
    ensures body - Payload(tag) + |BodyOf(v)| <= DecodeValues(s, body, Children(tag)).end
    decreases v, 0
  {
    hide HeaderAt, DecodeValue, CanonicalAll;
    var items := DecodeValues(s, body, Children(tag)).value;
    if v.Array? || v.Map? {
      EncodeAllIsShortest(s, body, v.items);
    }
  }

  lemma {:induction false} EncodeAllIsShortest(s: seq<byte>, pos: nat, items: seq<Value>)
    requires AllWritable(items) && pos <= |s| && DecodeValues(s, pos, |items|).Done?
    requires CanonicalAll(DecodeValues(s, pos, |items|).value) == CanonicalAll(items)
    ensures pos + |EncodeAll(items)| <= DecodeValues(s, pos, |items|).end
    decreases items, 2
  {
    hide HeaderAt, DecodeValue, Canonical, Encode, Writable;
    if items != [] {
      var n: nat := |items| - 1;
      var front := DecodeValues(s, pos, n);
      var last := DecodeValue(s, front.end).value;
      assert DecodeValues(s, pos, n + 1).value == front.value + [last];
      CanonicalSplits(front.value, last, items);
      EncodeAllIsShortest(s, pos, items[..n]);
      EncodeIsShortest(s, front.end, items[n]);
    }
  }

  lemma CanonicalSplits(front: seq<Value>, last: Value, items: seq<Value>)
    requires items != [] && CanonicalAll(front + [last]) == CanonicalAll(items)
    ensures CanonicalAll(front) == CanonicalAll(items[..|items| - 1])
              && Canonical(last) == Canonical(items[|items| - 1])
  {
    hide Canonical;
    var n: nat := |items| - 1;
    assert (front + [last])[..|front|] == front;
    var a, b := CanonicalAll(front), CanonicalAll(items[..n]);
    assert a + [Canonical(last)] == b + [Canonical(items[n])];
    assert |a| == |b| && a == (a + [Canonical(last)])[..|a|] && b == (b + [Canonical(items[n])])[..|b|];
    assert (a + [Canonical(last)])[|a|] == Canonical(last);
  }
}
