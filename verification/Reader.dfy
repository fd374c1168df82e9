/**
  The in-memory reader: a cursor over a buffer that parses headers, skips bytes
  and discards whole values. There is no fill function, so running out of bytes
  is an error that also empties the reader.
 */
module Reading {
  import opened Format

  datatype Flag = Ok | Flagged(error: Error)

  class Reader {
    const buffer: array<byte>
    var data: nat
    var end: nat
    var flag: Flag

    ghost predicate Valid()
      reads this
    {
      && data <= end <= buffer.Length
      && (flag.Flagged? ==> end == data)
    }

    /** The bytes the reader was given that it may still look at. */
    ghost function Source(): (s: seq<byte>)
      reads this, buffer
      requires Valid()
      ensures |s| == end
    {
      buffer[..end]
    }

    constructor (buffer: array<byte>, count: nat)
      requires count <= buffer.Length
      ensures Valid() && flag == Ok
      ensures this.buffer == buffer && data == 0 && end == count
    {
      this.buffer := buffer;
      data, end, flag := 0, count, Ok;
    }

    method FlagError(error: Error)
      requires Valid()
      modifies this
      ensures Valid() && data == old(data)
      ensures old(flag) == Ok ==> flag == Flagged(error)
      ensures old(flag) != Ok ==> flag == old(flag) && end == old(end)
    {
      if flag == Ok {
        flag := Flagged(error);
        end := data;
      }
    }

    method Ensure(count: nat) returns (ok: bool)
      requires Valid() && flag == Ok
      modifies this
      ensures Valid() && data == old(data)
      ensures ok == (old(data) + count <= old(end))
      ensures ok ==> flag == Ok && end == old(end)
      ensures !ok ==> flag == Flagged(Invalid)
    {
      if count <= end - data {
        return true;
      }
      FlagError(Invalid);
      return false;
    }

    /** Ensures a header with a w-byte field is present and loads the field. */
    method LoadField(w: nat) returns (ok: bool, field: nat)
      requires Valid() && flag == Ok && data < end
      modifies this
      ensures Valid() && data == old(data)
      ensures ok == (old(data) + 1 + w <= old(end))
      ensures ok ==> flag == Ok && end == old(end) && field == Load(old(Source()), data + 1, w)
      ensures !ok ==> flag == Flagged(Invalid)
    {
      field := 0;
      ok := Ensure(1 + w);
      if ok {
        field := Load(buffer[..end], data + 1, w);
      }
    }

    /** mpack_parse_tag: the tag and its size, or size 0 after flagging an error. */
    method ParseTag() returns (tag: Tag, count: nat)
      requires Valid() && flag == Ok
      modifies this
      ensures Valid() && data == old(data)
      ensures match HeaderAt(old(Source()), old(data))
              case Head(t, size) => tag == t && count == size && flag == Ok && end == old(end)
              case NoHead(error) => count == 0 && flag == Flagged(error)
    {
      tag, count := NilTag, 0;
      var ok := Ensure(1);
      if !ok { return; }
      var lead: int := buffer[data];
      if lead <= 0x7f {
        return UIntTag(lead), 1;
      } else if lead >= 0xe0 {
        return IntTag(lead - 0x100), 1;
      } else if lead <= 0x8f {
        return MapTag(lead - 0x80), 1;
      } else if lead <= 0x9f {
        return ArrayTag(lead - 0x90), 1;
      } else if lead <= 0xbf {
        return StrTag(lead - 0xa0), 1;
      } else if lead == 0xc0 {
        return NilTag, 1;
      } else if lead == 0xc2 || lead == 0xc3 {
        return BoolTag(lead % 2 == 1), 1;
      } else if lead == 0xc1 {
        FlagError(Invalid);
      } else if 0xca <= lead <= 0xd3 {
        tag, count := ParseNumber(lead);
      } else if 0xc4 <= lead <= 0xc6 || 0xd9 <= lead {
        tag, count := ParseLength(lead);
      } else {
        FlagError(Unsupported);
      }
    }

    /** The float, double, unsigned and signed cases of the switch. */
    method ParseNumber(lead: byte) returns (tag: Tag, count: nat)
      requires Valid() && flag == Ok && data < end
      requires buffer[data] == lead && 0xca <= lead <= 0xd3
      modifies this
      ensures Valid() && data == old(data)
      ensures match HeaderAt(old(Source()), old(data))
              case Head(t, size) => tag == t && count == size && flag == Ok && end == old(end)
              case NoHead(error) => count == 0 && flag == Flagged(error)
    {
      hide Load, Signed;
      tag, count := NilTag, 0;
      var w :=
        match lead
        case 0xcc => 1 case 0xd0 => 1
        case 0xcd => 2 case 0xd1 => 2
        case 0xca => 4 case 0xce => 4 case 0xd2 => 4
        case _ => 8;
      assert LeadOf(lead).Wide? && LeadOf(lead).width == w;
      var ok, field := LoadField(w);
      if !ok { return; }
      count := 1 + w;
      if lead == 0xca {
        tag := FloatTag(field);
      } else if lead == 0xcb {
        tag := DoubleTag(field);
      } else if lead <= 0xcf {
        tag := UIntTag(field);
      } else {
        tag := IntTag(Signed(field, w));
      }
    }

    /** The binary, string, array and map cases of the switch. */
    method ParseLength(lead: byte) returns (tag: Tag, count: nat)
      requires Valid() && flag == Ok && data < end
      requires buffer[data] == lead && (0xc4 <= lead <= 0xc6 || 0xd9 <= lead <= 0xdf)
      modifies this
      ensures Valid() && data == old(data)
      ensures match HeaderAt(old(Source()), old(data))
              case Head(t, size) => tag == t && count == size && flag == Ok && end == old(end)
              case NoHead(error) => count == 0 && flag == Flagged(error)
    {
      hide Load;
      tag, count := NilTag, 0;
      var w :=
        match lead
        case 0xc4 => 1 case 0xd9 => 1
        case 0xc5 => 2 case 0xda => 2 case 0xdc => 2 case 0xde => 2
        case _ => 4;
      assert LeadOf(lead).Wide? && LeadOf(lead).width == w;
      var ok, field := LoadField(w);
      if !ok { return; }
      count := 1 + w;
      if lead <= 0xc6 {
        tag := BinTag(field);
      } else if lead <= 0xdb {
        tag := StrTag(field);
      } else if lead <= 0xdd {
        tag := ArrayTag(field);
      } else {
        tag := MapTag(field);
      }
    }

    method ReadTag() returns (tag: Tag)
      requires Valid()
      modifies this
      ensures Valid()
      ensures old(flag) != Ok ==> tag == NilTag && flag == old(flag) && data == old(data) && end == old(end)
      ensures old(flag) == Ok ==>
                match HeaderAt(old(Source()), old(data))
                case Head(t, size) => tag == t && data == old(data) + size && flag == Ok && end == old(end)
                case NoHead(error) => tag == NilTag && data == old(data) && flag == Flagged(error)
    {
      if flag != Ok {
        return NilTag;
      }
      var count;
      tag, count := ParseTag();
      if count == 0 {
        return NilTag;
      }
      data := data + count;
    }

    method SkipBytes(count: nat)
      requires Valid()
      modifies this
      ensures Valid()
      ensures old(flag) != Ok ==> flag == old(flag) && data == old(data) && end == old(end)
      ensures old(flag) == Ok && old(data) + count <= old(end) ==>
                flag == Ok && data == old(data) + count && end == old(end)
      ensures old(flag) == Ok && old(data) + count > old(end) ==> flag == Flagged(Invalid) && data == old(data)
    {
      if flag != Ok {
        return;
      }
      if end - data >= count {
        data := data + count;
        return;
      }
      FlagError(Invalid);
    }

    /**
      Steps over one value by recursion. It succeeds exactly when the decoder
      does, ends at the same byte, and otherwise flags the decoder's error.
     */
    method Discard()
      requires Valid()
      modifies this
      ensures Valid() && old(data) <= data && end <= old(end)
      ensures old(flag) != Ok ==> flag == old(flag) && data == old(data) && end == old(end)
      ensures old(flag) == Ok ==>
                match DecodeValue(old(Source()), old(data))
                case Done(_, stop) => flag == Ok && data == stop && end == old(end)
                case Failed(error) => flag == Flagged(error)
      decreases end - data, 0
    {
      hide HeaderAt, DecodeValue;
      ghost var s, start := Source(), data;
      var tag := ReadTag();
      HeadDecides(s, start);
      if flag != Ok {
        return;
      }
      match tag
      case StrTag(len) =>
        SkipBytes(len);
      case BinTag(len) =>
        SkipBytes(len);
      case ArrayTag(count) =>
        DiscardItems(count);
      case MapTag(count) =>
        DiscardPairs(count);
      case _ =>
    }

    /** The array arm: one element after another until the count or an error is reached. */
    method DiscardItems(count: nat)
      requires Valid() && flag == Ok
      modifies this
      ensures Valid() && old(data) <= data && end <= old(end)
      ensures match DecodeValues(old(Source()), old(data), count)
              case Done(_, stop) => flag == Ok && data == stop && end == old(end)
              case Failed(error) => flag == Flagged(error)
      decreases end - data, 1
    {
      hide DecodeValue;
      ghost var s, body := Source(), data;
      var left: nat := count;
      while left > 0
        invariant Valid() && left <= count && body <= data
        invariant flag == Ok && end == |s| && s == Source()
        invariant DecodeValues(s, body, count - left).Done?
        invariant DecodeValues(s, body, count - left).end == data
      {
        Discard();
        if flag != Ok {
          FailurePersists(s, body, count - left + 1, count);
          break;
        }
        left := left - 1;
      }
    }

    /** The map arm: a failed key makes the value's discard a no-op. */
    method DiscardPairs(count: nat)
      requires Valid() && flag == Ok
      modifies this
      ensures Valid() && old(data) <= data && end <= old(end)
      ensures match DecodeValues(old(Source()), old(data), 2 * count)
              case Done(_, stop) => flag == Ok && data == stop && end == old(end)
              case Failed(error) => flag == Flagged(error)
      decreases end - data, 1
    {
      hide DecodeValue;
      ghost var s, body := Source(), data;
      var left: nat := count;
      while left > 0
        invariant Valid() && left <= count && body <= data
        invariant flag == Ok && end == |s| && s == Source()
        invariant DecodeValues(s, body, 2 * (count - left)).Done?
        invariant DecodeValues(s, body, 2 * (count - left)).end == data
      {
        ghost var done := 2 * (count - left);
        Discard();
        ghost var keyFailed := flag != Ok;
        Discard();
        if flag != Ok {
          FailurePersists(s, body, if keyFailed then done + 1 else done + 2, 2 * count);
          break;
        }
        left := left - 1;
      }
    }
  }

  /** What is left to decide about a value once its header is known. */
  lemma HeadDecides(s: seq<byte>, pos: nat)
    requires pos <= |s|
    ensures match HeaderAt(s, pos)
            case NoHead(error) => DecodeValue(s, pos) == Failed(error)
            case Head(tag, size) =>
              var body := pos + size + Payload(tag);
              if body > |s| then DecodeValue(s, pos) == Failed(Invalid)
              else
                match DecodeValues(s, body, Children(tag))
                case Failed(error) => DecodeValue(s, pos) == Failed(error)
                case Done(_, stop) => DecodeValue(s, pos).Done? && DecodeValue(s, pos).end == stop
  {
    hide HeaderAt;
  }

  /** Once one of several values fails to decode, asking for more values fails the same way. */
  lemma {:induction false} FailurePersists(s: seq<byte>, pos: nat, n: nat, m: nat)
    requires pos <= |s| && n <= m
    requires DecodeValues(s, pos, n).Failed?
    ensures DecodeValues(s, pos, m) == DecodeValues(s, pos, n)
    decreases m
  {
    if n < m {
      FailurePersists(s, pos, n, m - 1);
    }
  }
}
