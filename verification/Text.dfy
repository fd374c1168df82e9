/**
  Text as the escapes use it: decimal numbers and base64.
 */
module Text {
  import Format
  import opened Wrappers

  type byte = Format.byte

  const ESC: char := '\U{1b}'

  // ------------------------------------------------------------------ splitting

  predicate Lacks(s: string, c: char) {
    forall i :: 0 <= i < |s| ==> s[i] != c
  }

  /** Where a character first occurs, or the length. */
  function IndexOf(s: string, c: char): (i: nat)
    ensures i <= |s| && Lacks(s[..i], c)
    ensures i < |s| ==> s[i] == c
  {
    if s == "" || s[0] == c then 0
    else
      var i := IndexOf(s[1..], c) + 1;
      assert s[..i] == [s[0]] + s[1..][..i - 1];
      i
  }

  lemma IndexOfIs(head: string, c: char, tail: string)
    requires Lacks(head, c)
    ensures IndexOf(head + [c] + tail, c) == |head|
  {
    var s := head + [c] + tail;
    var i := IndexOf(s, c);
    assert s[|head|] == c && forall k :: 0 <= k < |head| ==> s[k] == head[k];
    assert forall k :: 0 <= k < i ==> s[..i][k] == s[k];
  }

  // -------------------------------------------------------------------- decimal

  function Digit(d: nat): char
    requires d < 10
  {
    '0' + d as char
  }

  function Decimal(n: nat): (s: string)
    ensures s != "" && s[0] != '-'
  {
    if n < 10 then [Digit(n)] else Decimal(n / 10) + [Digit(n % 10)]
  }

  function Number(i: int): string {
    if i < 0 then "-" + Decimal(-i) else Decimal(i)
  }

  function ReadDecimal(s: string): Option<nat> {
    if s == "" then None
    else
      var last := s[|s| - 1];
      if last < '0' || last > '9' then None
      else
        var d := (last - '0') as nat;
        if |s| == 1 then Some(d)
        else
          var front := ReadDecimal(s[..|s| - 1]);
          if front.None? then None else Some(10 * front.value + d)
  }

  function ReadNumber(s: string): Option<int> {
    if s != "" && s[0] == '-' then
      var r := ReadDecimal(s[1..]);
      if r.None? then None else Some(-(r.value as int))
    else
      var r := ReadDecimal(s);
      if r.None? then None else Some(r.value)
  }

  predicate IsDigit(c: char) {
    '0' <= c <= '9'
  }

  lemma {:induction false} DecimalReadsBack(n: nat)
    ensures ReadDecimal(Decimal(n)) == Some(n)
    ensures forall i :: 0 <= i < |Decimal(n)| ==> IsDigit(Decimal(n)[i])
  {
    if n >= 10 {
      DecimalReadsBack(n / 10);
      assert Decimal(n)[..|Decimal(n)| - 1] == Decimal(n / 10);
    }
  }

  /** A printed number reads back, and is made of digits and possibly a sign. */
  lemma NumberReadsBack(i: int)
    ensures ReadNumber(Number(i)) == Some(i)
    ensures forall k :: 0 <= k < |Number(i)| ==> IsDigit(Number(i)[k]) || Number(i)[k] == '-'
  {
    hide Decimal, ReadDecimal;
    if i < 0 {
      DecimalReadsBack(-i);
      assert Number(i)[1..] == Decimal(-i);
    } else {
      DecimalReadsBack(i);
    }
  }

  /** Powers of ten. */
  function Tens(k: nat): (r: nat)
    ensures r >= 1
  {
    if k == 0 then 1 else 10 * Tens(k - 1)
  }

  lemma TensMore(n: nat, k: nat)
    ensures n / 10 / Tens(k) == n / Tens(k + 1)
    ensures n / 10 < Tens(k) <==> n < Tens(k + 1)
    ensures n / 10 >= Tens(k) <==> n >= Tens(k + 1)
  {
    var t := Tens(k);
    var q, r := n / 10 / t, n / 10 % t;
    assert n == 10 * (t * q + r) + n % 10;
    assert 10 * (t * q) == (10 * t) * q;
    Quotient(n, 10 * t, q, 10 * r + n % 10);
  }

  lemma Quotient(n: nat, d: nat, q: nat, r: nat)
    requires n == d * q + r && r < d
    ensures n / d == q
  {
    assert d * q - d * (n / d) == d * (q - n / d);
    SmallMultiple(d, q - n / d);
  }

  lemma SmallMultiple(d: int, e: int)
    requires -d < d * e < d
    ensures e == 0
  {
  }

  /** The digit k places from the right counts the tens to the k, and no zero comes first. */
  lemma {:induction false} DecimalDigits(n: nat, k: nat)
    ensures var s := Decimal(n);
            && (k < |s| ==> s[|s| - 1 - k] as int == '0' as int + n / Tens(k) % 10)
            && n < Tens(|s|) && (n < 10 ==> |s| == 1) && (n >= 10 ==> n >= Tens(|s| - 1))
    decreases n
  {
    var s := Decimal(n);
    assert n / Tens(0) == n;
    if n >= 10 {
      var front := Decimal(n / 10);
      DecimalDigits(n / 10, if k > 0 then k - 1 else 0);
      TensMore(n, |front|);
      TensMore(n, |front| - 1);
      if 0 < k < |s| {
        TensMore(n, k - 1);
        assert s[|s| - 1 - k] == front[|front| - 1 - (k - 1)];
      }
    } else {
      assert Tens(1) == 10;
    }
  }

  /** A printed number is its size in decimal, without leading zeros, behind a minus sign if it is negative. */
  lemma NumberText(i: int, k: nat)
    ensures var s, n, sign := Number(i), if i < 0 then -i else i, if i < 0 then 1 else 0;
            var digits := |s| - sign;
            && (i < 0 ==> s[0] == '-')
            && (k < digits ==> s[|s| - 1 - k] as int == '0' as int + n / Tens(k) % 10)
            && digits > 0 && n < Tens(digits) && (n < 10 ==> digits == 1) && (n >= 10 ==> n >= Tens(digits - 1))
  {
    hide Decimal, Tens;
    DecimalDigits(if i < 0 then -i else i, k);
  }

  // --------------------------------------------------------------------- base64

  /** The alphabet of section 4 of RFC 4648. */
  function Symbol(v: nat): (c: char)
    requires v < 64
    ensures c != '=' && c != ESC
  {
    if v < 26 then 'A' + v as char
    else if v < 52 then 'a' + (v - 26) as char
    else if v < 62 then '0' + (v - 52) as char
    else if v == 62 then '+'
    else '/'
  }

  function SymbolValue(c: char): Option<nat> {
    if 'A' <= c <= 'Z' then Some((c - 'A') as nat)
    else if 'a' <= c <= 'z' then Some((c - 'a') as nat + 26)
    else if '0' <= c <= '9' then Some((c - '0') as nat + 52)
    else if c == '+' then Some(62)
    else if c == '/' then Some(63)
    else None
  }

  lemma SymbolReadsBack(v: nat)
    requires v < 64
    ensures SymbolValue(Symbol(v)) == Some(v)
  {
  }

  /** Four symbols for the 24 bits of a group. */
  function Group(bits: nat): (s: string)
    requires bits < 0x100_0000
    ensures |s| == 4
  {
    [Symbol(bits / 0x4_0000), Symbol(bits / 0x1000 % 64), Symbol(bits / 64 % 64), Symbol(bits % 64)]
  }

  function Bits(a: nat, b: nat, c: nat): (bits: nat)
    requires a < 256 && b < 256 && c < 256
    ensures bits < 0x100_0000
  {
    0x1_0000 * a + 0x100 * b + c
  }

  lemma FourMore(n: nat)
    requires n % 4 == 0
    ensures (4 + n) % 4 == 0
  {
  }

  function Base64(data: seq<byte>): (s: string)
    ensures |s| % 4 == 0
  {
    if data == [] then ""
    else if |data| == 1 then Group(Bits(data[0], 0, 0))[..2] + "=="
    else if |data| == 2 then Group(Bits(data[0], data[1], 0))[..3] + "="
    else
      var rest := Base64(data[3..]);
      FourMore(|rest|);
      Group(Bits(data[0], data[1], data[2])) + rest
  }

  /** The bits of four symbols, padding counting as zero. */
  function Ungroup(s: string): Option<nat>
    requires |s| == 4
  {
    var a, b := SymbolValue(s[0]), SymbolValue(s[1]);
    var c := if s[2] == '=' then Some(0) else SymbolValue(s[2]);
    var d := if s[3] == '=' then Some(0) else SymbolValue(s[3]);
    if a.None? || b.None? || c.None? || d.None? then None
    else Some(a.value * 0x4_0000 + b.value * 0x1000 + c.value * 64 + d.value)
  }

  function Bytes(bits: nat): (b: seq<byte>)
    requires bits < 0x100_0000
    ensures |b| == 3
  {
    [bits / 0x1_0000, bits / 0x100 % 0x100, bits % 0x100]
  }

  function Unbase64(s: string): Option<seq<byte>> {
    if s == "" then Some([])
    else if |s| < 4 then None
    else
      var bits := Ungroup(s[..4]);
      if bits.None? || bits.value >= 0x100_0000 then None
      else if |s| == 4 && s[2] == '=' && s[3] == '=' then Some(Bytes(bits.value)[..1])
      else if |s| == 4 && s[3] == '=' then Some(Bytes(bits.value)[..2])
      else if s[2] == '=' || s[3] == '=' then None
      else
        var rest := Unbase64(s[4..]);
        if rest.None? then None else Some(Bytes(bits.value) + rest.value)
  }

  /** Table 1 of RFC 4648: capitals, small letters and digits, each in a row, and two more. */
  lemma SymbolsInRows(v: nat)
    requires v < 64
    ensures Symbol(0) == 'A' && Symbol(26) == 'a' && Symbol(52) == '0' && Symbol(62) == '+' && Symbol(63) == '/'
    ensures v + 1 < 62 && v + 1 != 26 && v + 1 != 52 ==> Symbol(v + 1) as int == Symbol(v) as int + 1
  {
  }

  /** The four groups of six bits in three bytes, from the left. */
  lemma Sextets(a: nat, b: nat, c: nat)
    requires a < 256 && b < 256 && c < 256
    ensures var bits := Bits(a, b, c);
            && bits / 0x4_0000 == a / 4 && bits / 0x1000 % 64 == a % 4 * 16 + b / 16
            && bits / 64 % 64 == b % 16 * 4 + c / 64 && bits % 64 == c % 64
  {
    var bits := Bits(a, b, c);
    var low, mid, high := 0x400 * a + 4 * b + c / 64, 16 * a + b / 16, a / 4;
    Div64(low, c % 64);
    Div64(mid, b % 16 * 4 + c / 64);
    Div64(high, a % 4 * 16 + b / 16);
    assert bits == 64 * low + c % 64;
    assert low == 64 * mid + (b % 16 * 4 + c / 64);
    assert mid == 64 * high + (a % 4 * 16 + b / 16);
    DivTwice(bits);
  }

  lemma Div64(q: nat, r: nat)
    requires r < 64
    ensures (64 * q + r) / 64 == q && (64 * q + r) % 64 == r
  {
  }

  lemma DivTwice(n: nat)
    ensures n / 0x1000 == n / 64 / 64 && n / 0x4_0000 == n / 64 / 64 / 64
  {
  }

  /** Byte k of the data, or the zero that a final group is filled up with. */
  function DataAt(data: seq<byte>, k: nat): nat {
    if k < |data| then data[k] else 0
  }

  /** Four symbols for every three bytes, the last group filled up. */
  lemma {:induction false} Base64Length(data: seq<byte>)
    ensures |Base64(data)| == (|data| + 2) / 3 * 4
    decreases |data|
  {
    hide Bits, Group;
    if |data| >= 3 {
      Base64Length(data[3..]);
    }
  }

  /** Each group of four symbols stands for three bytes, six bits a symbol; one or two bytes leave padding. */
  lemma {:induction false} Base64Group(data: seq<byte>, g: nat)
    requires 3 * g < |data|
    ensures var (s, a, b, c) := (Base64(data), DataAt(data, 3 * g), DataAt(data, 3 * g + 1), DataAt(data, 3 * g + 2));
            && 4 * g + 4 <= |s|
            && s[4 * g] == Symbol(a / 4) && s[4 * g + 1] == Symbol(a % 4 * 16 + b / 16)
            && s[4 * g + 2] == (if 3 * g + 1 < |data| then Symbol(b % 16 * 4 + c / 64) else '=')
            && s[4 * g + 3] == (if 3 * g + 2 < |data| then Symbol(c % 64) else '=')
    decreases g
  {
    hide Bits, Symbol, Group;
    if g > 0 {
      var first, rest := Group(Bits(data[0], data[1], data[2])), Base64(data[3..]);
      assert Base64(data) == first + rest;
      hide Base64;
      Base64Group(data[3..], g - 1);
      assert forall k :: 4 <= k < 4 + |rest| ==> (first + rest)[k] == rest[k - 4];
    } else {
      GroupSymbols(DataAt(data, 0), DataAt(data, 1), DataAt(data, 2));
    }
  }

  lemma GroupSymbols(a: nat, b: nat, c: nat)
    requires a < 256 && b < 256 && c < 256
    ensures Group(Bits(a, b, c)) == [Symbol(a / 4), Symbol(a % 4 * 16 + b / 16), Symbol(b % 16 * 4 + c / 64),
                                     Symbol(c % 64)]
  {
    hide Bits, Symbol;
    Sextets(a, b, c);
  }

  lemma FourDigits(bits: nat)
    requires bits < 0x100_0000
    ensures bits == bits / 0x4_0000 * 0x4_0000 + bits / 0x1000 % 64 * 0x1000 + bits / 64 % 64 * 64 + bits % 64
    ensures bits % 0x1000 == 0 ==> bits / 64 % 64 == 0 && bits % 64 == 0
  {
    assert bits / 64 == bits / 0x1000 * 64 + bits / 64 % 64;
    assert bits / 0x1000 == bits / 0x4_0000 * 64 + bits / 0x1000 % 64;
  }

  lemma GroupReadsBack(bits: nat)
    requires bits < 0x100_0000
    ensures Ungroup(Group(bits)) == Some(bits)
    ensures bits % 64 == 0 ==> Ungroup(Group(bits)[..3] + "=") == Some(bits)
    ensures bits % 0x1000 == 0 ==> Ungroup(Group(bits)[..2] + "==") == Some(bits)
  {
    hide Symbol, SymbolValue;
    FourDigits(bits);
    var a, b, c, d := bits / 0x4_0000, bits / 0x1000 % 64, bits / 64 % 64, bits % 64;
    SymbolReadsBack(a);
    SymbolReadsBack(b);
    SymbolReadsBack(c);
    SymbolReadsBack(d);
  }

  lemma BytesReadBack(a: nat, b: nat, c: nat)
    requires a < 256 && b < 256 && c < 256
    ensures var r := Bytes(Bits(a, b, c)); r[0] == a && r[1] == b && r[2] == c
  {
    var bits := Bits(a, b, c);
    ByteOf(0x100 * a + b, c);
    ByteOf(a, b);
    TwoBytes(a, 0x100 * b + c);
    assert bits == 0x100 * (0x100 * a + b) + c == 0x1_0000 * a + (0x100 * b + c);
  }

  lemma BitsAligned(a: nat, b: nat)
    requires a < 256 && b < 256
    ensures Bits(a, 0, 0) % 0x1000 == 0 && Bits(a, b, 0) % 64 == 0
  {
    Multiples(16 * a);
    Multiples(0x400 * a + 4 * b);
  }

  lemma Multiples(k: nat)
    ensures (0x1000 * k) % 0x1000 == 0 && (64 * k) % 64 == 0
  {
  }

  lemma ByteOf(a: nat, b: nat)
    requires b < 0x100
    ensures (0x100 * a + b) / 0x100 == a && (0x100 * a + b) % 0x100 == b
  {
  }

  lemma TwoBytes(a: nat, b: nat)
    requires b < 0x1_0000
    ensures (0x1_0000 * a + b) / 0x1_0000 == a
  {
  }

  lemma GroupLacksEscape(bits: nat)
    requires bits < 0x100_0000
    ensures Lacks(Group(bits), ESC) && Group(bits)[2] != '=' && Group(bits)[3] != '='
  {
  }

  /** Every byte string reads back from its base64, which never contains an escape. */
  lemma {:induction false} Base64ReadsBack(data: seq<byte>)
    ensures Unbase64(Base64(data)) == Some(data)
    ensures Lacks(Base64(data), ESC)
    decreases |data|
  {
    hide Symbol, SymbolValue, Ungroup, Group, Bits, Bytes;
    var s := Base64(data);
    if |data| == 0 {
    } else if |data| == 1 {
      var bits := Bits(data[0], 0, 0);
      BytesReadBack(data[0], 0, 0);
      BitsAligned(data[0], 0);
      GroupReadsBack(bits);
      GroupLacksEscape(bits);
      assert s[..4] == s == Group(bits)[..2] + "==";
      assert data == Bytes(bits)[..1];
    } else if |data| == 2 {
      var bits := Bits(data[0], data[1], 0);
      BytesReadBack(data[0], data[1], 0);
      BitsAligned(data[0], data[1]);
      GroupReadsBack(bits);
      GroupLacksEscape(bits);
      assert s[..4] == s == Group(bits)[..3] + "=";
      assert data == Bytes(bits)[..2];
    } else {
      var bits := Bits(data[0], data[1], data[2]);
      BytesReadBack(data[0], data[1], data[2]);
      GroupReadsBack(bits);
      GroupLacksEscape(bits);
      Base64ReadsBack(data[3..]);
      assert s[..4] == Group(bits) && s[4..] == Base64(data[3..]);
      assert data == Bytes(bits) + data[3..];
    }
  }
}
