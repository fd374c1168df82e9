/**
  The UTF-8 checker against sections 3 and 4 of RFC 3629.
 */
module Utf8 {
  import opened Format

  // ------------------------------------------------------ the standard's view

  predicate IsScalar(c: nat) {
    c < 0x11_0000 && !(0xD800 <= c <= 0xDFFF)
  }

  function EncodeScalar(c: nat): (s: seq<byte>)
    requires IsScalar(c)
    ensures 0 < |s| <= 4
  {
    if c < 0x80 then [c]
    else if c < 0x800 then [0xC0 + c / 0x40, 0x80 + c % 0x40]
    else if c < 0x1_0000 then [0xE0 + c / 0x1000, 0x80 + c / 0x40 % 0x40, 0x80 + c % 0x40]
    else [0xF0 + c / 0x4_0000, 0x80 + c / 0x1000 % 0x40, 0x80 + c / 0x40 % 0x40, 0x80 + c % 0x40]
  }

  predicate IsText(cs: seq<nat>) {
    forall i :: 0 <= i < |cs| ==> IsScalar(cs[i])
  }

  function EncodeText(cs: seq<nat>): seq<byte>
    requires IsText(cs)
  {
    if cs == [] then [] else EncodeScalar(cs[0]) + EncodeText(cs[1..])
  }

  // --------------------------------------------------------------- unique text

  lemma Recomposed(c: nat)
    requires IsScalar(c)
    ensures c == 0x1000 * (c / 0x1000) + 0x40 * (c / 0x40 % 0x40) + c % 0x40
    ensures c == 0x4_0000 * (c / 0x4_0000) + 0x1000 * (c / 0x1000 % 0x40) + 0x40 * (c / 0x40 % 0x40) + c % 0x40
  {
  }

  predicate Continues(b: byte) {
    0x80 <= b < 0xC0
  }

  /** What the lead byte, its continuations and the recombined code say about a scalar. */
  predicate Shaped(c: nat, str: seq<byte>)
    requires str != []
  {
    var lead: int := str[0];
    if c < 0x80 then lead == c
    else if c < 0x800 then
      |str| >= 2 && 0xC0 <= lead <= 0xDF && Continues(str[1]) && c == TwoBytes(str)
    else if c < 0x1_0000 then
      |str| >= 3 && 0xE0 <= lead <= 0xEF && Continues(str[1]) && Continues(str[2]) && c == ThreeBytes(str)
    else
      |str| >= 4 && 0xF0 <= lead <= 0xF7 && Continues(str[1]) && Continues(str[2]) && Continues(str[3])
      && c == FourBytes(str)
  }

  /** The C masks become remainders and its shifts multiplications. */
  function TwoBytes(str: seq<byte>): nat
    requires |str| >= 2
  {
    (str[0] as int) % 0x20 * 0x40 + (str[1] as int) % 0x40
  }

  function ThreeBytes(str: seq<byte>): nat
    requires |str| >= 3
  {
    (str[0] as int) % 0x10 * 0x1000 + (str[1] as int) % 0x40 * 0x40 + (str[2] as int) % 0x40
  }

  function FourBytes(str: seq<byte>): nat
    requires |str| >= 4
  {
    (str[0] as int) % 0x08 * 0x4_0000 + (str[1] as int) % 0x40 * 0x1000
    + (str[2] as int) % 0x40 * 0x40 + (str[3] as int) % 0x40
  }

  lemma EncodingShape(c: nat, str: seq<byte>)
    requires IsScalar(c) && str != []
    ensures EncodeScalar(c) <= str <==> Shaped(c, str)
  {
    hide Shaped, EncodeScalar;
    if c < 0x80 {
      OneByteShape(c, str);
    } else if c < 0x800 {
      TwoByteShape(c, str);
    } else if c < 0x1_0000 {
      ThreeByteShape(c, str);
    } else {
      FourByteShape(c, str);
    }
  }

  lemma OneByteShape(c: nat, str: seq<byte>)
    requires c < 0x80 && str != []
    ensures EncodeScalar(c) <= str <==> Shaped(c, str)
  {
    Begins(EncodeScalar(c), str);
  }

  lemma TwoByteShape(c: nat, str: seq<byte>)
    requires 0x80 <= c < 0x800 && str != []
    ensures EncodeScalar(c) <= str <==> Shaped(c, str)
  {
    Begins(EncodeScalar(c), str);
  }

  /** What the masks leave of a lead byte and of a continuation. */
  lemma Masked()
    ensures forall b: int :: 0xE0 <= b <= 0xEF ==> b % 0x10 == b - 0xE0
    ensures forall b: int :: 0xF0 <= b <= 0xF7 ==> b % 0x08 == b - 0xF0
    ensures forall b: int :: 0x80 <= b < 0xC0 ==> b % 0x40 == b - 0x80
  {
  }

  lemma ThreeByteShape(c: nat, str: seq<byte>)
    requires 0x800 <= c < 0x1_0000 && IsScalar(c) && str != []
    ensures EncodeScalar(c) <= str <==> Shaped(c, str)
  {
    var d2, d1, d0 := c / 0x1000, c / 0x40 % 0x40, c % 0x40;
    Recomposed(c);
    Masked();
    var s := [0xE0 + d2, 0x80 + d1, 0x80 + d0];
    Begins(s, str);
    if |str| >= 3 {
      var b2: int, b1: int, b0: int := str[0], str[1], str[2];
      assert s <= str ==> b2 % 0x10 == d2 && b1 % 0x40 == d1 && b0 % 0x40 == d0;
      if Shaped(c, str) {
        Digits(c, 0, b2 % 0x10, b1 % 0x40, b0 % 0x40);
        assert b2 == 0xE0 + d2 && b1 == 0x80 + d1 && b0 == 0x80 + d0;
      }
    }
  }

  lemma FourByteShape(c: nat, str: seq<byte>)
    requires 0x1_0000 <= c && IsScalar(c) && str != []
    ensures EncodeScalar(c) <= str <==> Shaped(c, str)
  {
    var d3, d2, d1, d0 := c / 0x4_0000, c / 0x1000 % 0x40, c / 0x40 % 0x40, c % 0x40;
    Recomposed(c);
    Masked();
    var s := [0xF0 + d3, 0x80 + d2, 0x80 + d1, 0x80 + d0];
    Begins(s, str);
    if |str| >= 4 {
      var b3: int, b2: int, b1: int, b0: int := str[0], str[1], str[2], str[3];
      assert s <= str ==> b3 % 0x08 == d3 && b2 % 0x40 == d2 && b1 % 0x40 == d1 && b0 % 0x40 == d0;
      if Shaped(c, str) {
        Digits(c, b3 % 0x08, b2 % 0x40, b1 % 0x40, b0 % 0x40);
        assert b3 == 0xF0 + d3 && b2 == 0x80 + d2 && b1 == 0x80 + d1 && b0 == 0x80 + d0;
      }
    }
  }

  /** The base-64 digits of a sum of shifted digits. */
  lemma Digits(c: nat, d3: nat, d2: nat, d1: nat, d0: nat)
    requires d2 < 0x40 && d1 < 0x40 && d0 < 0x40
    requires c == d3 * 0x4_0000 + d2 * 0x1000 + d1 * 0x40 + d0
    ensures c % 0x40 == d0 && c / 0x40 % 0x40 == d1 && c / 0x1000 % 0x40 == d2 && c / 0x4_0000 == d3
    ensures c / 0x1000 == d3 * 0x40 + d2
  {
    assert c / 0x40 == d3 * 0x1000 + d2 * 0x40 + d1;
    assert c / 0x1000 == d3 * 0x40 + d2;
  }

  /** A short prefix, byte by byte. */
  lemma Begins(s: seq<byte>, str: seq<byte>)
    requires 0 < |s| <= 4
    ensures s <= str <==>
            && |s| <= |str|
            && s[0] == str[0]
            && (|s| > 1 ==> s[1] == str[1])
            && (|s| > 2 ==> s[2] == str[2])
            && (|s| > 3 ==> s[3] == str[3])
  {
  }

  /** No scalar's encoding begins another's. */
  lemma EncodingIsPrefixFree(a: nat, b: nat, s: seq<byte>)
    requires IsScalar(a) && IsScalar(b)
    requires EncodeScalar(a) <= s && EncodeScalar(b) <= s
    ensures a == b
  {
    EncodingShape(a, s);
    EncodingShape(b, s);
  }

  /** A text whose encoding begins another text's encoding begins that text. */
  lemma {:induction false} PrefixText(xs: seq<nat>, ys: seq<nat>) returns (rest: seq<nat>)
    requires IsText(xs) && IsText(ys)
    requires EncodeText(xs) <= EncodeText(ys)
    ensures IsText(rest) && ys == xs + rest
  {
    hide EncodeScalar, IsScalar;
    if xs == [] {
      rest := ys;
    } else {
      var s := EncodeText(ys);
      assert EncodeScalar(xs[0]) <= EncodeText(xs) <= s;
      assert ys != [];
      EncodingIsPrefixFree(xs[0], ys[0], s);
      var k := |EncodeScalar(xs[0])|;
      assert EncodeText(xs)[k..] == EncodeText(xs[1..]);
      assert s[k..] == EncodeText(ys[1..]);
      rest := PrefixText(xs[1..], ys[1..]);
      assert ys == [xs[0]] + xs[1..] + rest;
    }
  }

  /** A byte string is the encoding of at most one text. */
  lemma TextIsUnique(xs: seq<nat>, ys: seq<nat>)
    requires IsText(xs) && IsText(ys)
    requires EncodeText(xs) == EncodeText(ys)
    ensures xs == ys
  {
    var rest := PrefixText(xs, ys);
    var none := PrefixText(ys, xs);
  }

  lemma {:induction false} TextAppends(xs: seq<nat>, ys: seq<nat>)
    requires IsText(xs) && IsText(ys)
    ensures EncodeText(xs + ys) == EncodeText(xs) + EncodeText(ys)
  {
    hide EncodeScalar, IsScalar;
    if xs == [] {
      assert xs + ys == ys;
    } else {
      assert (xs + ys)[1..] == xs[1..] + ys;
      TextAppends(xs[1..], ys);
    }
  }

  // ------------------------------------------------------ the standard's grammar

  predicate IsTail(b: byte) {
    0x80 <= b <= 0xBF
  }

  /** UTF8-char of section 4 of RFC 3629. */
  predicate IsChar(s: seq<byte>) {
    || (|s| == 1 && s[0] <= 0x7F)
    || (|s| == 2 && 0xC2 <= s[0] <= 0xDF && IsTail(s[1]))
    || (|s| == 3 && IsTail(s[2]) && (
          || (s[0] == 0xE0 && 0xA0 <= s[1] <= 0xBF)
          || (0xE1 <= s[0] <= 0xEC && IsTail(s[1]))
          || (s[0] == 0xED && 0x80 <= s[1] <= 0x9F)
          || (0xEE <= s[0] <= 0xEF && IsTail(s[1]))))
    || (|s| == 4 && IsTail(s[2]) && IsTail(s[3]) && (
          || (s[0] == 0xF0 && 0x90 <= s[1] <= 0xBF)
          || (0xF1 <= s[0] <= 0xF3 && IsTail(s[1]))
          || (s[0] == 0xF4 && 0x80 <= s[1] <= 0x8F)))
  }

  /** UTF8-octets: any number of characters in a row. */
  ghost predicate IsOctets(s: seq<byte>)
    decreases |s|
  {
    s == [] || exists k :: 0 < k <= |s| && IsChar(s[..k]) && IsOctets(s[k..])
  }

  /** The number that the payload bits of a character spell. */
  function CodeOf(s: seq<byte>): nat
    requires 0 < |s| <= 4
  {
    if |s| == 1 then s[0] else if |s| == 2 then TwoBytes(s) else if |s| == 3 then ThreeBytes(s) else FourBytes(s)
  }

  lemma CharIsShaped(s: seq<byte>)
    requires IsChar(s)
    ensures IsScalar(CodeOf(s)) && Shaped(CodeOf(s), s) && |EncodeScalar(CodeOf(s))| == |s|
  {
    Masked();
  }

  lemma ShapedIsChar(c: nat, s: seq<byte>)
    requires IsScalar(c) && s != [] && Shaped(c, s) && |EncodeScalar(c)| == |s|
    ensures IsChar(s)
  {
    Masked();
  }

  /** The characters of the grammar are the encodings of the scalar values. */
  lemma CharsAreScalars(s: seq<byte>)
    ensures IsChar(s) <==> exists c :: IsScalar(c) && EncodeScalar(c) == s
  {
    hide EncodeScalar, IsScalar, Shaped, CodeOf;
    if IsChar(s) {
      CharIsShaped(s);
      EncodingShape(CodeOf(s), s);
      assert EncodeScalar(CodeOf(s)) == s;
    }
    forall c | IsScalar(c) && EncodeScalar(c) == s
      ensures IsChar(s)
    {
      EncodingShape(c, s);
      ShapedIsChar(c, s);
    }
  }

  lemma {:induction false} TextIsOctets(cs: seq<nat>)
    requires IsText(cs)
    ensures IsOctets(EncodeText(cs))
    ensures 0 in EncodeText(cs) <==> 0 in cs
  {
    hide EncodeScalar, IsChar, IsScalar;
    if cs != [] {
      var s, k := EncodeText(cs), |EncodeScalar(cs[0])|;
      TextIsOctets(cs[1..]);
      assert s[..k] == EncodeScalar(cs[0]) && s[k..] == EncodeText(cs[1..]);
      CharsAreScalars(s[..k]);
      OnlyNulHasNul(cs[0]);
      assert cs == [cs[0]] + cs[1..];
    }
  }

  lemma OnlyNulHasNul(c: nat)
    requires IsScalar(c)
    ensures 0 in EncodeScalar(c) <==> c == 0
  {
  }

  lemma {:induction false} OctetsAreText(s: seq<byte>) returns (cs: seq<nat>)
    requires IsOctets(s)
    ensures IsText(cs) && EncodeText(cs) == s
    decreases |s|
  {
    hide EncodeScalar, IsChar, IsScalar;
    if s == [] {
      cs := [];
    } else {
      var k :| 0 < k <= |s| && IsChar(s[..k]) && IsOctets(s[k..]);
      CharsAreScalars(s[..k]);
      var c :| IsScalar(c) && EncodeScalar(c) == s[..k];
      var rest := OctetsAreText(s[k..]);
      cs := [c] + rest;
      assert cs[1..] == rest && s == s[..k] + s[k..];
    }
  }

  /** The byte strings of the grammar are the encodings of texts, and a NUL byte stands for a NUL in the text. */
  lemma OctetsAreTexts(s: seq<byte>, allowNull: bool)
    ensures IsOctets(s) && (allowNull || 0 !in s) <==>
            exists cs :: IsText(cs) && EncodeText(cs) == s && (allowNull || 0 !in cs)
  {
    hide IsOctets, IsText, EncodeText;
    if IsOctets(s) {
      var cs := OctetsAreText(s);
      TextIsOctets(cs);
    }
    forall cs | IsText(cs) && EncodeText(cs) == s && (allowNull || 0 !in cs)
      ensures IsOctets(s) && (allowNull || 0 !in s)
    {
      TextIsOctets(cs);
    }
  }

  // --------------------------------------------------------------- the checker

  /** One step of the check at str[0]: the number of bytes accepted, or 0. */
  method CheckOne(str: seq<byte>) returns (taken: nat, ghost z: nat)
    requires str != []
    ensures taken > 0 ==> IsScalar(z) && EncodeScalar(z) <= str && taken == |EncodeScalar(z)|
    ensures taken == 0 ==> forall c | IsScalar(c) :: !(EncodeScalar(c) <= str)
  {
    forall c | IsScalar(c)
      ensures EncodeScalar(c) <= str <==> Shaped(c, str)
    {
      EncodingShape(c, str);
    }
    var lead := str[0];
    if lead <= 0x7F {
      return 1, lead;
    } else if 0xC0 <= lead <= 0xDF {
      if |str| < 2 || !Continues(str[1]) {
        return 0, 0;
      }
      var code := TwoBytes(str);
      if code < 0x80 {
        return 0, 0;
      }
      return 2, code;
    } else if 0xE0 <= lead <= 0xEF {
      if |str| < 3 || !Continues(str[1]) || !Continues(str[2]) {
        return 0, 0;
      }
      var code := ThreeBytes(str);
      if code < 0x800 || 0xD800 <= code <= 0xDFFF {
        return 0, 0;
      }
      return 3, code;
    } else if 0xF0 <= lead <= 0xF7 {
      if |str| < 4 || !Continues(str[1]) || !Continues(str[2]) || !Continues(str[3]) {
        return 0, 0;
      }
      var code := FourBytes(str);
      if code < 0x1_0000 || code > 0x10_FFFF {
        return 0, 0;
      }
      return 4, code;
    } else {
      return 0, 0;
    }
  }

  /**
    mpack_utf8_check_impl accepts exactly the encodings of texts; without
    allowNull, exactly those of texts free of NUL. By the grammar, these are the
    byte strings of UTF8-octets, without allowNull those without a NUL byte.
   */
  method Check(str: seq<byte>, allowNull: bool) returns (ok: bool)
    ensures ok <==> exists cs :: IsText(cs) && EncodeText(cs) == str && (allowNull || 0 !in cs)
    ensures ok <==> IsOctets(str) && (allowNull || 0 !in str)
  {
    hide EncodeScalar, IsScalar, IsOctets;
    OctetsAreTexts(str, allowNull);
    var pos := 0;
    ghost var seen: seq<nat> := [];
    while pos < |str|
      invariant pos <= |str|
      invariant IsText(seen) && EncodeText(seen) == str[..pos]
      invariant allowNull || 0 !in seen
    {
      if !allowNull && str[pos] == 0 {
        NulAt(str, pos, seen);
        return false;
      }
      var taken;
      ghost var z;
      taken, z := CheckOne(str[pos..]);
      if taken == 0 {
        StopsAt(str, pos, seen);
        return false;
      }
      Extends(str, pos, seen, z);
      seen := seen + [z];
      pos := pos + taken;
    }
    assert str[..pos] == str;
    return true;
  }

  lemma Extends(str: seq<byte>, pos: nat, seen: seq<nat>, z: nat)
    requires pos <= |str| && IsText(seen) && EncodeText(seen) == str[..pos] && IsScalar(z)
    requires EncodeScalar(z) <= str[pos..]
    ensures IsText(seen + [z]) && EncodeText(seen + [z]) == str[..pos + |EncodeScalar(z)|]
    ensures z == 0 <==> str[pos] == 0
  {
    TextAppends(seen, [z]);
    assert EncodeText([z]) == EncodeScalar(z);
    assert str[..pos + |EncodeScalar(z)|] == str[..pos] + str[pos..][..|EncodeScalar(z)|];
  }

  /** Any text for str continues what has been accepted with a scalar that is encoded at pos. */
  lemma NextScalar(str: seq<byte>, pos: nat, seen: seq<nat>, cs: seq<nat>)
    requires pos < |str| && IsText(seen) && EncodeText(seen) == str[..pos]
    requires IsText(cs) && EncodeText(cs) == str
    ensures |seen| < |cs| && IsScalar(cs[|seen|]) && EncodeScalar(cs[|seen|]) <= str[pos..]
  {
    hide EncodeScalar, IsScalar, EncodeText, IsText;
    IsPrefix(str, pos);
    var rest := PrefixText(seen, cs);
    TextAppends(seen, rest);
    ScalarFollows(str, EncodeText(seen), rest);
    Indexed(seen, rest);
  }

  lemma IsPrefix(str: seq<byte>, pos: nat)
    requires pos <= |str|
    ensures str[..pos] <= str && |str[..pos]| == pos
  {
  }

  lemma ScalarFollows(str: seq<byte>, head: seq<byte>, rest: seq<nat>)
    requires IsText(rest) && str == head + EncodeText(rest) && |head| < |str|
    ensures rest != [] && IsScalar(rest[0]) && EncodeScalar(rest[0]) <= str[|head|..]
  {
    hide EncodeScalar, IsScalar, EncodeText, IsText;
    assert str[|head|..] == EncodeText(rest);
    FirstScalar(rest);
  }

  lemma Indexed(xs: seq<nat>, ys: seq<nat>)
    requires ys != []
    ensures |xs| < |xs + ys| && (xs + ys)[|xs|] == ys[0]
  {
  }

  lemma FirstScalar(cs: seq<nat>)
    requires IsText(cs) && EncodeText(cs) != []
    ensures cs != [] && IsScalar(cs[0]) && EncodeScalar(cs[0]) <= EncodeText(cs)
  {
  }

  lemma StopsAt(str: seq<byte>, pos: nat, seen: seq<nat>)
    requires pos < |str| && IsText(seen) && EncodeText(seen) == str[..pos]
    requires forall c | IsScalar(c) :: !(EncodeScalar(c) <= str[pos..])
    ensures !exists cs :: IsText(cs) && EncodeText(cs) == str
  {
    hide EncodeScalar, IsScalar;
    forall cs | IsText(cs) && EncodeText(cs) == str
      ensures false
    {
      NextScalar(str, pos, seen, cs);
    }
  }

  lemma NulAt(str: seq<byte>, pos: nat, seen: seq<nat>)
    requires pos < |str| && IsText(seen) && EncodeText(seen) == str[..pos]
    requires str[pos] == 0
    ensures !exists cs :: IsText(cs) && EncodeText(cs) == str && 0 !in cs
  {
    forall cs | IsText(cs) && EncodeText(cs) == str
      ensures 0 in cs
    {
      NextScalar(str, pos, seen, cs);
      assert cs[|seen|] == 0;
    }
  }
}
