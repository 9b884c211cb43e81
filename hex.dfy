/**
 * Lowercase hexadecimal text of octet strings, as Python 2's
 * `str.encode("hex")` writes it, and the canonical text form of a UUID
 * (`str(uuid.UUID)`) built from it.
 */
module Hexadecimal {
  import opened Types

  predicate IsHexChar(c: char) {
    '0' <= c <= '9' || 'a' <= c <= 'f'
  }

  predicate IsLowerHex(s: string) {
    forall i :: 0 <= i < |s| ==> IsHexChar(s[i])
  }

  /** The lowercase digit for a nibble. */
  function HexDigit(n: int): (c: char)
    requires 0 <= n < 16
    ensures IsHexChar(c)
  {
    if n < 10 then ('0' as int + n) as char else ('a' as int + n - 10) as char
  }

  /** The nibble a lowercase digit stands for; inverse of HexDigit. */
  function HexValue(c: char): (n: int)
    requires IsHexChar(c)
    ensures 0 <= n < 16 && HexDigit(n) == c
  {
    if c <= '9' then c as int - '0' as int else c as int - 'a' as int + 10
  }

  /** Two lowercase digits per octet, high nibble first. */
  function HexByte(b: byte): string {
    [HexDigit(b / 16), HexDigit(b % 16)]
  }

  /** The hexadecimal text of an octet string. */
  function Hex(bs: seq<byte>): (s: string)
    ensures |s| == 2 * |bs|
    ensures IsLowerHex(s)
  {
    if bs == [] then [] else HexByte(bs[0]) + Hex(bs[1..])
  }

  /** The octets that a string of lowercase hexadecimal digit pairs stands for. */
  function Unhex(s: string): (bs: seq<byte>)
    requires |s| % 2 == 0 && IsLowerHex(s)
    ensures |bs| * 2 == |s|
  {
    if s == [] then [] else [HexValue(s[0]) * 16 + HexValue(s[1])] + Unhex(s[2..])
  }

  /** Hex loses nothing: its text decodes back to the octets. */
  lemma {:induction false} HexRoundTrip(bs: seq<byte>)
    ensures Unhex(Hex(bs)) == bs
  {
    if bs != [] {
      var s := Hex(bs);
      assert s[2..] == Hex(bs[1..]);
      HexRoundTrip(bs[1..]);
      var b := bs[0];
      assert HexValue(s[0]) == b / 16 && HexValue(s[1]) == b % 16;
    }
  }

  lemma HexInjective(a: seq<byte>, b: seq<byte>)
    requires Hex(a) == Hex(b)
    ensures a == b
  {
    HexRoundTrip(a);
    HexRoundTrip(b);
  }

  /** Hex works octet by octet: the text of a concatenation is the concatenated texts. */
  lemma {:induction false} HexConcat(a: seq<byte>, b: seq<byte>)
    ensures Hex(a + b) == Hex(a) + Hex(b)
  {
    if a == [] {
      assert a + b == b;
    } else {
      assert (a + b)[1..] == a[1..] + b;
      HexConcat(a[1..], b);
    }
  }

  /** The first 2k hexadecimal digits are the text of the first k octets. */
  lemma HexPrefix(bs: seq<byte>, k: nat)
    requires k <= |bs|
    ensures Hex(bs)[..2 * k] == Hex(bs[..k])
  {
    var front, back := bs[..k], bs[k..];
    assert bs == front + back;
    HexConcat(front, back);
    var t := Hex(front);
    assert |t| == 2 * k;
    assert (t + Hex(back))[..2 * k] == t;
  }

  /** `str(uuid.UUID)`: 8-4-4-4-12 lowercase digits separated by hyphens. */
  function UuidString(u: Uuid): (s: string)
    ensures |s| == 36
  {
    Hex(u[..4]) + "-" + Hex(u[4..6]) + "-" + Hex(u[6..8]) + "-" + Hex(u[8..10]) + "-" + Hex(u[10..])
  }

  /** The text form is lowercase digits with hyphens at 8, 13, 18 and 23, and holds no space. */
  lemma UuidStringShape(u: Uuid)
    ensures var s := UuidString(u);
      && s[8] == s[13] == s[18] == s[23] == '-'
      && (forall i :: 0 <= i < |s| && i != 8 && i != 13 && i != 18 && i != 23 ==> IsHexChar(s[i]))
      && forall i :: 0 <= i < |s| ==> s[i] != ' '
  {
    var s := UuidString(u);
    UuidStringFields(u);
    var groups := [s[..8], s[9..13], s[14..18], s[19..23], s[24..]];
    assert forall g :: g in groups ==> IsLowerHex(g);
    forall i | 0 <= i < |s| && i != 8 && i != 13 && i != 18 && i != 23 ensures IsHexChar(s[i]) {
      if i < 8 { assert s[i] == s[..8][i]; }
      else if i < 13 { assert s[i] == s[9..13][i - 9]; }
      else if i < 18 { assert s[i] == s[14..18][i - 14]; }
      else if i < 23 { assert s[i] == s[19..23][i - 19]; }
      else { assert s[i] == s[24..][i - 24]; }
    }
  }

  /** Where each group of digits sits in the text form. */
  lemma UuidStringFields(u: Uuid)
    ensures var s := UuidString(u);
      && s[..8] == Hex(u[..4]) && s[9..13] == Hex(u[4..6]) && s[14..18] == Hex(u[6..8])
      && s[19..23] == Hex(u[8..10]) && s[24..] == Hex(u[10..])
  {
    var s := UuidString(u);
    var p1 := Hex(u[..4]) + "-";
    var p2 := p1 + Hex(u[4..6]) + "-";
    var p3 := p2 + Hex(u[6..8]) + "-";
    var p4 := p3 + Hex(u[8..10]) + "-";
    assert s == p4 + Hex(u[10..]);
    assert s[..23] == p4[..23];
    assert s[..18] == p3[..18];
    assert s[..13] == p2[..13];
    assert s[..8] == p1[..8];
  }

  /** Different UUIDs have different text forms. */
  lemma UuidStringInjective(u: Uuid, v: Uuid)
    requires UuidString(u) == UuidString(v)
    ensures u == v
  {
    UuidStringFields(u);
    UuidStringFields(v);
    HexInjective(u[..4], v[..4]);
    HexInjective(u[4..6], v[4..6]);
    HexInjective(u[6..8], v[6..8]);
    HexInjective(u[8..10], v[8..10]);
    HexInjective(u[10..], v[10..]);
    assert u == u[..4] + u[4..6] + u[6..8] + u[8..10] + u[10..];
    assert v == v[..4] + v[4..6] + v[6..8] + v[8..10] + v[10..];
  }
}
