/** UUIDs and their canonical text form, the one `format!("{}", uuid)`
    produces: 32 lower-case hexadecimal digits in groups of 8-4-4-4-12
    separated by hyphens (section 3 of RFC 4122). */
module Uuids {
  import opened Common

  newtype Byte = b: int | 0 <= b < 256

  /** A UUID is a 128-bit value, held as 16 bytes in network order. */
  type Uuid = s: seq<Byte> | |s| == 16 witness seq(16, _ => 0)

  /** The lower-case hexadecimal digit for `n`. */
  function HexDigit(n: int): (c: char)
    requires 0 <= n < 16
    ensures DigitValue(c) == Some(n)
  {
    if n < 10 then (48 + n) as char else (87 + n) as char
  }

  /** The value of a lower-case hexadecimal digit, if `c` is one. */
  function DigitValue(c: char): (r: Option<int>)
    ensures r.Some? ==> 0 <= r.value < 16
  {
    if '0' <= c <= '9' then Some(c as int - 48)
    else if 'a' <= c <= 'f' then Some(c as int - 87)
    else None
  }

  /** A character that reads as a digit is the digit written for its value. */
  lemma DigitValueCanonical(c: char)
    requires DigitValue(c).Some?
    ensures HexDigit(DigitValue(c).value) == c
  {
  }

  /** Two hexadecimal digits per byte, high nibble first. */
  function Hex(bs: seq<Byte>): (s: string)
    ensures |s| == 2 * |bs|
  {
    if bs == [] then ""
    else [HexDigit(bs[0] as int / 16), HexDigit(bs[0] as int % 16)] + Hex(bs[1..])
  }

  /** Reads back a string of lower-case hexadecimal digit pairs. */
  function UnHex(s: string): (r: Option<seq<Byte>>)
    ensures r.Some? ==> 2 * |r.value| == |s|
  {
    if s == [] then Some([])
    else if |s| == 1 then None
    else match (DigitValue(s[0]), DigitValue(s[1]), UnHex(s[2..]))
      case (Some(hi), Some(lo), Some(rest)) => Some([(16 * hi + lo) as Byte] + rest)
      case _ => None
  }

  lemma {:induction false} UnHexOfHex(bs: seq<Byte>)
    ensures UnHex(Hex(bs)) == Some(bs)
  {
    if bs != [] {
      var s := Hex(bs);
      assert s[2..] == Hex(bs[1..]);
      UnHexOfHex(bs[1..]);
      assert bs == [bs[0]] + bs[1..];
    }
  }

  lemma {:induction false} HexOfUnHex(s: string)
    requires UnHex(s).Some?
    ensures Hex(UnHex(s).value) == s
  {
    if s != [] {
      var hi, lo := DigitValue(s[0]).value, DigitValue(s[1]).value;
      var bs := UnHex(s).value;
      DigitValueCanonical(s[0]);
      DigitValueCanonical(s[1]);
      HexOfUnHex(s[2..]);
      assert bs[0] as int == 16 * hi + lo;
      Nibbles(hi, lo);
      assert bs[1..] == UnHex(s[2..]).value;
      assert s == [s[0], s[1]] + s[2..];
    }
  }

  /** A byte built from two digits splits back into those digits. */
  lemma Nibbles(hi: int, lo: int)
    requires 0 <= hi < 16 && 0 <= lo < 16
    ensures (16 * hi + lo) / 16 == hi && (16 * hi + lo) % 16 == lo
  {
  }

  /** The canonical, hyphenated text form of a UUID. */
  function UuidText(u: Uuid): (s: string)
    ensures |s| == 36
    ensures s[8] == '-' && s[13] == '-' && s[18] == '-' && s[23] == '-'
  {
    Hex(u[..4]) + "-" + Hex(u[4..6]) + "-" + Hex(u[6..8]) + "-" + Hex(u[8..10]) + "-" + Hex(u[10..])
  }

  /** Reads a canonical UUID text back; the inverse of `UuidText`. */
  function ReadUuidText(s: string): (r: Option<Uuid>)
  {
    if |s| != 36 || s[8] != '-' || s[13] != '-' || s[18] != '-' || s[23] != '-' then None
    else match (UnHex(s[..8]), UnHex(s[9..13]), UnHex(s[14..18]), UnHex(s[19..23]), UnHex(s[24..]))
      case (Some(a), Some(b), Some(c), Some(d), Some(e)) => Some(a + b + c + d + e)
      case _ => None
  }

  /** Reading the text of a UUID gives that UUID back. */
  lemma UuidTextRoundTrip(u: Uuid)
    ensures ReadUuidText(UuidText(u)) == Some(u)
  {
    var s := UuidText(u);
    assert s[..8] == Hex(u[..4]);
    assert s[9..13] == Hex(u[4..6]);
    assert s[14..18] == Hex(u[6..8]);
    assert s[19..23] == Hex(u[8..10]);
    assert s[24..] == Hex(u[10..]);
    UnHexOfHex(u[..4]);
    UnHexOfHex(u[4..6]);
    UnHexOfHex(u[6..8]);
    UnHexOfHex(u[8..10]);
    UnHexOfHex(u[10..]);
    assert u[..4] + u[4..6] + u[6..8] + u[8..10] + u[10..] == u;
  }

  /** Every string that reads as a UUID is that UUID's canonical text. */
  lemma ReadUuidTextCanonical(s: string)
    requires ReadUuidText(s).Some?
    ensures UuidText(ReadUuidText(s).value) == s
  {
    var u := ReadUuidText(s).value;
    var a, b, c, d, e := UnHex(s[..8]).value, UnHex(s[9..13]).value, UnHex(s[14..18]).value,
                         UnHex(s[19..23]).value, UnHex(s[24..]).value;
    assert u == a + b + c + d + e;
    Pieces(a, b, c, d, e);
    assert Hex(u[..4]) == s[..8] by { HexOfUnHex(s[..8]); }
    assert Hex(u[4..6]) == s[9..13] by { HexOfUnHex(s[9..13]); }
    assert Hex(u[6..8]) == s[14..18] by { HexOfUnHex(s[14..18]); }
    assert Hex(u[8..10]) == s[19..23] by { HexOfUnHex(s[19..23]); }
    assert Hex(u[10..]) == s[24..] by { HexOfUnHex(s[24..]); }
    Dashed(s);
  }

  /** The five byte groups of a UUID are the slices its text is made of. */
  lemma Pieces(a: seq<Byte>, b: seq<Byte>, c: seq<Byte>, d: seq<Byte>, e: seq<Byte>)
    requires |a| == 4 && |b| == 2 && |c| == 2 && |d| == 2 && |e| == 6
    ensures var u := a + b + c + d + e;
      u[..4] == a && u[4..6] == b && u[6..8] == c && u[8..10] == d && u[10..] == e
  {
  }

  /** A 36-character string with hyphens at the four group boundaries is
      its five groups joined by hyphens. */
  lemma Dashed(s: string)
    requires |s| == 36 && s[8] == '-' && s[13] == '-' && s[18] == '-' && s[23] == '-'
    ensures s == s[..8] + "-" + s[9..13] + "-" + s[14..18] + "-" + s[19..23] + "-" + s[24..]
  {
  }

  /** Distinct UUIDs have distinct texts. */
  lemma UuidTextInjective(u: Uuid, v: Uuid)
    requires UuidText(u) == UuidText(v)
    ensures u == v
  {
    UuidTextRoundTrip(u);
    UuidTextRoundTrip(v);
  }
}
