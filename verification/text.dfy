/** The text renderings the sniffer writes to its log — `%02X` bytes, a byte
    string in uppercase hex, `%u` and `std::to_string` decimals, and the
    entries of a C array literal — each with a parser that reads it back. */
module Text {
  import opened Common

  // ---------------------------------------------------------------------------
  // Hexadecimal

  /** Only the characters 0-9 and A-F. */
  predicate IsUpperHex(s: string) {
    forall i :: 0 <= i < |s| ==> '0' <= s[i] <= '9' || 'A' <= s[i] <= 'F'
  }

  /** One uppercase hexadecimal digit. */
  function HexDigit(d: nat): (c: char)
    requires d < 16
    ensures '0' <= c <= '9' || 'A' <= c <= 'F'
  {
    if d < 10 then ('0' as int + d) as char else ('A' as int + d - 10) as char
  }

  /** The value of an uppercase hexadecimal digit, if `c` is one. */
  function HexValue(c: char): (v: Option<nat>)
    ensures v.Some? <==> '0' <= c <= '9' || 'A' <= c <= 'F'
    ensures v.Some? ==> v.value < 16 && HexDigit(v.value) == c
  {
    if '0' <= c <= '9' then Some(c as int - '0' as int)
    else if 'A' <= c <= 'F' then Some(c as int - 'A' as int + 10)
    else None
  }

  /** `%02X`: a byte as exactly two uppercase hexadecimal digits. */
  function Hex2(b: uint8): (s: string)
    ensures |s| == 2 && IsUpperHex(s)
  {
    [HexDigit(b / 16), HexDigit(b % 16)]
  }

  /** Reads two hexadecimal digits back as a byte. */
  function ParseHex2(s: string): (b: Option<uint8>)
    requires |s| == 2
  {
    match (HexValue(s[0]), HexValue(s[1]))
    case (Some(hi), Some(lo)) => Some(hi * 16 + lo)
    case _ => None
  }

  /** Two hexadecimal digits read back as the byte they were written from. */
  lemma Hex2RoundTrip(b: uint8)
    ensures ParseHex2(Hex2(b)) == Some(b)
  {
    assert HexValue(HexDigit(b / 16)) == Some(b / 16);
    assert HexValue(HexDigit(b % 16)) == Some(b % 16);
  }

  /** Bytes as consecutive `%02X` pairs. */
  function HexString(bytes: seq<uint8>): (s: string)
    ensures |s| == 2 * |bytes| && IsUpperHex(s)
  {
    if |bytes| == 0 then "" else Hex2(bytes[0]) + HexString(bytes[1..])
  }

  /** Reads a string of hexadecimal pairs back as bytes. */
  function DecodeHex(s: string): Option<seq<uint8>>
    decreases |s|
  {
    if |s| == 0 then Some([])
    else if |s| < 2 then None
    else match (ParseHex2(s[..2]), DecodeHex(s[2..]))
      case (Some(b), Some(rest)) => Some([b] + rest)
      case _ => None
  }

  /** The hex rendering of bytes decodes to those bytes. */
  lemma {:induction false} HexStringRoundTrip(bytes: seq<uint8>)
    ensures DecodeHex(HexString(bytes)) == Some(bytes)
    decreases |bytes|
  {
    if |bytes| > 0 {
      var s := HexString(bytes);
      assert s[..2] == Hex2(bytes[0]);
      assert s[2..] == HexString(bytes[1..]);
      Hex2RoundTrip(bytes[0]);
      HexStringRoundTrip(bytes[1..]);
      assert [bytes[0]] + bytes[1..] == bytes;
    }
  }

  // ---------------------------------------------------------------------------
  // Decimal

  /** Only the characters 0-9. */
  predicate IsDecimal(s: string) {
    forall i :: 0 <= i < |s| ==> '0' <= s[i] <= '9'
  }

  function DigitChar(d: nat): (c: char)
    requires d < 10
    ensures '0' <= c <= '9'
  {
    ('0' as int + d) as char
  }

  /** `std::to_string` and `%u` of a non-negative integer. */
  function NatToString(n: nat): (s: string)
    ensures |s| >= 1 && IsDecimal(s)
    ensures n > 0 ==> s[0] != '0'
    decreases n
  {
    if n < 10 then [DigitChar(n)] else NatToString(n / 10) + [DigitChar(n % 10)]
  }

  /** Reads a non-empty string of decimal digits back as a number. */
  function ParseDecimal(s: string): Option<nat>
    decreases |s|
  {
    if |s| == 0 || !('0' <= s[|s| - 1] <= '9') then None
    else
      var d := s[|s| - 1] as int - '0' as int;
      if |s| == 1 then Some(d)
      else match ParseDecimal(s[..|s| - 1])
        case Some(p) => Some(10 * p + d)
        case None => None
  }

  /** The decimal rendering of a number reads back as that number. */
  lemma {:induction false} NatToStringRoundTrip(n: nat)
    ensures ParseDecimal(NatToString(n)) == Some(n)
    decreases n
  {
    if n >= 10 {
      var s := NatToString(n);
      assert s[..|s| - 1] == NatToString(n / 10);
      NatToStringRoundTrip(n / 10);
    }
  }

  // ---------------------------------------------------------------------------
  // C array literal entries

  /** One `0x%02X` array entry. */
  function ArrayEntry(b: uint8): (s: string)
    ensures |s| == 4 && s[..2] == "0x" && ParseHex2(s[2..]) == Some(b)
  {
    Hex2RoundTrip(b);
    "0x" + Hex2(b)
  }

  /** The entries of an array literal, separated by ", ". */
  function ArrayEntries(bytes: seq<uint8>): (s: string)
    ensures |bytes| == 0 ==> s == ""
    ensures |bytes| > 0 ==> |s| == 6 * |bytes| - 2
  {
    if |bytes| == 0 then ""
    else if |bytes| == 1 then ArrayEntry(bytes[0])
    else ArrayEntry(bytes[0]) + ", " + ArrayEntries(bytes[1..])
  }

  /** Reads a non-empty list of `0xHH` entries separated by ", " back as bytes. */
  function ParseArrayEntries(s: string): Option<seq<uint8>>
    decreases |s|
  {
    if |s| < 4 || s[..2] != "0x" then None
    else match ParseHex2(s[2..4])
      case None => None
      case Some(b) =>
        if |s| == 4 then Some([b])
        else if |s| < 6 || s[4..6] != ", " then None
        else match ParseArrayEntries(s[6..])
          case Some(rest) => Some([b] + rest)
          case None => None
  }

  /** The array entries of a non-empty byte string read back as those bytes:
      in particular there is exactly one entry per byte. */
  lemma {:induction false} ArrayEntriesRoundTrip(bytes: seq<uint8>)
    requires |bytes| > 0
    ensures ParseArrayEntries(ArrayEntries(bytes)) == Some(bytes)
    decreases |bytes|
  {
    var s := ArrayEntries(bytes);
    var e := ArrayEntry(bytes[0]);
    assert s[..4] == e;
    assert s[..2] == e[..2] && s[2..4] == e[2..];
    if |bytes| > 1 {
      assert s[4..6] == ", ";
      assert s[6..] == ArrayEntries(bytes[1..]);
      ArrayEntriesRoundTrip(bytes[1..]);
      assert [bytes[0]] + bytes[1..] == bytes;
    } else {
      assert bytes == [bytes[0]];
    }
  }
}
