/**
 * The text form of a MAC address, as `sprintf` with the format
 * "%02X:%02X:%02X:%02X:%02X:%02X" produces it: each byte as two upper-case
 * hexadecimal digits, the groups separated by ':'.
 *
 * The formatter is given a partner, a strict parser of that text, and the
 * two are proved inverse to each other.
 */
module MacText {
  import opened Wrappers
  import opened StdInt

  /** The digits `%X` prints: '0' to '9' and the upper-case 'A' to 'F'. */
  predicate IsHexDigit(c: char)
  {
    '0' <= c <= '9' || 'A' <= c <= 'F'
  }

  /** Number of address bytes the firmware formats. */
  const MAC_LENGTH: nat := 6
  /** Length of the formatted address: 6 pairs of digits and 5 separators. */
  const MAC_TEXT_LENGTH: nat := 17

  /** The upper-case hexadecimal digit `%X` prints for a nibble. */
  function HexDigit(n: nat): (c: char)
    requires n < 16
    ensures IsHexDigit(c)
    ensures n < 10 ==> '0' <= c <= '9'
    ensures 10 <= n ==> 'A' <= c <= 'F'
  {
    if n < 10 then ('0' as int + n) as char else ('A' as int + n - 10) as char
  }

  /** The nibble an upper-case hexadecimal digit stands for; None for any other character. */
  function DigitValue(c: char): (r: Option<nat>)
    ensures r.Some? <==> IsHexDigit(c)
    ensures r.Some? ==> r.value < 16 && HexDigit(r.value) == c
  {
    if '0' <= c <= '9' then Some(c as int - '0' as int)
    else if 'A' <= c <= 'F' then Some(c as int - 'A' as int + 10)
    else None
  }

  /** `%02X` of one byte: the high nibble's digit, then the low nibble's. */
  function HexByte(b: uint8): (s: string)
    ensures |s| == 2 && IsHexDigit(s[0]) && IsHexDigit(s[1])
    ensures DigitValue(s[0]) == Some(b as int / 16)
    ensures DigitValue(s[1]) == Some(b as int % 16)
  {
    [HexDigit(b as int / 16), HexDigit(b as int % 16)]
  }

  /** The byte two upper-case hexadecimal digits stand for. */
  function ParseHexByte(hi: char, lo: char): (r: Option<uint8>)
    ensures r.Some? <==> IsHexDigit(hi) && IsHexDigit(lo)
  {
    match (DigitValue(hi), DigitValue(lo))
    case (Some(h), Some(l)) => Some((16 * h + l) as uint8)
    case _ => None
  }

  lemma HexByteRoundTrip(b: uint8)
    ensures ParseHexByte(HexByte(b)[0], HexByte(b)[1]) == Some(b)
  {
  }

  /** Two digits that parse are exactly the digits printed for their value. */
  lemma ParseHexByteCanonical(hi: char, lo: char, b: uint8)
    requires ParseHexByte(hi, lo) == Some(b)
    ensures HexByte(b) == [hi, lo]
  {
  }

  /** Every byte of `bs` as `%02X`, the groups joined by ':'. */
  function HexColonJoin(bs: seq<uint8>): (s: string)
    ensures |s| == if bs == [] then 0 else 3 * |bs| - 1
    decreases |bs|
  {
    if bs == [] then ""
    else if |bs| == 1 then HexByte(bs[0])
    else HexByte(bs[0]) + ":" + HexColonJoin(bs[1..])
  }

  /** Joining a first byte in front of a non-empty sequence adds its group and a separator. */
  lemma JoinCons(b: uint8, bs: seq<uint8>)
    requires bs != []
    ensures HexColonJoin([b] + bs) == HexByte(b) + ":" + HexColonJoin(bs)
  {
  }

  /** Byte i of `bs` is printed at positions 3i and 3i+1 of the joined text. */
  lemma {:induction false} JoinGroupAt(bs: seq<uint8>, i: nat)
    requires i < |bs|
    ensures 3 * i + 1 < |HexColonJoin(bs)|
    ensures [HexColonJoin(bs)[3 * i], HexColonJoin(bs)[3 * i + 1]] == HexByte(bs[i])
    decreases i
  {
    var s, head := HexColonJoin(bs), HexByte(bs[0]);
    if |bs| == 1 {
      assert s == head;
    } else {
      var rest := HexColonJoin(bs[1..]);
      assert s == head + ":" + rest;
      if i > 0 {
        JoinGroupAt(bs[1..], i - 1);
        assert s[3 * i] == rest[3 * (i - 1)] && s[3 * i + 1] == rest[3 * (i - 1) + 1];
      } else {
        assert s[0] == head[0] && s[1] == head[1];
      }
    }
  }

  /** A separator follows every group but the last. */
  lemma {:induction false} JoinSeparatorAt(bs: seq<uint8>, i: nat)
    requires i + 1 < |bs|
    ensures 3 * i + 2 < |HexColonJoin(bs)| && HexColonJoin(bs)[3 * i + 2] == ':'
    decreases i
  {
    if i > 0 {
      JoinSeparatorAt(bs[1..], i - 1);
    }
  }

  /** Strict inverse of HexColonJoin: one or more `%02X` groups separated by ':'. */
  function ParseHexColon(s: string): (r: Option<seq<uint8>>)
    decreases |s|
  {
    if |s| < 2 then None
    else match ParseHexByte(s[0], s[1])
      case None => None
      case Some(b) =>
        if |s| == 2 then Some([b])
        else if s[2] != ':' then None
        else match ParseHexColon(s[3..])
          case None => None
          case Some(rest) => Some([b] + rest)
  }

  lemma {:induction false} JoinThenParse(bs: seq<uint8>)
    requires bs != []
    ensures ParseHexColon(HexColonJoin(bs)) == Some(bs)
    decreases |bs|
  {
    var s, b := HexColonJoin(bs), bs[0];
    HexByteRoundTrip(b);
    assert [s[0], s[1]] == HexByte(b);
    assert ParseHexByte(s[0], s[1]) == Some(b);
    if |bs| == 1 {
      assert bs == [b];
    } else {
      var rest := bs[1..];
      assert s[2] == ':' && s[3..] == HexColonJoin(rest);
      JoinThenParse(rest);
      assert bs == [b] + rest;
    }
  }

  lemma {:induction false} ParseThenJoin(s: string, bs: seq<uint8>)
    requires ParseHexColon(s) == Some(bs)
    ensures bs != [] && HexColonJoin(bs) == s
    decreases |s|
  {
    var b := ParseHexByte(s[0], s[1]).value;
    ParseHexByteCanonical(s[0], s[1], b);
    if |s| == 2 {
      assert bs == [b];
    } else {
      var rest := ParseHexColon(s[3..]).value;
      ParseThenJoin(s[3..], rest);
      assert bs == [b] + rest && bs[1..] == rest;
      assert s == [s[0], s[1]] + ":" + s[3..];
    }
  }

  /** The text `sprintf` writes for the first six bytes of `raw`. */
  function FormatMac(raw: seq<uint8>): (s: string)
    requires |raw| >= MAC_LENGTH
    ensures |s| == MAC_TEXT_LENGTH
  {
    HexColonJoin(raw[..MAC_LENGTH])
  }

  /**
   * The formatted address is 17 characters: ':' at positions 2, 5, 8, 11 and
   * 14 and nowhere else, every other character an upper-case hexadecimal
   * digit, and byte i printed as the digits at positions 3i and 3i+1.
   */
  lemma FormatMacLayout(raw: seq<uint8>)
    requires |raw| >= MAC_LENGTH
    ensures var s := FormatMac(raw);
      && |s| == MAC_TEXT_LENGTH
      && (forall j :: 0 <= j < |s| ==> (s[j] == ':' <==> j in {2, 5, 8, 11, 14}))
      && (forall j :: 0 <= j < |s| && s[j] != ':' ==> IsHexDigit(s[j]))
      && (forall i :: 0 <= i < MAC_LENGTH ==> [s[3 * i], s[3 * i + 1]] == HexByte(raw[i]))
  {
    var bs, s := raw[..MAC_LENGTH], FormatMac(raw);
    forall i | 0 <= i < MAC_LENGTH
      ensures [s[3 * i], s[3 * i + 1]] == HexByte(raw[i])
    {
      JoinGroupAt(bs, i);
    }
    JoinSeparatorAt(bs, 0); JoinSeparatorAt(bs, 1); JoinSeparatorAt(bs, 2);
    JoinSeparatorAt(bs, 3); JoinSeparatorAt(bs, 4);
    forall j | 0 <= j < |s| && j !in {2, 5, 8, 11, 14}
      ensures IsHexDigit(s[j])
    {
      var i := if j < 2 then 0 else if j < 5 then 1 else if j < 8 then 2
               else if j < 11 then 3 else if j < 14 then 4 else 5;
      assert j == 3 * i || j == 3 * i + 1;
      assert [s[3 * i], s[3 * i + 1]] == HexByte(raw[i]);
    }
  }

  lemma HexByteExamples()
    ensures HexByte(0xAA) == "AA" && HexByte(0xBB) == "BB" && HexByte(0xCC) == "CC"
    ensures HexByte(0xDD) == "DD" && HexByte(0xEE) == "EE" && HexByte(0xFF) == "FF"
  {
  }

  lemma FormatTailExample()
    ensures HexColonJoin([0xDD, 0xEE, 0xFF]) == "DD:EE:FF"
  {
    HexByteExamples();
    JoinCons(0xEE, [0xFF]);
    JoinCons(0xDD, [0xEE, 0xFF]);
  }

  lemma FormatMiddleExample()
    ensures HexColonJoin([0xBB, 0xCC, 0xDD, 0xEE, 0xFF]) == "BB:CC:DD:EE:FF"
  {
    HexByteExamples();
    FormatTailExample();
    JoinCons(0xCC, [0xDD, 0xEE, 0xFF]);
    JoinCons(0xBB, [0xCC, 0xDD, 0xEE, 0xFF]);
  }

  /** The address AA BB CC DD EE FF prints as "AA:BB:CC:DD:EE:FF". */
  lemma FormatMacExample()
    ensures FormatMac([0xAA, 0xBB, 0xCC, 0xDD, 0xEE, 0xFF]) == "AA:BB:CC:DD:EE:FF"
  {
    var raw: seq<uint8> := [0xAA, 0xBB, 0xCC, 0xDD, 0xEE, 0xFF];
    assert raw[..MAC_LENGTH] == raw;
    HexByteExamples();
    FormatMiddleExample();
    JoinCons(0xAA, [0xBB, 0xCC, 0xDD, 0xEE, 0xFF]);
  }

  /** Reads back a formatted address; None unless `s` is exactly in the `%02X:` layout. */
  function ParseMac(s: string): (r: Option<seq<uint8>>)
  {
    if |s| != MAC_TEXT_LENGTH then None else ParseHexColon(s)
  }

  /** A parsed address always has six bytes. */
  lemma ParseMacLength(s: string)
    requires ParseMac(s).Some?
    ensures |ParseMac(s).value| == MAC_LENGTH
  {
    ParseThenJoin(s, ParseMac(s).value);
  }

  /**
   * The formatter and the parser are inverse: `s` is the text of the six
   * bytes `raw` exactly when `s` parses to `raw`.
   */
  lemma FormatParseInverse(raw: seq<uint8>, s: string)
    requires |raw| == MAC_LENGTH
    ensures ParseMac(s) == Some(raw) <==> FormatMac(raw) == s
  {
    assert raw[..MAC_LENGTH] == raw;
    if FormatMac(raw) == s {
      JoinThenParse(raw);
    }
    if ParseMac(s) == Some(raw) {
      ParseThenJoin(s, raw);
    }
  }

  /** Different addresses never print the same: the text determines the six bytes. */
  lemma FormatMacInjective(a: seq<uint8>, b: seq<uint8>)
    requires |a| >= MAC_LENGTH && |b| >= MAC_LENGTH
    requires FormatMac(a) == FormatMac(b)
    ensures a[..MAC_LENGTH] == b[..MAC_LENGTH]
  {
    JoinThenParse(a[..MAC_LENGTH]);
    JoinThenParse(b[..MAC_LENGTH]);
  }
}
