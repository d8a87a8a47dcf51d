/** `bytesToHexString`: the tag identifier formatter used when a tag is logged.
    Every byte becomes two upper-case hexadecimal digits (`"%02X"`), the
    digit pairs are joined with `:`, and a null array prints as `null`.

    The module also defines the inverse parser, so that the format can be shown
    to lose nothing: parsing a formatted array gives the array back, and only
    formatted strings parse. */
module HexString {
  import opened KotlinTypes

  const HexDigits: string := "0123456789ABCDEF"

  predicate IsUpperHexDigit(c: char) {
    '0' <= c <= '9' || 'A' <= c <= 'F'
  }

  /** The value of one upper-case hexadecimal digit. */
  function DigitValue(c: char): (v: int)
    requires IsUpperHexDigit(c)
    ensures 0 <= v < 16 && HexDigits[v] == c
  {
    if c <= '9' then c as int - '0' as int else c as int - 'A' as int + 10
  }

  lemma DigitOfValue(v: int)
    requires 0 <= v < 16
    ensures IsUpperHexDigit(HexDigits[v]) && DigitValue(HexDigits[v]) == v
  {
  }

  /** The JVM formatter prints a negative `Byte` as its value plus 2^8. */
  function Unsigned(b: JByte): (u: int)
    ensures 0 <= u < 256
    ensures (u - b as int) % 256 == 0
  {
    if b < 0 then b as int + 256 else b as int
  }

  /** The signed byte whose unsigned reading is `u`. */
  function Signed(u: int): (b: JByte)
    requires 0 <= u < 256
    ensures Unsigned(b) == u
  {
    if u < 128 then u as JByte else (u - 256) as JByte
  }

  /** `"%02X".format(b)`: two upper-case hex digits spelling the unsigned value. */
  function FormatByte(b: JByte): (r: string)
    ensures |r| == 2 && IsUpperHexDigit(r[0]) && IsUpperHexDigit(r[1])
    ensures 16 * DigitValue(r[0]) + DigitValue(r[1]) == Unsigned(b)
  {
    var u := Unsigned(b);
    DigitOfValue(u / 16);
    DigitOfValue(u % 16);
    [HexDigits[u / 16], HexDigits[u % 16]]
  }

  /** `bytes.joinToString(":") { "%02X".format(it) }` */
  function JoinHex(bytes: seq<JByte>): (r: string)
    ensures |bytes| == 0 ==> r == ""
    ensures |bytes| > 0 ==> |r| == 3 * |bytes| - 1
    ensures forall k :: 0 <= k < |r| ==> IsUpperHexDigit(r[k]) || r[k] == ':'
  {
    if |bytes| == 0 then ""
    else if |bytes| == 1 then FormatByte(bytes[0])
    else FormatByte(bytes[0]) + ":" + JoinHex(bytes[1..])
  }

  /** `bytesToHexString(bytes)` */
  function BytesToHexString(bytes: Option<seq<JByte>>): (r: string)
    ensures bytes.None? ==> r == "null"
    ensures bytes.Some? ==> r == JoinHex(bytes.value) && r != "null"
  {
    match bytes
    case None => "null"
    case Some(bs) =>
      var r := JoinHex(bs);
      assert |r| > 0 ==> r[0] != 'n';
      r
  }

  /** The layout of a formatted array of `n > 0` bytes: `3n - 1` characters,
      byte `i` spelled at offset `3i`, and a `:` after every byte but the last. */
  lemma {:induction false} JoinHexShape(bytes: seq<JByte>)
    requires |bytes| > 0
    ensures |JoinHex(bytes)| == 3 * |bytes| - 1
    ensures forall i :: 0 <= i < |bytes| ==> JoinHex(bytes)[3 * i..3 * i + 2] == FormatByte(bytes[i])
    ensures forall i :: 0 <= i < |bytes| - 1 ==> JoinHex(bytes)[3 * i + 2] == ':'
  {
    if |bytes| > 1 {
      var rest := bytes[1..];
      JoinHexShape(rest);
      var t := JoinHex(rest);
      var r := JoinHex(bytes);
      assert r == FormatByte(bytes[0]) + ":" + t;
      assert forall k :: 3 <= k < |r| ==> r[k] == t[k - 3];
      forall i | 1 <= i < |bytes|
        ensures r[3 * i..3 * i + 2] == FormatByte(bytes[i])
      {
        assert bytes[i] == rest[i - 1];
        assert t[3 * (i - 1)..3 * (i - 1) + 2] == FormatByte(rest[i - 1]);
        assert r[3 * i..3 * i + 2] == t[3 * (i - 1)..3 * (i - 1) + 2];
      }
      forall i | 1 <= i < |bytes| - 1
        ensures r[3 * i + 2] == ':'
      {
        assert t[3 * (i - 1) + 2] == ':';
      }
    }
  }

  /** Reads two hex digits back into the byte they spell. */
  function ParseByte(hi: char, lo: char): (r: Option<JByte>)
    ensures r.Some? <==> IsUpperHexDigit(hi) && IsUpperHexDigit(lo)
    ensures r.Some? ==> Unsigned(r.value) == 16 * DigitValue(hi) + DigitValue(lo)
  {
    if IsUpperHexDigit(hi) && IsUpperHexDigit(lo) then
      Some(Signed(16 * DigitValue(hi) + DigitValue(lo)))
    else
      None
  }

  /** Reads a non-empty `:`-joined list of digit pairs. */
  function ParseJoined(s: string): Option<seq<JByte>>
    decreases |s|
  {
    if |s| < 2 then None
    else
      match ParseByte(s[0], s[1])
      case None => None
      case Some(b) =>
        if |s| == 2 then Some([b])
        else if s[2] != ':' then None
        else
          match ParseJoined(s[3..])
          case None => None
          case Some(rest) => Some([b] + rest)
  }

  /** The inverse of `BytesToHexString`: `None` for a string the formatter
      cannot produce, `Some(None)` for `null`, `Some(Some(bs))` for an array. */
  function ParseHexString(s: string): Option<Option<seq<JByte>>>
  {
    if s == "null" then Some(None)
    else if s == "" then Some(Some([]))
    else
      match ParseJoined(s)
      case None => None
      case Some(bs) => Some(Some(bs))
  }

  lemma UnsignedInjective(a: JByte, b: JByte)
    requires Unsigned(a) == Unsigned(b)
    ensures a == b
  {
  }

  /** Two hex digits determine their byte and the byte determines its digits. */
  lemma ParseFormatByte(b: JByte)
    ensures ParseByte(FormatByte(b)[0], FormatByte(b)[1]) == Some(b)
  {
    var f := FormatByte(b);
    UnsignedInjective(ParseByte(f[0], f[1]).value, b);
  }

  lemma FormatParseByte(hi: char, lo: char)
    requires ParseByte(hi, lo).Some?
    ensures FormatByte(ParseByte(hi, lo).value) == [hi, lo]
  {
    var f := FormatByte(ParseByte(hi, lo).value);
    DigitValueInjective(f[0], hi, DigitValue(f[1]), DigitValue(lo));
  }

  lemma DigitValueInjective(c: char, d: char, lowC: int, lowD: int)
    requires IsUpperHexDigit(c) && IsUpperHexDigit(d)
    requires 0 <= lowC < 16 && 0 <= lowD < 16
    requires 16 * DigitValue(c) + lowC == 16 * DigitValue(d) + lowD
    ensures c == d && lowC == lowD
  {
  }

  lemma {:induction false} ParseJoinHex(bytes: seq<JByte>)
    requires |bytes| > 0
    ensures ParseJoined(JoinHex(bytes)) == Some(bytes)
  {
    var f := FormatByte(bytes[0]);
    ParseFormatByte(bytes[0]);
    if |bytes| > 1 {
      var s := JoinHex(bytes);
      assert s == f + ":" + JoinHex(bytes[1..]);
      assert s[0] == f[0] && s[1] == f[1] && s[2] == ':' && |s| > 3;
      assert s[3..] == JoinHex(bytes[1..]);
      ParseJoinHex(bytes[1..]);
      assert bytes == [bytes[0]] + bytes[1..];
    } else {
      assert JoinHex(bytes) == f;
      assert bytes == [bytes[0]];
    }
  }

  lemma {:induction false} JoinHexParse(s: string, bytes: seq<JByte>)
    requires ParseJoined(s) == Some(bytes)
    ensures |bytes| > 0 && JoinHex(bytes) == s
    decreases |s|
  {
    var b := ParseByte(s[0], s[1]).value;
    FormatParseByte(s[0], s[1]);
    if |s| == 2 {
      assert s == [s[0], s[1]];
    } else {
      var rest := ParseJoined(s[3..]).value;
      JoinHexParse(s[3..], rest);
      assert bytes == [b] + rest;
      assert bytes[1..] == rest;
      assert s == [s[0], s[1]] + ":" + s[3..];
    }
  }

  /** Parsing a formatted array gives the array back, `null` included. */
  lemma ParseBytesToHexString(bytes: Option<seq<JByte>>)
    ensures ParseHexString(BytesToHexString(bytes)) == Some(bytes)
  {
    if bytes.Some? && |bytes.value| > 0 {
      ParseJoinHex(bytes.value);
    }
  }

  /** Only what the formatter prints parses, and it parses to what was printed. */
  lemma BytesToHexStringParse(s: string, bytes: Option<seq<JByte>>)
    requires ParseHexString(s) == Some(bytes)
    ensures BytesToHexString(bytes) == s
  {
    if s != "null" && s != "" {
      JoinHexParse(s, bytes.value);
    }
  }
}
