/** Percent escapes (section 2.1 of RFC 3986): the strict scan of src/realtime/query.rs and
    src/realtime/path.rs, and the lenient decoding behind every parser. */
module Percent {
  import opened Common
  import opened Text

  predicate IsHexDigit(c: char) { IsDigit(c) || 'a' <= c <= 'f' || 'A' <= c <= 'F' }

  function HexValue(c: char): (v: nat)
    requires IsHexDigit(c)
    ensures v < 16
  {
    if IsDigit(c) then (c as int - '0' as int)
    else if c <= 'F' then c as int - 'A' as int + 10
    else c as int - 'a' as int + 10
  }

  function UpperHex(v: nat): (c: char)
    requires v < 16
    ensures IsHexDigit(c) && HexValue(c) == v
  {
    if v < 10 then ('0' as int + v) as char else ('A' as int + v - 10) as char
  }

  /** An escape stands at the head: '%' and two hex digits. */
  predicate EscapeAtHead(s: string) {
    |s| >= 3 && s[0] == '%' && IsHexDigit(s[1]) && IsHexDigit(s[2])
  }

  function EscapedByte(s: string): char
    requires EscapeAtHead(s)
  {
    (16 * HexValue(s[1]) + HexValue(s[2])) as char
  }

  /** `percent_decode`: escapes become their bytes, anything else stays, a malformed '%' included. */
  function PercentDecode(s: string): string {
    if s == "" then ""
    else if EscapeAtHead(s) then [EscapedByte(s)] + PercentDecode(s[3..])
    else [s[0]] + PercentDecode(s[1..])
  }

  /** Every '%' starts an escape, reading left to right. */
  predicate WellEscaped(s: string) {
    if s == "" then true
    else if s[0] == '%' then EscapeAtHead(s) && WellEscaped(s[3..])
    else WellEscaped(s[1..])
  }

  /** `raw` spells `bytes`: each byte stands for itself, unless it is '%', or is escaped. */
  predicate Spells(raw: string, bytes: string)
    decreases |bytes|
  {
    if bytes == "" then raw == ""
    else
      || (raw != "" && raw[0] == bytes[0] && raw[0] != '%' && Spells(raw[1..], bytes[1..]))
      || (EscapeAtHead(raw) && EscapedByte(raw) == bytes[0] && Spells(raw[3..], bytes[1..]))
  }

  /** Strict decoding is exact: a string decodes to what it spells, and spells something only when its
      escapes are well formed. */
  lemma {:induction false} DecodesWhatItSpells(raw: string, bytes: string)
    ensures Spells(raw, bytes) <==> WellEscaped(raw) && PercentDecode(raw) == bytes
    decreases |raw|
  {
    if raw != "" && bytes != "" {
      if EscapeAtHead(raw) {
        DecodesWhatItSpells(raw[3..], bytes[1..]);
      } else {
        DecodesWhatItSpells(raw[1..], bytes[1..]);
      }
      assert bytes == [bytes[0]] + bytes[1..];
    }
  }

  /** A malformed escape survives lenient decoding as a literal '%'. */
  lemma {:induction false} MalformedKeepsPercent(raw: string)
    requires !WellEscaped(raw)
    ensures '%' in PercentDecode(raw)
    decreases |raw|
  {
    if EscapeAtHead(raw) {
      MalformedKeepsPercent(raw[3..]);
    } else if raw[0] != '%' {
      MalformedKeepsPercent(raw[1..]);
    }
  }

  /** The escape scan of `decode_component` and `decode_call_id`. */
  method ScanEscapes(raw: string) returns (wellEscaped: bool)
    ensures wellEscaped == WellEscaped(raw)
  {
    var index := 0;
    while index < |raw|
      invariant 0 <= index <= |raw|
      invariant WellEscaped(raw) == WellEscaped(raw[index..])
    {
      var rest := raw[index..];
      if raw[index] == '%' {
        if index + 2 >= |raw| || !IsHexDigit(raw[index + 1]) || !IsHexDigit(raw[index + 2]) {
          return false;
        }
        assert rest[3..] == raw[index + 3..];
        index := index + 3;
      } else {
        assert rest[1..] == raw[index + 1..];
        index := index + 1;
      }
    }
    return true;
  }

  // ----- Escapes by their digits -----

  const LOWER_DIGITS := "0123456789abcdef"
  const UPPER_DIGITS := "0123456789ABCDEF"

  lemma DigitsRead(v: nat)
    requires v < 16
    ensures IsHexDigit(LOWER_DIGITS[v]) && HexValue(LOWER_DIGITS[v]) == v
    ensures IsHexDigit(UPPER_DIGITS[v]) && HexValue(UPPER_DIGITS[v]) == v
    ensures UpperHex(v) == UPPER_DIGITS[v]
  {
  }

  lemma HexDigitText(c: char)
    ensures IsHexDigit(c) <==> c in LOWER_DIGITS || c in UPPER_DIGITS
  {
    if IsHexDigit(c) {
      DigitsRead(HexValue(c));
      assert c == LOWER_DIGITS[HexValue(c)] || c == UPPER_DIGITS[HexValue(c)];
    }
    if c in LOWER_DIGITS {
      var v :| 0 <= v < 16 && LOWER_DIGITS[v] == c;
      DigitsRead(v);
    }
    if c in UPPER_DIGITS {
      var v :| 0 <= v < 16 && UPPER_DIGITS[v] == c;
      DigitsRead(v);
    }
  }

  /** A '%' and two digits, each in either case, is the byte they write; any other character is itself. */
  lemma EscapeRead(byte: nat, high: string, low: string, rest: string)
    requires byte < 256 && high in {LOWER_DIGITS, UPPER_DIGITS} && low in {LOWER_DIGITS, UPPER_DIGITS}
    ensures PercentDecode(['%', high[byte / 16], low[byte % 16]] + rest) == [byte as char] + PercentDecode(rest)
    ensures WellEscaped(['%', high[byte / 16], low[byte % 16]] + rest) <==> WellEscaped(rest)
  {
    DigitsRead(byte / 16);
    DigitsRead(byte % 16);
    var s := ['%', high[byte / 16], low[byte % 16]] + rest;
    assert s[1] == high[byte / 16] && s[2] == low[byte % 16] && s[3..] == rest;
    assert 16 * (byte / 16) + byte % 16 == byte;
    hide HexValue;
  }

  lemma LiteralRead(c: char, rest: string)
    requires c != '%'
    ensures PercentDecode([c] + rest) == [c] + PercentDecode(rest)
    ensures WellEscaped([c] + rest) <==> WellEscaped(rest)
  {
    assert ([c] + rest)[1..] == rest;
  }
}
