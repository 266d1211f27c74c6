/**
 * Decoding of PHP string literals and the storage escaping applied to every
 * extracted message (`_formatString`): `stripcslashes` for double-quoted
 * literals, the two single-quote escapes, CRLF folding and `addcslashes`
 * over the bytes 0x00-0x1F, backslash and double quote.
 */
module Escapes {
  import opened Text

  predicate IsOctal(c: char) { '0' <= c <= '7' }

  predicate IsHex(c: char) { '0' <= c <= '9' || 'a' <= c <= 'f' || 'A' <= c <= 'F' }

  function HexValue(c: char): (v: nat)
    requires IsHex(c)
    ensures v < 16
  {
    if '0' <= c <= '9' then c as int - '0' as int
    else if 'a' <= c <= 'f' then c as int - 'a' as int + 10
    else c as int - 'A' as int + 10
  }

  function OctalValue(d: string): nat
    requires forall i :: 0 <= i < |d| ==> IsOctal(d[i])
  {
    if d == [] then 0
    else
      assert IsOctal(d[|d| - 1]);
      8 * OctalValue(d[..|d| - 1]) + (d[|d| - 1] as int - '0' as int)
  }

  /** A C `(char)` cast: the value modulo 256, as a byte. */
  function Byte(v: nat): char {
    (v % 256) as char
  }

  /** How many octal digits (at most three) `s` starts with. */
  function OctalRun(s: string): (n: nat)
    ensures n <= 3 && n <= |s|
    ensures forall i :: 0 <= i < n ==> IsOctal(s[i])
  {
    if |s| >= 1 && IsOctal(s[0]) then
      if |s| >= 2 && IsOctal(s[1]) then
        if |s| >= 3 && IsOctal(s[2]) then 3 else 2
      else 1
    else 0
  }

  /** The one-letter escapes `stripcslashes` knows, and backslash itself. */
  predicate IsSimpleEscape(c: char) {
    c in "nratvbf\\"
  }

  function SimpleEscape(c: char): char
    requires IsSimpleEscape(c)
  {
    match c
    case 'n' => '\n'
    case 'r' => '\r'
    case 'a' => 7 as char
    case 't' => '\t'
    case 'v' => 11 as char
    case 'b' => 8 as char
    case 'f' => 12 as char
    case _ => '\\'
  }

  /**
   * `stripcslashes`: a backslash followed by a simple escape letter, by `x` and
   * one or two hex digits, or by one to three octal digits stands for that
   * byte; before any other character it is dropped; a final lone backslash
   * stays.
   */
  function StripCSlashes(s: string): string
    decreases |s|
  {
    if |s| == 0 then ""
    else if s[0] != '\\' || |s| == 1 then [s[0]] + StripCSlashes(s[1..])
    else if IsSimpleEscape(s[1]) then [SimpleEscape(s[1])] + StripCSlashes(s[2..])
    else if s[1] == 'x' && |s| > 2 && IsHex(s[2]) then
      if |s| > 3 && IsHex(s[3]) then [Byte(16 * HexValue(s[2]) + HexValue(s[3]))] + StripCSlashes(s[4..])
      else [Byte(HexValue(s[2]))] + StripCSlashes(s[3..])
    else
      var n := OctalRun(s[1..]);
      if n > 0 then [Byte(OctalValue(s[1..1 + n]))] + StripCSlashes(s[1 + n..])
      else [s[1]] + StripCSlashes(s[2..])
  }

  /** `sprintf("%03o", v)` for a byte value. */
  function Octal3(v: nat): (r: string)
    requires v < 256
    ensures |r| == 3 && forall i :: 0 <= i < 3 ==> IsOctal(r[i])
    ensures OctalValue(r) == v
  {
    var r := [Digit(v / 64), Digit(v / 8 % 8), Digit(v % 8)];
    assert r[..2][..1] == r[..1] == [Digit(v / 64)];
    assert OctalValue(r[..1]) == v / 64;
    assert OctalValue(r[..2]) == 8 * (v / 64) + v / 8 % 8;
    r
  }

  /** What `addcslashes($s, "\0..\37\\\"")` writes for one byte. */
  function EscapeChar(c: char): (r: string)
    ensures |r| >= 1
  {
    if c == '\\' || c == '"' then ['\\', c]
    else if c as int < 32 then
      if c == '\n' then "\\n"
      else if c == '\t' then "\\t"
      else if c == '\r' then "\\r"
      else if c as int == 7 then "\\a"
      else if c as int == 11 then "\\v"
      else if c as int == 8 then "\\b"
      else if c as int == 12 then "\\f"
      else ['\\'] + Octal3(c as int)
    else [c]
  }

  /** `addcslashes($s, "\0..\37\\\"")`. */
  function AddCSlashes(s: string): string
  {
    if s == [] then [] else EscapeChar(s[0]) + AddCSlashes(s[1..])
  }

  /** The escape of one byte consists of printable bytes only. */
  lemma EscapeCharPrintable(c: char)
    ensures forall i :: 0 <= i < |EscapeChar(c)| ==> EscapeChar(c)[i] as int >= 32
  {
  }

  /** Every byte below 32 is replaced by a printable escape. */
  lemma {:induction false} AddCSlashesPrintable(s: string)
    ensures forall i :: 0 <= i < |AddCSlashes(s)| ==> AddCSlashes(s)[i] as int >= 32
  {
    if s != [] {
      AddCSlashesPrintable(s[1..]);
      EscapeCharPrintable(s[0]);
      var e := EscapeChar(s[0]);
      var r := AddCSlashes(s);
      forall i | 0 <= i < |r| ensures r[i] as int >= 32 {
        if i >= |e| { assert r[i] == AddCSlashes(s[1..])[i - |e|]; }
      }
    }
  }

  /**
   * A stored message: every backslash opens an escape that `stripcslashes`
   * reads back, no double quote stands alone and no control byte appears.
   */
  predicate WellEscaped(r: string)
    decreases |r|
  {
    if r == [] then true
    else if r[0] == '\\' then
      |r| >= 2 &&
      ((r[1] in "nratvbf\\\"" && WellEscaped(r[2..])) ||
       (|r| >= 4 && OctalRun(r[1..]) == 3 && WellEscaped(r[4..])))
    else r[0] != '"' && r[0] as int >= 32 && WellEscaped(r[1..])
  }

  /** A control byte without a letter escape is written as three octal digits, which read back. */
  lemma StripOctalEscape(c: char, t: string)
    requires c as int < 32
    requires c != '\n' && c != '\t' && c != '\r' && c as int != 7 && c as int != 11 && c as int != 8 && c as int != 12
    ensures StripCSlashes(EscapeChar(c) + t) == [c] + StripCSlashes(t)
  {
    var o := Octal3(c as int);
    var s := ['\\'] + o + t;
    assert EscapeChar(c) + t == s;
    assert s[0] == '\\' && s[1] == o[0] && IsOctal(s[1]);
    assert !IsSimpleEscape(s[1]) && s[1] != 'x';
    assert s[1..4] == o;
    assert OctalRun(s[1..]) == 3;
    assert Byte(OctalValue(s[1..4])) == c;
    assert s[4..] == t;
  }

  /** A control byte written as a backslash and a letter reads back. */
  lemma StripLetterEscape(c: char, letter: char, t: string)
    requires IsSimpleEscape(letter) && SimpleEscape(letter) == c
    requires EscapeChar(c) == ['\\', letter]
    ensures StripCSlashes(EscapeChar(c) + t) == [c] + StripCSlashes(t)
  {
    var s := ['\\', letter] + t;
    assert s[0] == '\\' && s[1] == letter;
    assert s[2..] == t;
  }

  /** A backslash or double quote written behind a backslash reads back. */
  lemma StripQuotedEscape(c: char, t: string)
    requires c == '\\' || c == '"'
    ensures StripCSlashes(EscapeChar(c) + t) == [c] + StripCSlashes(t)
  {
    var s := ['\\', c] + t;
    assert EscapeChar(c) + t == s;
    assert s[0] == '\\' && s[1] == c;
    assert s[2..] == t;
    if c == '"' {
      assert OctalRun(s[1..]) == 0;
    }
  }

  lemma StripEscapeChar(c: char, t: string)
    ensures StripCSlashes(EscapeChar(c) + t) == [c] + StripCSlashes(t)
  {
    if c == '\\' || c == '"' {
      StripQuotedEscape(c, t);
    } else if c == '\n' {
      StripLetterEscape(c, 'n', t);
    } else if c == '\t' {
      StripLetterEscape(c, 't', t);
    } else if c == '\r' {
      StripLetterEscape(c, 'r', t);
    } else if c as int == 7 {
      StripLetterEscape(c, 'a', t);
    } else if c as int == 11 {
      StripLetterEscape(c, 'v', t);
    } else if c as int == 8 {
      StripLetterEscape(c, 'b', t);
    } else if c as int == 12 {
      StripLetterEscape(c, 'f', t);
    } else if c as int < 32 {
      StripOctalEscape(c, t);
    } else {
      var s := EscapeChar(c) + t;
      assert s[1..] == t;
    }
  }

  /** `stripcslashes` undoes `addcslashes`: the stored text decodes to the message. */
  lemma {:induction false} StripAddCSlashes(s: string)
    ensures StripCSlashes(AddCSlashes(s)) == s
  {
    if s != [] {
      StripAddCSlashes(s[1..]);
      StripEscapeChar(s[0], AddCSlashes(s[1..]));
    }
  }

  /** `addcslashes` output is always well escaped. */
  lemma {:induction false} AddCSlashesWellEscaped(s: string)
    ensures WellEscaped(AddCSlashes(s))
  {
    if s != [] {
      AddCSlashesWellEscaped(s[1..]);
      var e := EscapeChar(s[0]);
      var t := AddCSlashes(s[1..]);
      var r := e + t;
      if |e| == 1 {
        assert r[1..] == t;
      } else if |e| == 2 {
        assert r[2..] == t;
      } else {
        assert r[4..] == t;
        assert r[1..][..3] == e[1..];
      }
    }
  }

  /** `strtr($s, ["\\'" => "'", '\\\\' => '\\'])`: the only escapes of a single-quoted literal. */
  function UnescapeSingle(s: string): string
    decreases |s|
  {
    if |s| >= 2 && s[0] == '\\' && (s[1] == '\'' || s[1] == '\\') then [s[1]] + UnescapeSingle(s[2..])
    else if s == [] then []
    else [s[0]] + UnescapeSingle(s[1..])
  }

  /** How PHP writes a string as a single-quoted literal body. */
  function EscapeSingle(s: string): string
  {
    if s == [] then []
    else (if s[0] == '\'' || s[0] == '\\' then ['\\', s[0]] else [s[0]]) + EscapeSingle(s[1..])
  }

  /** The single-quote decoding inverts PHP's single-quote escaping. */
  lemma {:induction false} UnescapeEscapeSingle(s: string)
    ensures UnescapeSingle(EscapeSingle(s)) == s
  {
    if s != [] {
      UnescapeEscapeSingle(s[1..]);
      var e := EscapeSingle(s);
      if s[0] == '\'' || s[0] == '\\' {
        assert e[2..] == EscapeSingle(s[1..]);
      } else {
        assert e[1..] == EscapeSingle(s[1..]);
      }
    }
  }

  /** A single-quoted body without backslashes is taken literally. */
  lemma {:induction false} UnescapeSinglePlain(s: string)
    requires '\\' !in s
    ensures UnescapeSingle(s) == s
  {
    if s != [] {
      UnescapeSinglePlain(s[1..]);
    }
  }

  /** The literal's text between its quotes, decoded according to its quote style. */
  function Decoded(literal: string): string
  {
    var quote := if |literal| >= 1 then literal[..1] else "";
    var body := if |literal| >= 2 then literal[1..|literal| - 1] else "";
    if quote == "\"" then StripCSlashes(body) else UnescapeSingle(body)
  }

  /** `_formatString`: decode the literal, fold CRLF to LF, escape again. */
  function FormatString(literal: string): string
  {
    AddCSlashes(StrReplace(Decoded(literal), "\r\n", "\n"))
  }

  /**
   * A formatted literal holds no raw control byte, is well escaped, and
   * decodes back to the literal's value with CRLF folded to LF.
   */
  lemma FormatStringStorageSafe(literal: string)
    ensures forall i :: 0 <= i < |FormatString(literal)| ==> FormatString(literal)[i] as int >= 32
    ensures WellEscaped(FormatString(literal))
    ensures StripCSlashes(FormatString(literal)) == StrReplace(Decoded(literal), "\r\n", "\n")
  {
    var v := StrReplace(Decoded(literal), "\r\n", "\n");
    AddCSlashesPrintable(v);
    AddCSlashesWellEscaped(v);
    StripAddCSlashes(v);
  }
}
