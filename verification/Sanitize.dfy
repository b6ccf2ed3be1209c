/**
 Escaping control characters before a value is logged.

 `Sanitize` is the function; `SanitizeToLog` is the source's loop over a string builder. `Unescape` is
 the decoder that shows what the escaping preserves.
 */
module Sanitize {
  import opened Options

  /** Unicode category Cc. */
  predicate IsControl(c: char) { c <= '\U{001F}' || '\U{007F}' <= c <= '\U{009F}' }

  const HEX_DIGITS := "0123456789ABCDEF"

  /** r >> 4k */
  function ShiftRight(r: nat, k: nat): nat {
    if k == 0 then r else ShiftRight(r, k - 1) / 16
  }

  function HexDigit(d: nat): char
    requires d < 16
  {
    if d < 10 then ('0' as int + d) as char else ('A' as int + (d - 10)) as char
  }

  /** The source looks the digit up in a table. */
  lemma {:induction false} HexDigitIsTabled(d: nat)
    requires d < 16
    ensures HexDigit(d) == HEX_DIGITS[d]
  {}

  /** The digit for (r >> 4k) & 0xF */
  function Nibble(r: nat, k: nat): char { HexDigit(ShiftRight(r, k) % 16) }

  /** The lowest `n` hexadecimal digits of `r`, highest first. */
  function Hex(r: nat, n: nat): string {
    if n == 0 then "" else [Nibble(r, n - 1)] + Hex(r, n - 1)
  }

  function Width(r: nat): nat { if r < 0x100 then 2 else if r < 0x10000 then 4 else 8 }

  function Prefix(r: nat): string { if r < 0x100 then "\\x" else if r < 0x10000 then "\\u" else "\\U" }

  /** Two, four or eight digits, by the size of the rune. */
  function HexEscape(r: nat): string { Prefix(r) + Hex(r, Width(r)) }

  function Escape(c: char): string {
    if c == '\n' then "\\n"
    else if c == '\r' then "\\r"
    else if c == '\t' then "\\t"
    else if c == '\U{000B}' then "\\v"
    else if c == '\U{000C}' then "\\f"
    else if IsControl(c) then HexEscape(c as nat)
    else [c]
  }

  function Sanitized(s: string): string {
    if s == "" then "" else Escape(s[0]) + Sanitized(s[1..])
  }

  // ---------------------------------------------------------------- the loop

  class StringBuilder {
    var text: string

    constructor ()
      ensures text == ""
    {
      text := "";
    }

    method WriteString(s: string)
      modifies this
      ensures text == old(text) + s
    {
      text := text + s;
    }

    method WriteRune(c: char)
      modifies this
      ensures text == old(text) + [c]
    {
      text := text + [c];
    }
  }

  /** The next two digits of `r` below position `k`. */
  method WriteTwo(b: StringBuilder, r: nat, k: nat)
    requires k >= 2
    modifies b
    ensures b.text + Hex(r, k - 2) == old(b.text) + Hex(r, k)
  {
    ghost var before := b.text;
    b.WriteRune(Nibble(r, k - 1));
    b.WriteRune(Nibble(r, k - 2));
    assert Hex(r, k) == [Nibble(r, k - 1)] + ([Nibble(r, k - 2)] + Hex(r, k - 2));
    assert b.text == before + [Nibble(r, k - 1)] + [Nibble(r, k - 2)];
  }

  method WriteHexEscape(b: StringBuilder, r: nat)
    modifies b
    ensures b.text == old(b.text) + HexEscape(r)
  {
    ghost var start := b.text;
    var k := Width(r);
    if r < 0x100 {
      b.WriteString("\\x");
      WriteTwo(b, r, k);
    } else if r < 0x10000 {
      b.WriteString("\\u");
      WriteTwo(b, r, k);
      WriteTwo(b, r, k - 2);
    } else {
      b.WriteString("\\U");
      WriteTwo(b, r, k);
      WriteTwo(b, r, k - 2);
      WriteTwo(b, r, k - 4);
      WriteTwo(b, r, k - 6);
    }
    NoDigitsLeft(b.text, start, r);
  }

  lemma {:induction false} NoDigitsLeft(text: string, start: string, r: nat)
    requires text + Hex(r, 0) == start + Prefix(r) + Hex(r, Width(r))
    ensures text == start + HexEscape(r)
  {
    assert text + Hex(r, 0) == text;
  }

  method WriteEscaped(b: StringBuilder, r: char)
    modifies b
    ensures b.text == old(b.text) + Escape(r)
  {
    match r {
      case '\n' => b.WriteString("\\n");
      case '\r' => b.WriteString("\\r");
      case '\t' => b.WriteString("\\t");
      case '\U{000B}' => b.WriteString("\\v");
      case '\U{000C}' => b.WriteString("\\f");
      case _ =>
        if IsControl(r) {
          WriteHexEscape(b, r as nat);
        } else {
          b.WriteRune(r);
        }
    }
  }

  method SanitizeToLog(s: string) returns (out: string)
    ensures out == Sanitized(s)
  {
    var b := new StringBuilder();
    for i := 0 to |s|
      invariant b.text + Sanitized(s[i..]) == Sanitized(s)
    {
      ghost var before := b.text;
      SanitizedStep(before, s, i);
      WriteEscaped(b, s[i]);
    }
    assert s[|s|..] == "";
    out := b.text;
  }

  lemma {:induction false} SanitizedStep(before: string, s: string, i: nat)
    requires i < |s|
    ensures before + Sanitized(s[i..]) == before + Escape(s[i]) + Sanitized(s[i + 1..])
  {
    assert s[i..][1..] == s[i + 1..];
    assert before + (Escape(s[i]) + Sanitized(s[i + 1..])) == before + Escape(s[i]) + Sanitized(s[i + 1..]);
  }

  // ---------------------------------------------------------------- the decoder

  predicate IsHex(c: char) { '0' <= c <= '9' || 'A' <= c <= 'F' }

  function HexValue(c: char): nat
    requires IsHex(c)
  {
    if c <= '9' then c as int - '0' as int else c as int - 'A' as int + 10
  }

  predicate AllHex(s: string) { forall i :: 0 <= i < |s| ==> IsHex(s[i]) }

  /** The number the digits make behind the value `high` of those already read. */
  function HexNumber(high: nat, s: string): nat
    requires AllHex(s)
    decreases |s|
  {
    if s == "" then high else HexNumber(16 * high + HexValue(s[0]), s[1..])
  }

  predicate IsScalar(r: nat) { r < 0xD800 || 0xE000 <= r < 0x11_0000 }

  /** Number of hexadecimal digits behind the letter of a numeric escape. */
  function DigitsOf(c: char): nat {
    if c == 'x' then 2 else if c == 'u' then 4 else if c == 'U' then 8 else 0
  }

  function Letter(c: char): Option<char> {
    if c == 'n' then Some('\n') else if c == 'r' then Some('\r') else if c == 't' then Some('\t')
    else if c == 'v' then Some('\U{000B}') else if c == 'f' then Some('\U{000C}') else None
  }

  function Cons(c: char, rest: Option<string>): Option<string> {
    if rest.None? then None else Some([c] + rest.value)
  }

  /** None for a backslash that starts no escape. */
  function Unescape(s: string): Option<string> {
    if s == "" then Some("")
    else if s[0] != '\\' then Cons(s[0], Unescape(s[1..]))
    else if |s| < 2 then None
    else if Letter(s[1]).Some? then Cons(Letter(s[1]).value, Unescape(s[2..]))
    else
      var n := DigitsOf(s[1]);
      if n == 0 || |s| < 2 + n || !AllHex(s[2..2 + n]) || !IsScalar(HexNumber(0, s[2..2 + n])) then None
      else Cons(HexNumber(0, s[2..2 + n]) as char, Unescape(s[2 + n..]))
  }

  // ---------------------------------------------------------------- laws

  lemma {:induction false} HexDigitReads(d: nat)
    requires d < 16
    ensures IsHex(HexDigit(d)) && HexValue(HexDigit(d)) == d
  {}

  lemma {:induction false} NibbleReads(r: nat, k: nat)
    ensures IsHex(Nibble(r, k)) && HexValue(Nibble(r, k)) == ShiftRight(r, k) % 16
  {
    HexDigitReads(ShiftRight(r, k) % 16);
  }

  lemma {:induction false} NibbleSplits(r: nat, n: nat)
    requires n > 0
    ensures 16 * ShiftRight(r, n) + ShiftRight(r, n - 1) % 16 == ShiftRight(r, n - 1)
  {}

  lemma {:induction false} HexCons(high: nat, c: char, tail: string)
    requires IsHex(c) && AllHex(tail)
    ensures AllHex([c] + tail) && HexNumber(high, [c] + tail) == HexNumber(16 * high + HexValue(c), tail)
  {
    assert ([c] + tail)[1..] == tail;
  }

  lemma {:induction false} HexLength(r: nat, n: nat)
    ensures |Hex(r, n)| == n
  {
    if n == 0 {
    } else {
      HexLength(r, n - 1);
      assert |[Nibble(r, n - 1)] + Hex(r, n - 1)| == 1 + |Hex(r, n - 1)|;
    }
  }

  /** Reading the digits below position n behind the part above it gives the number back. */
  lemma {:induction false} HexReads(r: nat, n: nat)
    ensures AllHex(Hex(r, n)) && HexNumber(ShiftRight(r, n), Hex(r, n)) == r
  {
    if n == 0 {
    } else {
      var first, tail := Nibble(r, n - 1), Hex(r, n - 1);
      assert Hex(r, n) == [first] + tail;
      HexReads(r, n - 1);
      NibbleReads(r, n - 1);
      HexCons(ShiftRight(r, n), first, tail);
      NibbleSplits(r, n);
    }
  }

  lemma {:induction false} ShiftStep(r: nat, k: nat, m: nat)
    requires ShiftRight(r, k) < 0x100 * m
    ensures ShiftRight(r, k + 2) < m
  {
    assert ShiftRight(r, k + 2) == ShiftRight(r, k + 1) / 16 && ShiftRight(r, k + 1) == ShiftRight(r, k) / 16;
  }

  /** A rune fits the width chosen for it. */
  lemma {:induction false} WidthFits(r: nat)
    requires r < 0x1_0000_0000
    ensures ShiftRight(r, Width(r)) == 0
  {
    if r < 0x100 {
      ShiftStep(r, 0, 1);
    } else if r < 0x10000 {
      ShiftStep(r, 0, 0x100);
      ShiftStep(r, 2, 1);
    } else {
      ShiftStep(r, 0, 0x100_0000);
      ShiftStep(r, 2, 0x1_0000);
      ShiftStep(r, 4, 0x100);
      ShiftStep(r, 6, 1);
    }
  }

  /** Every escape of every width, in front of any text, decodes to its rune. */
  lemma {:induction false} HexEscapeDecodes(r: nat, rest: string)
    requires IsScalar(r)
    ensures Unescape(HexEscape(r) + rest) == Cons(r as char, Unescape(rest))
  {
    var n := Width(r);
    HexLength(r, n);
    HexReads(r, n);
    WidthFits(r);
    var s := HexEscape(r) + rest;
    assert s[0] == '\\' && Letter(s[1]).None? && DigitsOf(s[1]) == n;
    assert s[2..2 + n] == Hex(r, n) && s[2 + n..] == rest;
  }

  lemma {:induction false} EscapeDecodes(c: char, rest: string)
    requires c != '\\'
    ensures Unescape(Escape(c) + rest) == Cons(c, Unescape(rest))
  {
    var s := Escape(c) + rest;
    if Escape(c) == [c] {
      assert s[1..] == rest;
    } else if Letter(Escape(c)[1]).Some? {
      assert s[2..] == rest;
    } else {
      HexEscapeDecodes(c as nat, rest);
    }
  }

  lemma {:induction false} EscapeShape(c: char)
    ensures Escape(c) != "" && (forall i :: 0 <= i < |Escape(c)| ==> !IsControl(Escape(c)[i]))
    ensures !IsControl(c) ==> Escape(c) == [c]
    ensures IsControl(c) ==> Escape(c)[0] == '\\' && |Escape(c)| > 1
  {
    if IsControl(c) {
      HexLength(c as nat, Width(c as nat));
      HexReads(c as nat, Width(c as nat));
    }
  }

  /** No control character is left. */
  lemma {:induction false} NoControlLeft(s: string)
    ensures forall i :: 0 <= i < |Sanitized(s)| ==> !IsControl(Sanitized(s)[i])
  {
    if s == "" {
    } else {
      EscapeShape(s[0]);
      NoControlLeft(s[1..]);
    }
  }

  lemma {:induction false} Distributes(s: string, t: string)
    ensures Sanitized(s + t) == Sanitized(s) + Sanitized(t)
    decreases |s|
  {
    if s == "" {
      assert s + t == t;
    } else {
      assert (s + t)[1..] == s[1..] + t;
      Distributes(s[1..], t);
    }
  }

  /** Exactly the strings without control characters are unchanged. */
  lemma {:induction false} UnchangedIffClean(s: string)
    ensures |Sanitized(s)| >= |s|
    ensures Sanitized(s) == s <==> forall i :: 0 <= i < |s| ==> !IsControl(s[i])
  {
    if s == "" {
    } else {
      EscapeShape(s[0]);
      UnchangedIffClean(s[1..]);
      if !IsControl(s[0]) {
        assert Sanitized(s)[1..] == Sanitized(s[1..]);
        assert s == [s[0]] + s[1..];
        assert forall i :: 0 <= i < |s[1..]| ==> s[1..][i] == s[i + 1];
        assert forall i :: 0 < i < |s| ==> s[i] == s[1..][i - 1];
      }
    }
  }

  lemma {:induction false} Idempotent(s: string)
    ensures Sanitized(Sanitized(s)) == Sanitized(s)
  {
    NoControlLeft(s);
    UnchangedIffClean(Sanitized(s));
  }

  lemma {:induction false} DecodesWithoutBackslash(s: string)
    requires '\\' !in s
    ensures Unescape(Sanitized(s)) == Some(s)
  {
    if s == "" {
    } else {
      EscapeDecodes(s[0], Sanitized(s[1..]));
      DecodesWithoutBackslash(s[1..]);
      assert s == [s[0]] + s[1..];
    }
  }

  /** A first output character that is no backslash is the first input character. */
  lemma {:induction false} LiteralFirst(s: string)
    requires Sanitized(s) != [] && Sanitized(s)[0] != '\\'
    ensures s != "" && Sanitized(s)[1..] == Sanitized(s[1..])
  {
    EscapeShape(s[0]);
  }

  lemma {:induction false} NotInTail(out: string, k: nat, c: char)
    requires 0 < k <= |out| && c !in out[..k]
    ensures out[0] != c && c !in out[1..][..k - 1]
  {
    assert out[0] in out[..k];
    var tail := out[1..][..k - 1];
    forall i | 0 <= i < |tail|
      ensures tail[i] != c
    {
      assert out[..k][i + 1] in out[..k];
    }
  }

  /** Output characters before the first backslash are input characters. */
  lemma {:induction false} LiteralPrefix(s: string, k: nat)
    requires k <= |Sanitized(s)| && '\\' !in Sanitized(s)[..k]
    ensures k <= |s| && Sanitized(s)[k..] == Sanitized(s[k..])
    decreases k
  {
    if k == 0 {
      assert s[0..] == s;
    } else {
      var out := Sanitized(s);
      NotInTail(out, k, '\\');
      LiteralFirst(s);
      LiteralPrefix(s[1..], k - 1);
      assert s[1..][k - 1..] == s[k..];
      assert out[1..][k - 1..] == out[k..];
    }
  }

  /** Behind a backslash the decoder takes one or more characters, none of them a backslash, and gives one. */
  lemma {:induction false} EscapeTakes(text: string) returns (k: nat)
    requires text != "" && text[0] == '\\' && Unescape(text).Some?
    ensures 0 < k && 1 + k <= |text| && '\\' !in text[1..1 + k]
    ensures Unescape(text[1 + k..]).Some? && |Unescape(text).value| == 1 + |Unescape(text[1 + k..]).value|
  {
    if Letter(text[1]).Some? {
      k := 1;
    } else {
      var n := DigitsOf(text[1]);
      k := 1 + n;
      forall i | 2 <= i < 2 + n
        ensures text[i] != '\\'
      {
        assert IsHex(text[2..2 + n][i - 2]);
      }
    }
  }

  /** So a backslash of the input and the input characters behind it that are taken for its escape decode to one. */
  lemma {:induction false} BackslashTakes(s: string) returns (k: nat)
    requires s != "" && s[0] == '\\' && Unescape(Sanitized(s)).Some?
    ensures k > 0 && 1 + k <= |s|
    ensures Unescape(Sanitized(s[1 + k..])).Some?
    ensures |Unescape(Sanitized(s)).value| == 1 + |Unescape(Sanitized(s[1 + k..])).value|
  {
    EscapeShape(s[0]);
    var text, rest := Sanitized(s), Sanitized(s[1..]);
    assert text == "\\" + rest && text[1..] == rest;
    k := EscapeTakes(text);
    assert rest[..k] == text[1..1 + k];
    LiteralPrefix(s[1..], k);
    assert s[1..][k..] == s[1 + k..];
    assert text[1 + k..] == rest[k..];
  }

  /** Decoding never makes the input longer, and makes it shorter if it held a backslash. */
  lemma {:induction false} DecodedLength(s: string)
    requires Unescape(Sanitized(s)).Some?
    ensures |Unescape(Sanitized(s)).value| <= |s|
    ensures '\\' in s ==> |Unescape(Sanitized(s)).value| < |s|
    decreases |s|
  {
    if s == "" {
    } else {
      if s[0] == '\\' {
        var k := BackslashTakes(s);
        DecodedLength(s[1 + k..]);
      } else {
        EscapeShape(s[0]);
        EscapeDecodes(s[0], Sanitized(s[1..]));
        DecodedLength(s[1..]);
      }
    }
  }

  /** The decoder gives the input back exactly when the input has no backslash. */
  lemma {:induction false} DecodesIff(s: string)
    ensures Unescape(Sanitized(s)) == Some(s) <==> '\\' !in s
  {
    if '\\' !in s {
      DecodesWithoutBackslash(s);
    } else if Unescape(Sanitized(s)).Some? {
      DecodedLength(s);
    }
  }

  /** So different inputs without backslashes stay different. */
  lemma {:induction false} InjectiveWithoutBackslash(s: string, t: string)
    requires '\\' !in s && '\\' !in t && Sanitized(s) == Sanitized(t)
    ensures s == t
  {
    DecodesWithoutBackslash(s);
    DecodesWithoutBackslash(t);
  }

  /** With backslashes they need not: a line feed and its escape are logged alike. */
  lemma {:induction false} BackslashCollides()
    ensures Sanitized("\n") == Sanitized("\\n") && "\n" != "\\n"
  {
    assert "\\n"[1..] == "n" && "n"[1..] == "" && "\n"[1..] == "";
    assert Sanitized("n") == "n";
  }

  // ---------------------------------------------------------------- the escapes themselves

  /** Control characters are those below the blank and those from 127 to 159. */
  lemma {:induction false} ControlCharacters(c: char)
    ensures IsControl(c) <==> c as int < 32 || 127 <= c as int < 160
  {}

  /** Five control characters have a letter; the others are written with two digits; anything else is left as it is. */
  lemma {:induction false} EscapesWritten(c: char)
    ensures Escape('\n') == "\\n" && Escape('\r') == "\\r" && Escape('\t') == "\\t"
    ensures Escape('\U{000B}') == "\\v" && Escape('\U{000C}') == "\\f"
    ensures IsControl(c) && c !in "\n\r\t\U{000B}\U{000C}" ==>
              Escape(c) == "\\x" + ["0123456789ABCDEF"[c as int / 16], "0123456789ABCDEF"[c as int % 16]]
    ensures !IsControl(c) ==> Escape(c) == [c]
  {
    if IsControl(c) {
      TwoDigits(c as nat);
    }
  }

  lemma {:induction false} TwoDigits(r: nat)
    requires r < 256
    ensures HexEscape(r) == "\\x" + ["0123456789ABCDEF"[r / 16], "0123456789ABCDEF"[r % 16]]
  {
    assert ShiftRight(r, 0) == r && ShiftRight(r, 1) == r / 16;
    HexDigitIsTabled(r / 16);
    HexDigitIsTabled(r % 16);
    assert Hex(r, 1) == [Nibble(r, 0)] + Hex(r, 0);
    assert Hex(r, 2) == [Nibble(r, 1)] + Hex(r, 1);
  }

  /** Two, four or eight digits behind the letter of the width. */
  lemma {:induction false} EscapeWidths(r: nat)
    ensures r < 0x100 ==> |HexEscape(r)| == 4 && HexEscape(r)[..2] == "\\x"
    ensures 0x100 <= r < 0x10000 ==> |HexEscape(r)| == 6 && HexEscape(r)[..2] == "\\u"
    ensures 0x10000 <= r ==> |HexEscape(r)| == 10 && HexEscape(r)[..2] == "\\U"
  {
    HexLength(r, Width(r));
  }
}
