/**
 The character encoders behind the debug UART: uart_puts, uart_hex and
 uart_decimal / uart_dec, in the three variants the sources carry. The UART
 data register is not modelled; what a routine sends is the string it
 returns, in order. A C string is the memory from its first byte on, which
 must hold a NUL somewhere.
 */
module Uart {
  import opened Words

  predicate IsHexDigit(c: char)
  {
    '0' <= c <= '9' || 'A' <= c <= 'F'
  }

  predicate IsDecimalDigit(c: char)
  {
    '0' <= c <= '9'
  }

  /** The value of an upper-case hexadecimal digit. */
  function HexValue(c: char): (d: nat)
    requires IsHexDigit(c)
    ensures d < 16
  {
    if c <= '9' then c as int - '0' as int else c as int - 'A' as int + 10
  }

  /** `digit < 10 ? '0' + digit : 'A' + digit - 10` */
  function HexDigit(d: nat): (c: char)
    requires d < 16
    ensures IsHexDigit(c) && HexValue(c) == d
  {
    if d < 10 then ('0' as int + d) as char else ('A' as int + d - 10) as char
  }

  /** `(val >> i) & 0xF` */
  function Nibble(v: uint32, i: nat): (d: nat)
    ensures d < 16
  {
    (v / Pow2(i)) % 16
  }

  /** The eight digits uart_hex sends: no prefix, leading zeros kept,
      most significant nibble first. */
  function HexWord(v: uint32): (s: string)
    ensures |s| == 8
    ensures forall k :: 0 <= k < 8 ==> IsHexDigit(s[k])
  {
    seq(8, k requires 0 <= k < 8 => HexDigit(Nibble(v, 28 - 4 * k)))
  }

  /** uart_hex's loop, `for (i = 28; i >= 0; i -= 4)`, one digit per step. */
  method HexLoop(val: uint32) returns (out: string)
    ensures out == HexWord(val)
  {
    out := [];
    var i: int := 28;
    ghost var k := 0;
    while i >= 0
      invariant 0 <= k <= 8 && i == 28 - 4 * k
      invariant out == HexWord(val)[..k]
    {
      assert HexWord(val)[..k + 1] == HexWord(val)[..k] + [HexWord(val)[k]];
      out := out + [HexDigit(Nibble(val, i))];
      i := i - 4;
      k := k + 1;
    }
    assert HexWord(val)[..8] == HexWord(val);
  }

  /** Reads a string of hexadecimal digits back as a number. */
  function ParseHex(s: string): nat
    requires forall i :: 0 <= i < |s| ==> IsHexDigit(s[i])
  {
    if |s| == 0 then 0 else ParseHex(s[..|s| - 1]) * 16 + HexValue(s[|s| - 1])
  }

  /** The first k digits of the hex text spell the value shifted right by 32 - 4k. */
  lemma {:induction false} HexPrefixValue(v: uint32, k: nat)
    requires k <= 8
    ensures ParseHex(HexWord(v)[..k]) == v / Pow2(32 - 4 * k)
  {
    if k == 0 {
      Pow2Word();
    } else {
      var w := HexWord(v);
      var s := w[..k];
      var shift: nat := 32 - 4 * k;
      assert s[..k - 1] == w[..k - 1];
      assert s[k - 1] == HexDigit(Nibble(v, shift));
      HexPrefixValue(v, k - 1);
      assert ParseHex(w[..k - 1]) == v / Pow2(shift + 4);
      NibbleStep(v, shift);
    }
  }

  /** One more nibble: the value shifted right by n + 4, times 16, plus the
      nibble at n, is the value shifted right by n. */
  lemma NibbleStep(v: uint32, n: nat)
    ensures (v / Pow2(n + 4)) * 16 + Nibble(v, n) == v / Pow2(n)
  {
    var a := Pow2(n);
    Pow2Add4(n);
    DivDiv(v, a, 16);
    var q := v / a;
    assert v / Pow2(n + 4) == q / 16;
  }

  /** uart_hex loses nothing: its eight digits read back as the value. */
  lemma HexRoundTrip(v: uint32)
    ensures ParseHex(HexWord(v)) == v
  {
    var w := HexWord(v);
    HexPrefixValue(v, 8);
    assert w[..8] == w;
    assert Pow2(0) == 1;
  }

  /** Two different values never print the same. */
  lemma HexWordInjective(a: uint32, b: uint32)
    requires HexWord(a) == HexWord(b)
    ensures a == b
  {
    HexRoundTrip(a);
    HexRoundTrip(b);
  }

  /** `'0' + (val % 10)` */
  function DecimalChar(d: nat): (c: char)
    requires d < 10
    ensures IsDecimalDigit(c) && c as int - '0' as int == d
  {
    ('0' as int + d) as char
  }

  /** The decimal digits of v, most significant first and without leading
      zeros; none for 0. */
  function Digits(v: nat): (s: string)
    ensures forall i :: 0 <= i < |s| ==> IsDecimalDigit(s[i])
    ensures v > 0 ==> |s| > 0 && s[0] != '0'
    ensures v == 0 <==> |s| == 0
  {
    if v == 0 then [] else Digits(v / 10) + [DecimalChar(v % 10)]
  }

  /** uart_decimal in main.c and uart_dec in port.c: "0" for zero, else the
      digits; a 32-bit value needs at most ten. */
  function Decimal(v: uint32): (s: string)
    ensures 1 <= |s| <= 10
    ensures forall i :: 0 <= i < |s| ==> IsDecimalDigit(s[i])
    ensures s[0] == '0' <==> v == 0
    ensures v == 0 ==> s == "0"
  {
    DigitsFit(v, 10);
    if v == 0 then "0" else Digits(v)
  }

  /** A value below 10^n has at most n digits. */
  lemma {:induction false} DigitsFit(v: nat, n: nat)
    requires v < Pow10(n) || (n == 10 && v < WordModulus)
    ensures |Digits(v)| <= n
  {
    if n == 10 && v < WordModulus {
      assert Pow10(10) == 10_000_000_000 by {
        assert Pow10(5) == 100_000;
      }
    }
    if v > 0 {
      assert n > 0;
      DigitsFit(v / 10, n - 1);
    }
  }

  function DecimalValue(c: char): (d: nat)
    requires IsDecimalDigit(c)
    ensures d < 10
  {
    c as int - '0' as int
  }

  /** Reads a string of decimal digits back as a number. */
  function ParseDecimal(s: string): nat
    requires forall i :: 0 <= i < |s| ==> IsDecimalDigit(s[i])
  {
    if |s| == 0 then 0 else ParseDecimal(s[..|s| - 1]) * 10 + DecimalValue(s[|s| - 1])
  }

  lemma {:induction false} DigitsRoundTrip(v: nat)
    ensures ParseDecimal(Digits(v)) == v
  {
    if v > 0 {
      var s := Digits(v);
      assert s[..|s| - 1] == Digits(v / 10);
      DigitsRoundTrip(v / 10);
    }
  }

  /** uart_decimal loses nothing: its digits read back as the value. */
  lemma DecimalRoundTrip(v: uint32)
    ensures ParseDecimal(Decimal(v)) == v
  {
    DigitsRoundTrip(v);
  }

  /** The digits in the opposite order: what the buffer holds before it is sent. */
  function Reversed(s: string): (r: string)
    ensures |r| == |s|
    ensures forall k :: 0 <= k < |s| ==> r[k] == s[|s| - 1 - k]
  {
    seq(|s|, k requires 0 <= k < |s| => s[|s| - 1 - k])
  }

  /** uart_decimal / uart_dec as written: least significant digit first into
      a char buffer of `capacity` bytes (12 in main.c, 10 in port.c), then
      the buffer backwards. Every buffer write is in bounds. */
  method DecimalThroughBuffer(val: uint32, capacity: nat) returns (out: string)
    requires capacity >= 10
    ensures out == Decimal(val)
  {
    if val == 0 {
      return "0";
    }
    var buffer := new char[capacity];
    var i := 0;
    var v: nat := val;
    DigitsFit(val, 10);
    while v > 0
      invariant i <= capacity
      invariant Digits(v) + Reversed(buffer[..i]) == Digits(val)
      invariant |Digits(v)| + i == |Digits(val)|
    {
      assert Digits(v) == Digits(v / 10) + [DecimalChar(v % 10)];
      var before := buffer[..i];
      buffer[i] := DecimalChar(v % 10);
      assert buffer[..i + 1] == before + [DecimalChar(v % 10)];
      assert Reversed(before + [DecimalChar(v % 10)]) == [DecimalChar(v % 10)] + Reversed(before);
      i := i + 1;
      v := v / 10;
    }
    var sent := buffer[..i];
    out := [];
    while i > 0
      invariant 0 <= i <= |sent|
      invariant buffer[..|sent|] == sent
      invariant out == Reversed(sent)[..|sent| - i]
    {
      i := i - 1;
      out := out + [buffer[i]];
    }
    assert Reversed(sent)[..|sent|] == Reversed(sent);
  }

  /** The C string starting at the first byte of `mem`: everything before the first NUL. */
  function CString(mem: seq<char>): (s: string)
    requires '\0' in mem
    ensures '\0' !in s
    ensures |s| < |mem| && mem[..|s|] == s && mem[|s|] == '\0'
  {
    if mem[0] == '\0' then [] else [mem[0]] + CString(mem[1..])
  }

  /** uart_puts in main.c and port.c: the characters up to the NUL, untranslated. */
  method Puts(mem: seq<char>) returns (out: string)
    requires '\0' in mem
    ensures out == CString(mem)
  {
    out := [];
    var i := 0;
    while mem[i] != '\0'
      invariant 0 <= i < |mem| && '\0' in mem[i..]
      invariant '\0' !in mem[..i] && out == mem[..i]
      decreases |mem| - i
    {
      assert mem[..i + 1] == mem[..i] + [mem[i]];
      out := out + [mem[i]];
      i := i + 1;
      assert '\0' in mem[i..] by {
        var j :| 0 <= j < |mem| - (i - 1) && mem[i - 1..][j] == '\0';
        assert j > 0;
        assert mem[i..][j - 1] == '\0';
      }
    }
    CStringIsNulPrefix(mem, out);
  }

  /** A NUL-free prefix followed by a NUL is the C string. */
  lemma {:induction false} CStringIsNulPrefix(mem: seq<char>, s: string)
    requires '\0' in mem
    requires '\0' !in s && |s| < |mem| && mem[..|s|] == s && mem[|s|] == '\0'
    ensures CString(mem) == s
  {
    if mem[0] != '\0' {
      assert |s| > 0 && s[0] == mem[0];
      assert '\0' in mem[1..] by {
        assert mem[1..][|s| - 1] == '\0';
      }
      assert mem[1..][..|s| - 1] == s[1..];
      CStringIsNulPrefix(mem[1..], s[1..]);
    }
  }

  /** What the CRLF-translating uart_puts sends for one character. */
  function Expand(c: char): (t: string)
  {
    if c == '\n' then "\r\n" else [c]
  }

  /** uart_puts in the two memory-debug programs: a carriage return goes out
      before every line feed. */
  function Crlf(s: string): (t: string)
    ensures |t| >= |s|
  {
    if |s| == 0 then [] else Crlf(s[..|s| - 1]) + Expand(s[|s| - 1])
  }

  /** Every line feed in `t` has a carriage return just before it. */
  predicate LineFeedsPreceded(t: string)
  {
    forall i :: 0 <= i < |t| && t[i] == '\n' ==> i > 0 && t[i - 1] == '\r'
  }

  /** Every line feed that goes out is preceded by a carriage return. */
  lemma {:induction false} CrlfPrecedesLineFeeds(s: string)
    ensures LineFeedsPreceded(Crlf(s))
  {
    if |s| > 0 {
      var front, c := s[..|s| - 1], s[|s| - 1];
      CrlfPrecedesLineFeeds(front);
      var f := Crlf(front);
      var t := f + Expand(c);
      assert Crlf(s) == t;
      forall i | 0 <= i < |t| && t[i] == '\n'
        ensures i > 0 && t[i - 1] == '\r'
      {
        if i < |f| {
          assert f[i] == '\n';
          assert i > 0 && f[i - 1] == '\r';
        } else if c == '\n' {
          assert t[|f|] == '\r';
        }
      }
    }
  }

  /** The receiving end: every CR LF pair read back as a single LF. */
  function Uncrlf(t: string): (s: string)
  {
    if |t| == 0 then []
    else if |t| >= 2 && t[|t| - 2] == '\r' && t[|t| - 1] == '\n' then Uncrlf(t[..|t| - 2]) + "\n"
    else Uncrlf(t[..|t| - 1]) + [t[|t| - 1]]
  }

  /** The translation loses nothing: a terminal that folds CR LF back into LF
      recovers the original string. */
  lemma {:induction false} CrlfRoundTrip(s: string)
    ensures Uncrlf(Crlf(s)) == s
  {
    if |s| > 0 {
      var front, c := s[..|s| - 1], s[|s| - 1];
      CrlfRoundTrip(front);
      CrlfSnoc(s);
      UncrlfExpand(Crlf(front), c);
      assert s == front + [c];
    }
  }

  lemma CrlfSnoc(s: string)
    requires |s| > 0
    ensures Crlf(s) == Crlf(s[..|s| - 1]) + Expand(s[|s| - 1])
  {
  }

  /** Reading back one more translated character appends that character. */
  lemma UncrlfExpand(t: string, c: char)
    ensures Uncrlf(t + Expand(c)) == Uncrlf(t) + [c]
  {
    var u := t + Expand(c);
    if c == '\n' {
      assert u[|u| - 2] == '\r' && u[|u| - 1] == '\n';
      assert u[..|u| - 2] == t;
    } else {
      assert u[|u| - 1] == c;
      assert u[..|u| - 1] == t;
    }
  }

  /** A string without line feeds goes out unchanged. */
  lemma {:induction false} CrlfWithoutLineFeeds(s: string)
    requires '\n' !in s
    ensures Crlf(s) == s
  {
    if |s| > 0 {
      assert '\n' !in s[..|s| - 1];
      CrlfWithoutLineFeeds(s[..|s| - 1]);
      assert s == s[..|s| - 1] + [s[|s| - 1]];
    }
  }

  /** The CRLF-translating uart_puts as written. */
  method PutsCrlf(mem: seq<char>) returns (out: string)
    requires '\0' in mem
    ensures out == Crlf(CString(mem))
  {
    out := [];
    var i := 0;
    while mem[i] != '\0'
      invariant 0 <= i < |mem| && '\0' in mem[i..]
      invariant '\0' !in mem[..i] && out == Crlf(mem[..i])
      decreases |mem| - i
    {
      assert mem[..i + 1][..i] == mem[..i];
      if mem[i] == '\n' {
        out := out + ['\r'];
      }
      out := out + [mem[i]];
      i := i + 1;
      assert '\0' !in mem[..i] by {
        assert mem[..i] == mem[..i - 1] + [mem[i - 1]];
      }
      assert '\0' in mem[i..] by {
        var j :| 0 <= j < |mem| - (i - 1) && mem[i - 1..][j] == '\0';
        assert j > 0;
        assert mem[i..][j - 1] == '\0';
      }
    }
    CStringIsNulPrefix(mem, mem[..i]);
  }

  /** uart_hex in the two memory-debug programs: "0x" (through the
      translating uart_puts, which leaves it alone) and then the eight digits. */
  function PrefixedHex(v: uint32): (s: string)
    ensures |s| == 10 && s[..2] == "0x" && s[2..] == HexWord(v)
  {
    CrlfWithoutLineFeeds("0x");
    Crlf("0x") + HexWord(v)
  }

  /** A reader of the debug log recognises a number as "0x" and eight hex digits. */
  predicate IsPrefixedHex(s: string)
  {
    |s| == 10 && s[..2] == "0x" && forall i :: 2 <= i < 10 ==> IsHexDigit(s[i])
  }

  /** Every prefixed hex number reads back as its value. */
  lemma PrefixedHexRoundTrip(v: uint32)
    ensures IsPrefixedHex(PrefixedHex(v))
    ensures ParseHex(PrefixedHex(v)[2..]) == v
  {
    HexRoundTrip(v);
  }

  /** uart_decimal in main_memory_debug.c as written: "0" for zero, otherwise
      "0x" and then uart_hex, which sends "0x" again. */
  function DebugDecimalAsWritten(v: uint32): (s: string)
    ensures v == 0 ==> s == "0"
    ensures v != 0 ==> |s| == 12 && s[..4] == "0x0x" && s[4..] == HexWord(v)
  {
    CrlfWithoutLineFeeds("0x");
    if v == 0 then "0" else Crlf("0x") + PrefixedHex(v)
  }

  /** The doubled prefix: no non-zero value comes out in the format every
      other number in the log uses, nor as decimal. */
  lemma DebugDecimalAsWrittenDoublesPrefix(v: uint32)
    requires v != 0
    ensures !IsPrefixedHex(DebugDecimalAsWritten(v))
    ensures DebugDecimalAsWritten(v)[2..4] == "0x"
    ensures exists i :: 0 <= i < |DebugDecimalAsWritten(v)| && !IsDecimalDigit(DebugDecimalAsWritten(v)[i])
  {
    assert !IsDecimalDigit(DebugDecimalAsWritten(v)[1]);
  }

  /** The division-free number printer main_memory_debug.c evidently intends:
      "0" for zero, otherwise one "0x" and the eight digits. */
  function DebugNumber(v: uint32): (s: string)
    ensures v == 0 ==> s == "0"
    ensures v != 0 ==> IsPrefixedHex(s) && ParseHex(s[2..]) == v
  {
    PrefixedHexRoundTrip(v);
    if v == 0 then "0" else PrefixedHex(v)
  }
}
