/** Go's quoting of a string, the %q of fmt, and reading it back. */
module Quote {
  import opened Wrappers

  const DIGITS := "0123456789abcdef"

  function Power16(k: nat): nat {
    if k == 0 then 1 else 16 * Power16(k - 1)
  }

  /** The last k hexadecimal digits of n. */
  function Hex(n: nat, k: nat): (r: string)
    ensures |r| == k
  {
    if k == 0 then "" else Hex(n / 16, k - 1) + [DIGITS[n % 16]]
  }

  function DigitValue(c: char): nat {
    if '0' <= c <= '9' then (c as int) - 48 else if 'a' <= c <= 'f' then (c as int) - 87 else 0
  }

  function HexValue(s: string): nat {
    if s == "" then 0 else 16 * HexValue(s[..|s| - 1]) + DigitValue(s[|s| - 1])
  }

  lemma DigitRead(d: nat)
    requires d < 16
    ensures DigitValue(DIGITS[d]) == d
  {}

  lemma {:induction false} HexRead(n: nat, k: nat)
    requires n < Power16(k)
    ensures HexValue(Hex(n, k)) == n
  {
    if k > 0 {
      HexRead(n / 16, k - 1);
      DigitRead(n % 16);
      assert Hex(n, k)[..k - 1] == Hex(n / 16, k - 1);
    }
  }

  /** One character as strconv.Quote writes it; printable is unicode.IsPrint, of which nothing is assumed. */
  function EscapeChar(c: char, printable: char -> bool): string {
    var n := c as int;
    if c == '"' || c == '\\' then ['\\', c]
    else if printable(c) then [c]
    else if n == 7 then "\\a"
    else if n == 8 then "\\b"
    else if n == 12 then "\\f"
    else if n == 10 then "\\n"
    else if n == 13 then "\\r"
    else if n == 9 then "\\t"
    else if n == 11 then "\\v"
    else if n < 32 || n == 127 then "\\x" + Hex(n, 2)
    else if n < 0x1_0000 then "\\u" + Hex(n, 4)
    else "\\U" + Hex(n, 8)
  }

  function EscapeAll(s: string, printable: char -> bool): string {
    if s == "" then "" else EscapeChar(s[0], printable) + EscapeAll(s[1..], printable)
  }

  function Quoted(s: string, printable: char -> bool): string {
    "\"" + EscapeAll(s, printable) + "\""
  }

  function CharOf(n: nat): Option<char> {
    if n < 0xD800 || 0xE000 <= n < 0x11_0000 then Some(n as char) else None
  }

  /** The character s begins with, and how much of s it takes. */
  function ReadChar(s: string): Option<(char, nat)> {
    if s == "" || s[0] == '"' then None
    else if s[0] != '\\' then Some((s[0], 1))
    else if |s| < 2 then None
    else match s[1]
      case '"' => Some(('"', 2))
      case '\\' => Some(('\\', 2))
      case 'a' => Some((7 as char, 2))
      case 'b' => Some((8 as char, 2))
      case 'f' => Some((12 as char, 2))
      case 'n' => Some((10 as char, 2))
      case 'r' => Some((13 as char, 2))
      case 't' => Some((9 as char, 2))
      case 'v' => Some((11 as char, 2))
      case 'x' => ReadHex(s, 2)
      case 'u' => ReadHex(s, 4)
      case 'U' => ReadHex(s, 8)
      case _ => None
  }

  function ReadHex(s: string, k: nat): Option<(char, nat)> {
    if |s| < 2 + k then None
    else
      var c := CharOf(HexValue(s[2..2 + k]));
      if c.None? then None else Some((c.value, 2 + k))
  }

  /** The string whose escaped form s begins with, up to the closing quote, and what follows it. */
  function ReadBody(s: string): Option<(string, string)> {
    if s == "" then None
    else if s[0] == '"' then Some(("", s[1..]))
    else
      var c := ReadChar(s);
      if c.None? || c.value.1 == 0 || c.value.1 > |s| then None
      else
        var r := ReadBody(s[c.value.1..]);
        if r.None? then None else Some(([c.value.0] + r.value.0, r.value.1))
  }

  lemma HexCharRead(c: char, k: nat, kind: char, rest: string)
    requires (c as int) < Power16(k)
    ensures ReadHex(['\\', kind] + Hex(c as int, k) + rest, k) == Some((c, 2 + k))
  {
    var s := ['\\', kind] + Hex(c as int, k) + rest;
    assert s[2..2 + k] == Hex(c as int, k);
    HexRead(c as int, k);
  }

  lemma ShortRead(c: char, printable: char -> bool, rest: string)
    requires |EscapeChar(c, printable)| <= 2
    ensures ReadChar(EscapeChar(c, printable) + rest) == Some((c, |EscapeChar(c, printable)|))
  {}

  /** The hexadecimal forms: their letter, and their digits. */
  function HexForm(n: nat): (char, nat) {
    if n < 32 || n == 127 then ('x', 2) else if n < 0x1_0000 then ('u', 4) else ('U', 8)
  }

  lemma LongForm(c: char, printable: char -> bool)
    ensures var (kind, k) := HexForm(c as int);
      |EscapeChar(c, printable)| <= 2 || EscapeChar(c, printable) == ['\\', kind] + Hex(c as int, k)
  {}

  lemma FormFits(c: char)
    ensures var (kind, k) := HexForm(c as int); (c as int) < Power16(k)
  {}

  lemma LongRead(c: char, kind: char, k: nat, rest: string)
    requires (kind, k) == HexForm(c as int)
    ensures ReadChar(['\\', kind] + Hex(c as int, k) + rest) == Some((c, 2 + k))
  {
    var s := ['\\', kind] + Hex(c as int, k) + rest;
    FormFits(c);
    HexCharRead(c, k, kind, rest);
    assert s[0] == '\\' && s[1] == kind;
  }

  lemma CharRead(c: char, printable: char -> bool, rest: string)
    ensures ReadChar(EscapeChar(c, printable) + rest) == Some((c, |EscapeChar(c, printable)|))
  {
    if |EscapeChar(c, printable)| <= 2 {
      ShortRead(c, printable, rest);
    } else {
      var (kind, k) := HexForm(c as int);
      LongForm(c, printable);
      LongRead(c, kind, k, rest);
    }
  }

  lemma BodyRead(head: string, c: char, tail: string, read: string, rest: string)
    requires head != "" && head[0] != '"' && ReadChar(head + tail) == Some((c, |head|))
    requires ReadBody(tail) == Some((read, rest))
    ensures ReadBody(head + tail) == Some(([c] + read, rest))
  {
    assert (head + tail)[|head|..] == tail && (head + tail)[0] == head[0];
  }

  lemma EscapedStart(c: char, printable: char -> bool)
    ensures EscapeChar(c, printable) != "" && EscapeChar(c, printable)[0] != '"'
  {}

  /** Reading a quoted string gives it back, whatever follows. */
  lemma {:induction false} ReadQuoted(s: string, printable: char -> bool, rest: string)
    ensures ReadBody(EscapeAll(s, printable) + "\"" + rest) == Some((s, rest))
  {
    if s == "" {
      assert EscapeAll(s, printable) + "\"" + rest == "\"" + rest;
    } else {
      var head, tail := EscapeChar(s[0], printable), EscapeAll(s[1..], printable) + "\"" + rest;
      assert EscapeAll(s, printable) + "\"" + rest == head + tail;
      CharRead(s[0], printable, tail);
      ReadQuoted(s[1..], printable, rest);
      EscapedStart(s[0], printable);
      BodyRead(head, s[0], tail, s[1..], rest);
      assert s == [s[0]] + s[1..];
    }
  }

  lemma Tail(a: string, b: string, c: string)
    ensures ("\"" + a + b) + c != [] && (("\"" + a + b) + c)[1..] == a + b + c
  {}

  lemma QuotedRest(x: string, s: string, printable: char -> bool)
    ensures Quoted(x, printable) + s != [] && ReadBody((Quoted(x, printable) + s)[1..]) == Some((x, s))
  {
    ReadQuoted(x, printable, s);
    Tail(EscapeAll(x, printable), "\"", s);
  }

  /** A quoted string ends where it ends: two texts that begin with one agree on it and on the rest. */
  lemma QuotedDecides(x: string, s: string, y: string, t: string, printable: char -> bool)
    requires Quoted(x, printable) + s == Quoted(y, printable) + t
    ensures x == y && s == t
  {
    QuotedRest(x, s, printable);
    QuotedRest(y, t, printable);
  }
}
