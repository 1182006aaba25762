/** How an entry's name becomes part of an API path, on bytes, as sections 2.1 and 3.3 of RFC 3986 spell it. */
module Escape {
  import opened Text

  type Byte = x: int | 0 <= x < 256
  type Bytes = seq<Byte>

  const SLASH: Byte := '/' as int
  const DOT: Byte := '.' as int
  const PLUS: Byte := '+' as int
  const PERCENT: Byte := '%' as int
  const SPACE: Byte := ' ' as int

  /** A string literal of the source, which is ASCII. */
  function Ascii(s: string): Bytes
    requires forall i :: 0 <= i < |s| ==> s[i] < 128 as char
  {
    seq(|s|, i requires 0 <= i < |s| => AsByte(s[i]))
  }

  function AsByte(c: char): Byte
    requires c < 128 as char
  {
    c as int
  }

  /** The bytes url.PathEscape leaves alone in a path segment. */
  predicate Kept(b: Byte) {
    || 'a' as int <= b <= 'z' as int || 'A' as int <= b <= 'Z' as int || '0' as int <= b <= '9' as int
    || b as char in "-_.~" || b as char in "$&+:=@"
  }

  function HexDigit(n: int): Byte
    requires 0 <= n < 16
  {
    if n < 10 then '0' as int + n else 'A' as int + n - 10
  }

  function PathEscape(s: Bytes): Bytes {
    if s == [] then [] else
      (if Kept(s[0]) then [s[0]] else [PERCENT, HexDigit(s[0] / 16), HexDigit(s[0] % 16)]) + PathEscape(s[1..])
  }

  /** strings.ReplaceAll(s, "+", "%2B"). */
  function ReplacePlus(s: Bytes): Bytes {
    if s == [] then [] else PlusReplaced(s[0]) + ReplacePlus(s[1..])
  }

  function PlusReplaced(b: Byte): Bytes {
    if b == PLUS then [PERCENT, '2' as int, 'B' as int] else [b]
  }

  function EscapePathSegment(s: Bytes): Bytes {
    ReplacePlus(PathEscape(s))
  }

  function HexValue(b: Byte): int {
    if '0' as int <= b <= '9' as int then b - '0' as int
    else if 'A' as int <= b <= 'F' as int then b - 'A' as int + 10
    else if 'a' as int <= b <= 'f' as int then b - 'a' as int + 10
    else -1
  }

  /** How FTL reads a path segment: percent-decoding, with '+' for a space. A stray '%' stands for itself. */
  function Decode(s: Bytes): Bytes {
    if s == [] then []
    else if s[0] == PERCENT && |s| >= 3 && HexValue(s[1]) >= 0 && HexValue(s[2]) >= 0 then
      [HexValue(s[1]) * 16 + HexValue(s[2])] + Decode(s[3..])
    else [if s[0] == PLUS then SPACE else s[0]] + Decode(s[1..])
  }

  lemma HexInverse(n: int)
    requires 0 <= n < 16
    ensures HexValue(HexDigit(n)) == n && HexDigit(n) != PLUS && HexDigit(n) != SLASH
    ensures Kept(HexDigit(n))
  {}

  lemma {:induction false} ReplacePlusConcat(a: Bytes, b: Bytes)
    ensures ReplacePlus(a + b) == ReplacePlus(a) + ReplacePlus(b)
  {
    if a == [] {
      assert a + b == b;
    } else {
      assert (a + b)[1..] == a[1..] + b && (a + b)[0] == a[0];
      ReplacePlusConcat(a[1..], b);
      Regroup(PlusReplaced(a[0]), ReplacePlus(a[1..]), ReplacePlus(b));
    }
  }

  /** The two passes act byte by byte: a kept byte other than '+' stays, every other becomes its %XX. */
  lemma EscapeHead(s: Bytes)
    requires s != []
    ensures EscapePathSegment(s) ==
      (if Kept(s[0]) && s[0] != PLUS then [s[0]] else [PERCENT, HexDigit(s[0] / 16), HexDigit(s[0] % 16)]) +
      EscapePathSegment(s[1..])
  {
    HexInverse(s[0] / 16);
    HexInverse(s[0] % 16);
    var head: Bytes := if Kept(s[0]) then [s[0]] else [PERCENT, HexDigit(s[0] / 16), HexDigit(s[0] % 16)];
    ReplacePlusConcat(head, PathEscape(s[1..]));
    if !Kept(s[0]) {
      assert head[1..] == [HexDigit(s[0] / 16), HexDigit(s[0] % 16)];
      assert head[1..][1..] == [HexDigit(s[0] % 16)];
      assert ReplacePlus(head[1..][1..]) == head[1..][1..];
      assert ReplacePlus(head) == head;
    }
  }

  /** Whatever the name, FTL reads back the bytes that went in. */
  lemma {:induction false} DecodeEscape(s: Bytes)
    ensures Decode(EscapePathSegment(s)) == s
  {
    if s != [] {
      EscapeHead(s);
      HexInverse(s[0] / 16);
      HexInverse(s[0] % 16);
      DecodeEscape(s[1..]);
      var e := EscapePathSegment(s);
      if Kept(s[0]) && s[0] != PLUS {
        assert e[1..] == EscapePathSegment(s[1..]);
      } else {
        assert e[3..] == EscapePathSegment(s[1..]);
      }
    }
  }

  /** A name of unreserved characters is its own escaped form. */
  lemma {:induction false} UnreservedUnchanged(s: Bytes)
    requires forall b :: b in s ==> Unreserved(b)
    ensures EscapePathSegment(s) == s
  {
    if s != [] {
      assert Unreserved(s[0]);
      EscapeHead(s);
      UnreservedUnchanged(s[1..]);
    }
  }

  /** Section 2.3 of RFC 3986. */
  predicate Unreserved(b: Byte) {
    48 <= b <= 57 || 65 <= b <= 90 || 97 <= b <= 122 || b as char in "-._~"
  }

  /** A byte that neither ends a segment or a path nor reads as a space. */
  predicate Plain(b: Byte) {
    b as char !in "/?#+ " && (Kept(b) || b == PERCENT)
  }

  lemma HeadPlain(b: Byte)
    ensures Kept(b) && b != PLUS ==> Plain(b)
    ensures Plain(PERCENT) && Plain(HexDigit(b / 16)) && Plain(HexDigit(b % 16))
  {}

  /** No byte of an escaped name ends the segment, starts a query or a fragment, or reads as a space. */
  lemma {:induction false} EscapedIsOneSegment(s: Bytes)
    ensures forall b :: b in EscapePathSegment(s) ==> Plain(b)
  {
    if s != [] {
      EscapeHead(s);
      HeadPlain(s[0]);
      EscapedIsOneSegment(s[1..]);
    }
  }

  /** Distinct names get distinct paths. */
  lemma EscapeInjective(a: Bytes, b: Bytes)
    ensures EscapePathSegment(a) == EscapePathSegment(b) <==> a == b
  {
    DecodeEscape(a);
    DecodeEscape(b);
  }

  /** The API path of one domain rule. */
  function DomainPath(typ: Bytes, kind: Bytes, domain: Bytes): Bytes {
    Ascii("/domains/") + typ + [SLASH] + kind + [SLASH] + EscapePathSegment(domain)
  }

  /** One path names one rule: type, kind and domain can all be read back from it. */
  lemma DomainPathInjective(t: Bytes, k: Bytes, d: Bytes, t': Bytes, k': Bytes, d': Bytes)
    requires SLASH !in t && SLASH !in k && SLASH !in t' && SLASH !in k'
    ensures DomainPath(t, k, d) == DomainPath(t', k', d') <==> t == t' && k == k' && d == d'
  {
    DomainPathParts(t, k, d);
    DomainPathParts(t', k', d');
    EscapeInjective(d, d');
    if DomainPath(t, k, d) == DomainPath(t', k', d') {
      var parts, parts' := [t, k, EscapePathSegment(d)], [t', k', EscapePathSegment(d')];
      assert parts == parts';
      assert t == parts[0] == parts'[0] == t' && k == parts[1] == parts'[1] == k';
      assert parts[2] == parts'[2];
    }
  }

  lemma DomainPathParts(t: Bytes, k: Bytes, d: Bytes)
    requires SLASH !in t && SLASH !in k
    ensures |DomainPath(t, k, d)| >= 9
    ensures Split(DomainPath(t, k, d)[9..], SLASH) == [t, k, EscapePathSegment(d)]
  {
    var e := EscapePathSegment(d);
    EscapedIsOneSegment(d);
    assert SLASH !in e;
    assert DomainPath(t, k, d)[9..] == t + [SLASH] + (k + [SLASH] + e);
    SplitPart(t, k + [SLASH] + e, SLASH);
    SplitPart(k, e, SLASH);
    SplitPart(e, [], SLASH);
  }

  function EscapeAll(parts: seq<Bytes>): seq<Bytes> {
    seq(|parts|, i requires 0 <= i < |parts| => EscapePathSegment(parts[i]))
  }

  function DecodeAll(parts: seq<Bytes>): seq<Bytes> {
    seq(|parts|, i requires 0 <= i < |parts| => Decode(parts[i]))
  }

  /** escapeConfigElement, whose loop rewrites the parts in place. */
  method EscapeConfigElement(element: Bytes) returns (path: Bytes)
    ensures path == Join(EscapeAll(Split(element, DOT)), SLASH)
  {
    var parts := Split(element, DOT);
    ghost var was := parts;
    for i := 0 to |parts|
      invariant |parts| == |was| && parts[i..] == was[i..]
      invariant parts[..i] == EscapeAll(was)[..i]
    {
      parts := parts[i := EscapePathSegment(parts[i])];
    }
    assert parts == EscapeAll(was);
    path := Join(parts, SLASH);
  }

  /** Cutting the path at '/', decoding each part and joining with '.' gives the setting's name back. */
  lemma ConfigElementRecovered(element: Bytes)
    ensures Join(DecodeAll(Split(Join(EscapeAll(Split(element, DOT)), SLASH), SLASH)), DOT) == element
  {
    var parts := Split(element, DOT);
    forall p | p in EscapeAll(parts) ensures SLASH !in p {
      var i :| 0 <= i < |parts| && p == EscapeAll(parts)[i];
      EscapedIsOneSegment(parts[i]);
    }
    SplitJoin(EscapeAll(parts), SLASH);
    forall i | 0 <= i < |parts| ensures Decode(EscapePathSegment(parts[i])) == parts[i] {
      DecodeEscape(parts[i]);
    }
    assert DecodeAll(EscapeAll(parts)) == parts;
    JoinSplit(element, DOT);
  }
}
