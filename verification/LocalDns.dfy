/** Local DNS and CNAME records that carry several names, and taking one name away. */
module LocalDns {
  import Text
  import C = CnameRewrite
  import opened Wrappers

  /** How names are folded, which characters are spaces, and what reads as an address and as a number. */
  datatype Rules = Rules(fold: string -> string, space: char -> bool, parse: string -> Option<nat>,
                         number: string -> bool)

  predicate Alike(r: Rules, a: string, b: string) {
    r.fold(a) == r.fold(b)
  }

  // ---- Words and columns ----

  function WordLength(r: Rules, s: string): (n: nat)
    ensures n <= |s|
    ensures forall i :: 0 <= i < n ==> !r.space(s[i])
    ensures n < |s| ==> r.space(s[n])
  {
    if s == "" || r.space(s[0]) then 0 else 1 + WordLength(r, s[1..])
  }

  /** strings.Fields: the stretches between runs of spaces. */
  function Words(r: Rules, s: string): (ws: seq<string>)
    ensures forall w :: w in ws ==> IsWord(r, w)
    decreases |s|
  {
    if s == "" then []
    else if r.space(s[0]) then Words(r, s[1..])
    else
      var n := WordLength(r, s);
      [s[..n]] + Words(r, s[n..])
  }

  predicate IsWord(r: Rules, w: string) {
    w != "" && forall i :: 0 <= i < |w| ==> !r.space(w[i])
  }

  lemma {:induction false} WordLengthOf(r: Rules, w: string, rest: string)
    requires (forall i :: 0 <= i < |w| ==> !r.space(w[i])) && (rest == "" || r.space(rest[0]))
    ensures WordLength(r, w + rest) == |w|
  {
    if w == "" {
      assert w + rest == rest;
    } else {
      assert (w + rest)[1..] == w[1..] + rest;
      WordLengthOf(r, w[1..], rest);
    }
  }

  /** Words joined with spaces are read back. */
  lemma {:induction false} WordsJoined(r: Rules, ws: seq<string>)
    requires r.space(' ') && forall w :: w in ws ==> IsWord(r, w)
    ensures Words(r, Text.Join(ws, ' ')) == ws
  {
    if ws != [] {
      assert ws[0] in ws;
      var rest := if |ws| == 1 then "" else " " + Text.Join(ws[1..], ' ');
      assert Text.Join(ws, ' ') == ws[0] + rest;
      WordLengthOf(r, ws[0], rest);
      assert (ws[0] + rest)[..|ws[0]|] == ws[0] && (ws[0] + rest)[|ws[0]|..] == rest;
      if |ws| > 1 {
        WordsJoined(r, ws[1..]);
        assert rest[1..] == Text.Join(ws[1..], ' ');
      }
    }
  }

  predicate Spaces(r: Rules, s: string) {
    forall c :: c in s ==> r.space(c)
  }

  /** The first gap, the first word, the second gap, and so on. */
  function Weave(gaps: seq<string>, ws: seq<string>): string
    requires |gaps| == |ws| + 1
  {
    gaps[0] + if ws == [] then "" else ws[0] + Weave(gaps[1..], ws[1..])
  }

  ghost predicate Woven(r: Rules, s: string, gaps: seq<string>, ws: seq<string>) {
    && |gaps| == |ws| + 1 && s == Weave(gaps, ws)
    && (forall g :: g in gaps ==> Spaces(r, g)) && (forall w :: w in ws ==> IsWord(r, w))
    && (forall i :: 0 < i < |ws| ==> gaps[i] != "")
  }

  /** The text is these words, with spaces between them and perhaps around. */
  ghost predicate Spaced(r: Rules, s: string, ws: seq<string>) {
    exists gaps :: Woven(r, s, gaps, ws)
  }

  lemma {:induction false} SpacesSkipped(r: Rules, gap: string, s: string)
    requires Spaces(r, gap)
    ensures Words(r, gap + s) == Words(r, s)
  {
    if gap == "" {
      assert gap + s == s;
    } else {
      assert gap[0] in gap && (gap + s)[1..] == gap[1..] + s;
      SpacesSkipped(r, gap[1..], s);
    }
  }

  lemma {:induction false} WovenRead(r: Rules, s: string, gaps: seq<string>, ws: seq<string>)
    requires Woven(r, s, gaps, ws)
    ensures Words(r, s) == ws
    decreases |ws|
  {
    assert gaps[0] in gaps;
    if ws == [] {
      SpacesSkipped(r, gaps[0], "");
    } else {
      var rest := Weave(gaps[1..], ws[1..]);
      assert ws[0] in ws && gaps[1] in gaps;
      SpacesSkipped(r, gaps[0], ws[0] + rest);
      assert rest == "" || r.space(rest[0]) by {
        if gaps[1] != "" { assert rest[0] == gaps[1][0]; }
      }
      WordLengthOf(r, ws[0], rest);
      assert (ws[0] + rest)[..|ws[0]|] == ws[0] && (ws[0] + rest)[|ws[0]|..] == rest;
      WovenRead(r, rest, gaps[1..], ws[1..]);
    }
  }

  lemma SpaceWoven(r: Rules, c: char, s: string, gaps: seq<string>, ws: seq<string>)
    requires r.space(c) && Woven(r, s, gaps, ws)
    ensures Woven(r, [c] + s, [[c] + gaps[0]] + gaps[1..], ws)
  {
    assert ([[c] + gaps[0]] + gaps[1..])[1..] == gaps[1..] && gaps[0] in gaps;
    var after := if ws == [] then "" else ws[0] + Weave(gaps[1..], ws[1..]);
    Text.Regroup([c], gaps[0], after);
  }

  lemma WordWoven(r: Rules, w: string, s: string, gaps: seq<string>, ws: seq<string>)
    requires IsWord(r, w) && Woven(r, s, gaps, ws) && (ws != [] ==> gaps[0] != "")
    ensures Woven(r, w + s, [""] + gaps, [w] + ws)
  {
    assert ([""] + gaps)[1..] == gaps && ([w] + ws)[1..] == ws;
  }

  lemma {:induction false} WordsWoven(r: Rules, s: string) returns (gaps: seq<string>)
    ensures Woven(r, s, gaps, Words(r, s))
    ensures s != "" && r.space(s[0]) ==> gaps[0] != ""
    decreases |s|
  {
    if s == "" {
      gaps := [""];
    } else if r.space(s[0]) {
      var rest := WordsWoven(r, s[1..]);
      SpaceWoven(r, s[0], s[1..], rest, Words(r, s[1..]));
      gaps := [[s[0]] + rest[0]] + rest[1..];
      assert [s[0]] + s[1..] == s;
    } else {
      var n := WordLength(r, s);
      var rest := WordsWoven(r, s[n..]);
      WordWoven(r, s[..n], s[n..], rest, Words(r, s[n..]));
      gaps := [""] + rest;
      assert s[..n] + s[n..] == s;
    }
  }

  /** strings.Fields finds the words, however they are spaced. */
  lemma WordsExactly(r: Rules, s: string, ws: seq<string>)
    ensures Words(r, s) == ws <==> Spaced(r, s, ws)
  {
    var gaps := WordsWoven(r, s);
    if Spaced(r, s, ws) {
      var g :| Woven(r, s, g, ws);
      WovenRead(r, s, g, ws);
    }
  }

  function TrimLeft(r: Rules, s: string): (t: string)
    ensures t != "" ==> !r.space(t[0])
    ensures forall c :: c in t ==> c in s
  {
    if s != "" && r.space(s[0]) then TrimLeft(r, s[1..]) else s
  }

  function TrimRight(r: Rules, s: string): (t: string)
    ensures t != "" ==> !r.space(t[|t| - 1])
    ensures |t| <= |s| && t == s[..|t|]
  {
    if s != "" && r.space(s[|s| - 1]) then TrimRight(r, s[..|s| - 1]) else s
  }

  /** strings.TrimSpace. */
  function Trim(r: Rules, s: string): (t: string)
    ensures Trimmed(r, t)
    ensures forall c :: c in t ==> c in s
  {
    TrimRight(r, TrimLeft(r, s))
  }

  predicate Trimmed(r: Rules, s: string) {
    s == "" || (!r.space(s[0]) && !r.space(s[|s| - 1]))
  }

  function TrimAll(r: Rules, parts: seq<string>): seq<string> {
    seq(|parts|, i requires 0 <= i < |parts| => Trim(r, parts[i]))
  }

  /** How many of a CNAME record's columns come before the TTL, if its last is one. */
  function BeforeTtl(r: Rules, parts: seq<string>): nat {
    if |parts| > 2 && r.number(parts[|parts| - 1]) then |parts| - 1 else |parts|
  }

  /** A CNAME record's aliases, and the rest: the target and the TTL if there is one. */
  function SplitColumns(r: Rules, parts: seq<string>): (seq<string>, seq<string>) {
    var n := BeforeTtl(r, parts);
    if n < 2 then (parts, []) else (parts[..n - 1], parts[n - 1..])
  }

  function SplitCname(r: Rules, rec: string): (seq<string>, seq<string>) {
    SplitColumns(r, TrimAll(r, Text.Split(rec, ',')))
  }

  /** splitCNAME. */
  method SplitCnameRecord(r: Rules, rec: string) returns (aliases: seq<string>, rest: seq<string>)
    ensures (aliases, rest) == SplitCname(r, rec)
  {
    var parts := Text.Split(rec, ',');
    ghost var whole := parts;
    for i := 0 to |parts|
      invariant |parts| == |whole|
      invariant forall k :: 0 <= k < |parts| ==> parts[k] == if k < i then Trim(r, whole[k]) else whole[k]
    {
      parts := parts[i := Trim(r, parts[i])];
    }
    assert parts == TrimAll(r, whole);
    var end := |parts|;
    if end > 2 {
      if r.number(parts[end - 1]) { end := end - 1; }
    }
    if end < 2 { return parts, []; }
    return parts[..end - 1], parts[end - 1..];
  }

  // ---- What a record's text says ----

  /** The column with spaces around it, if any. */
  ghost predicate Padded(r: Rules, raw: string, column: string) {
    Trimmed(r, column) && exists before, after :: Around(r, raw, before, column, after)
  }

  predicate Around(r: Rules, raw: string, before: string, column: string, after: string) {
    raw == before + column + after && Spaces(r, before) && Spaces(r, after)
  }

  lemma {:induction false} TrimLeftSplits(r: Rules, s: string) returns (before: string)
    ensures s == before + TrimLeft(r, s) && Spaces(r, before)
  {
    before := "";
    if s != "" && r.space(s[0]) {
      before := TrimLeftSplits(r, s[1..]);
      before := [s[0]] + before;
    }
  }

  lemma {:induction false} TrimRightSplits(r: Rules, s: string) returns (after: string)
    ensures s == TrimRight(r, s) + after && Spaces(r, after)
  {
    after := "";
    if s != "" && r.space(s[|s| - 1]) {
      after := TrimRightSplits(r, s[..|s| - 1]);
      after := after + [s[|s| - 1]];
    }
  }

  lemma {:induction false} TrimLeftSkips(r: Rules, before: string, s: string)
    requires Spaces(r, before)
    ensures TrimLeft(r, before + s) == TrimLeft(r, s)
  {
    if before == "" {
      assert before + s == s;
    } else {
      assert before[0] in before && (before + s)[1..] == before[1..] + s;
      TrimLeftSkips(r, before[1..], s);
    }
  }

  lemma {:induction false} TrimRightSkips(r: Rules, s: string, after: string)
    requires Spaces(r, after)
    ensures TrimRight(r, s + after) == TrimRight(r, s)
  {
    if after == "" {
      assert s + after == s;
    } else {
      var n := |after| - 1;
      assert after[n] in after && (s + after)[..|s| + n] == s + after[..n];
      TrimRightSkips(r, s, after[..n]);
    }
  }

  lemma TrimIsPadded(r: Rules, raw: string)
    ensures Padded(r, raw, Trim(r, raw))
  {
    var before := TrimLeftSplits(r, raw);
    var after := TrimRightSplits(r, TrimLeft(r, raw));
    Text.Regroup(before, Trim(r, raw), after);
    assert Around(r, raw, before, Trim(r, raw), after);
  }

  lemma PaddedTrims(r: Rules, raw: string, before: string, column: string, after: string)
    requires Trimmed(r, column) && Around(r, raw, before, column, after)
    ensures Trim(r, raw) == column
  {
    Text.Regroup(before, column, after);
    TrimLeftSkips(r, before, column + after);
    if column == "" {
      assert column + after == after + "";
      TrimLeftSkips(r, after, "");
    } else {
      TrimRightSkips(r, column, after);
    }
  }

  lemma TrimExactly(r: Rules, raw: string, column: string)
    ensures Trim(r, raw) == column <==> Padded(r, raw, column)
  {
    TrimIsPadded(r, raw);
    if Padded(r, raw, column) {
      var before, after :| Around(r, raw, before, column, after);
      PaddedTrims(r, raw, before, column, after);
    }
  }

  /** The record is these columns with commas between them, each with spaces around it, if any. */
  ghost predicate Columns(r: Rules, rec: string, columns: seq<string>) {
    columns != [] && exists raw :: Lines(r, rec, raw, columns)
  }

  ghost predicate Lines(r: Rules, rec: string, raw: seq<string>, columns: seq<string>) {
    && rec == Text.Join(raw, ',') && |raw| == |columns|
    && forall i :: 0 <= i < |raw| ==> ',' !in raw[i] && Padded(r, raw[i], columns[i])
  }

  lemma ColumnsExactly(r: Rules, rec: string, columns: seq<string>)
    ensures Columns(r, rec, columns) <==> TrimAll(r, Text.Split(rec, ',')) == columns
  {
    var parts := Text.Split(rec, ',');
    Text.JoinSplit(rec, ',');
    forall i | 0 <= i < |parts| ensures ',' !in parts[i] && Padded(r, parts[i], Trim(r, parts[i])) {
      assert parts[i] in parts;
      TrimExactly(r, parts[i], Trim(r, parts[i]));
    }
    assert Lines(r, rec, parts, TrimAll(r, parts));
    if Columns(r, rec, columns) {
      var raw :| Lines(r, rec, raw, columns);
      Text.SplitJoin(raw, ',');
      forall i | 0 <= i < |raw| ensures Trim(r, raw[i]) == columns[i] { TrimExactly(r, raw[i], columns[i]); }
      assert TrimAll(r, raw) == columns;
    }
  }

  /** How a CNAME record is read: one column is an alias without a target; of more, the last is the target, unless
      there are more than two and it is a number, and then it is the TTL and the one before it the target. */
  ghost predicate Reads(r: Rules, rec: string, aliases: seq<string>, target: Option<string>, ttl: Option<string>) {
    match (target, ttl)
    case (Some(t), Some(n)) => aliases != [] && r.number(n) && Columns(r, rec, aliases + [t, n])
    case (Some(t), None) => aliases != [] && (r.number(t) ==> |aliases| == 1) && Columns(r, rec, aliases + [t])
    case (None, None) => |aliases| == 1 && Columns(r, rec, aliases)
    case (None, Some(_)) => false
  }

  function Rest(target: Option<string>, ttl: Option<string>): seq<string> {
    (if target.Some? then [target.value] else []) + if ttl.Some? then [ttl.value] else []
  }

  /** That is how splitCNAME reads it. */
  lemma ReadsExactly(r: Rules, rec: string, aliases: seq<string>, target: Option<string>, ttl: Option<string>)
    requires target.None? ==> ttl.None?
    ensures Reads(r, rec, aliases, target, ttl) <==> SplitCname(r, rec) == (aliases, Rest(target, ttl))
  {
    var parts := TrimAll(r, Text.Split(rec, ','));
    ColumnsExactly(r, rec, aliases + Rest(target, ttl));
    RestShapes(aliases, target, ttl);
    if parts == aliases + Rest(target, ttl) && Shaped(r, aliases, target, ttl) {
      ShapeSplits(r, parts, aliases, target, ttl);
    }
    if SplitColumns(r, parts) == (aliases, Rest(target, ttl)) { SplitShaped(r, parts, target, ttl); }
  }

  lemma RestShapes(aliases: seq<string>, target: Option<string>, ttl: Option<string>)
    ensures target.Some? && ttl.Some? ==> aliases + Rest(target, ttl) == aliases + [target.value, ttl.value]
    ensures target.Some? && ttl.None? ==> aliases + Rest(target, ttl) == aliases + [target.value]
    ensures target.None? && ttl.None? ==> aliases + Rest(target, ttl) == aliases
  {}

  predicate Clean(r: Rules, column: string) {
    ',' !in column && Trimmed(r, column)
  }

  lemma CleanColumns(r: Rules, columns: seq<string>)
    requires columns != [] && forall c :: c in columns ==> Clean(r, c)
    ensures Columns(r, Text.Join(columns, ','), columns)
  {
    forall i | 0 <= i < |columns| ensures ',' !in columns[i] && Padded(r, columns[i], columns[i]) {
      assert Clean(r, columns[i]) && Around(r, columns[i], "", columns[i], "");
    }
    assert Lines(r, Text.Join(columns, ','), columns, columns);
  }

  /** Written without spaces: with a number last, which is the TTL. */
  lemma JoinedWithTtl(r: Rules, aliases: seq<string>, target: string, ttl: string)
    requires aliases != [] && r.number(ttl) && forall c :: c in aliases + [target, ttl] ==> Clean(r, c)
    ensures SplitCname(r, Text.Join(aliases + [target, ttl], ',')) == (aliases, [target, ttl])
  {
    CleanColumns(r, aliases + [target, ttl]);
    assert Reads(r, Text.Join(aliases + [target, ttl], ','), aliases, Some(target), Some(ttl));
    assert Rest(Some(target), Some(ttl)) == [target, ttl];
    ReadsExactly(r, Text.Join(aliases + [target, ttl], ','), aliases, Some(target), Some(ttl));
  }

  /** With a target last: it is no number, or there is just one alias. */
  lemma JoinedWithTarget(r: Rules, aliases: seq<string>, target: string)
    requires aliases != [] && (r.number(target) ==> |aliases| == 1)
    requires forall c :: c in aliases + [target] ==> Clean(r, c)
    ensures SplitCname(r, Text.Join(aliases + [target], ',')) == (aliases, [target])
  {
    CleanColumns(r, aliases + [target]);
    assert Reads(r, Text.Join(aliases + [target], ','), aliases, Some(target), None);
    assert Rest(Some(target), None) == [target];
    ReadsExactly(r, Text.Join(aliases + [target], ','), aliases, Some(target), None);
  }

  /** A single column. */
  lemma JoinedAlone(r: Rules, alias: string)
    requires Clean(r, alias)
    ensures SplitCname(r, alias) == ([alias], [])
  {
    CleanColumns(r, [alias]);
    ReadsExactly(r, alias, [alias], None, None);
  }

  /** What the cut of the columns tells of them, and the other way round. */
  predicate Shaped(r: Rules, aliases: seq<string>, target: Option<string>, ttl: Option<string>) {
    match (target, ttl)
    case (Some(_), Some(n)) => aliases != [] && r.number(n)
    case (Some(t), None) => aliases != [] && (r.number(t) ==> |aliases| == 1)
    case (None, None) => |aliases| == 1
    case (None, Some(_)) => false
  }

  lemma ShapeSplits(r: Rules, parts: seq<string>, aliases: seq<string>, target: Option<string>, ttl: Option<string>)
    requires parts == aliases + Rest(target, ttl) && Shaped(r, aliases, target, ttl)
    ensures SplitColumns(r, parts) == (aliases, Rest(target, ttl))
  {
    var n := |parts| - 1;
    assert parts[|aliases|..] == Rest(target, ttl) && parts[..|aliases|] == aliases;
    if ttl.Some? {
      assert parts[n] == ttl.value && BeforeTtl(r, parts) == n;
    } else if target.Some? {
      assert parts[n] == target.value && BeforeTtl(r, parts) == n + 1;
    } else {
      assert parts == aliases;
    }
  }

  lemma SplitShaped(r: Rules, parts: seq<string>, target: Option<string>, ttl: Option<string>)
    requires parts != [] && (target.None? ==> ttl.None?) && SplitColumns(r, parts).1 == Rest(target, ttl)
    ensures parts == SplitColumns(r, parts).0 + Rest(target, ttl)
    ensures Shaped(r, SplitColumns(r, parts).0, target, ttl)
  {
    var (aliases, rest) := SplitColumns(r, parts);
    assert parts == aliases + rest;
    if ttl.Some? { assert rest == [target.value, ttl.value] && rest[1] == parts[|parts| - 1]; }
    else if target.Some? { assert rest == [target.value] && rest[0] == parts[|parts| - 1]; }
  }

  lemma ColumnsKept(r: Rules, parts: seq<string>, kept: seq<string>)
    requires kept != [] && |kept| < |SplitColumns(r, parts).0|
    ensures SplitColumns(r, kept + SplitColumns(r, parts).1) == (kept, SplitColumns(r, parts).1)
    ensures forall a :: a in SplitColumns(r, parts).0 + SplitColumns(r, parts).1 ==> a in parts
  {}

  lemma ColumnsClean(r: Rules, rec: string, a: string)
    requires a in TrimAll(r, Text.Split(rec, ','))
    ensures ',' !in a && Trim(r, a) == a
  {}

  /** Joining some of a record's aliases with its rest and splitting again gives back those aliases and that rest. */
  lemma RejoinedSplits(r: Rules, rec: string, kept: seq<string>)
    requires kept != [] && |kept| < |SplitCname(r, rec).0|
    requires forall a :: a in kept ==> a in SplitCname(r, rec).0
    ensures SplitCname(r, Text.Join(kept + SplitCname(r, rec).1, ',')) == (kept, SplitCname(r, rec).1)
  {
    var parts := TrimAll(r, Text.Split(rec, ','));
    var again := kept + SplitCname(r, rec).1;
    ColumnsKept(r, parts, kept);
    forall a | a in again ensures ',' !in a && Trim(r, a) == a { ColumnsClean(r, rec, a); }
    CleanSplit(r, again);
  }

  lemma CleanSplit(r: Rules, columns: seq<string>)
    requires columns != [] && forall c :: c in columns ==> ',' !in c && Trim(r, c) == c
    ensures TrimAll(r, Text.Split(Text.Join(columns, ','), ',')) == columns
  {
    Text.SplitJoin(columns, ',');
    assert TrimAll(r, columns) == columns;
  }

  /** The record's text is read as these aliases, and this target and TTL, if any. */
  ghost predicate ReadAs(r: Rules, rec: string, aliases: seq<string>, rest: seq<string>) {
    exists target, ttl :: rest == Rest(target, ttl) && Reads(r, rec, aliases, target, ttl)
  }

  lemma SplitReads(r: Rules, rec: string)
    ensures ReadAs(r, rec, SplitCname(r, rec).0, SplitCname(r, rec).1)
  {
    var target, ttl := RestOf(r, rec);
    ReadsExactly(r, rec, SplitCname(r, rec).0, target, ttl);
  }

  // ---- The record a delete means ----

  /** The records that match, in order. */
  function Matching(records: seq<string>, matches: string -> bool): seq<string> {
    if records == [] then []
    else (if matches(records[0]) then [records[0]] else []) + Matching(records[1..], matches)
  }

  /** resolveOne: the one record that matches, if there is exactly one. */
  method ResolveOne(records: seq<string>, matches: string -> bool) returns (one: Option<string>)
    ensures one == if |Matching(records, matches)| == 1 then Some(Matching(records, matches)[0]) else None
  {
    var found := [];
    for i := 0 to |records|
      invariant found + Matching(records[i..], matches) == Matching(records, matches)
    {
      assert records[i..][1..] == records[i + 1..];
      ghost var rest := Matching(records[i + 1..], matches);
      if matches(records[i]) {
        Text.Regroup(found, [records[i]], rest);
        found := found + [records[i]];
      } else {
        assert [] + rest == rest;
      }
    }
    assert records[|records|..] == [] && found + [] == found;
    return if |found| == 1 then Some(found[0]) else None;
  }

  lemma {:induction false} MatchingExact(records: seq<string>, matches: string -> bool, rec: string)
    ensures rec in Matching(records, matches) <==> rec in records && matches(rec)
  {
    if records != [] { MatchingExact(records[1..], matches, rec); }
  }

  /** If one record matches it is stored once. */
  lemma OnlyOne(records: seq<string>, matches: string -> bool, rec: string)
    requires |Matching(records, matches)| == 1
    ensures matches(rec) && rec in records <==> rec == Matching(records, matches)[0]
  {
    MatchingExact(records, matches, rec);
    MatchingExact(records, matches, Matching(records, matches)[0]);
  }

  lemma {:induction false} MatchingNone(records: seq<string>, matches: string -> bool)
    requires forall j :: 0 <= j < |records| ==> !matches(records[j])
    ensures Matching(records, matches) == []
  {
    if records != [] { MatchingNone(records[1..], matches); }
  }

  lemma {:induction false} MatchingAt(records: seq<string>, matches: string -> bool, i: nat)
    requires i < |records| && forall j :: 0 <= j < |records| ==> (matches(records[j]) <==> i == j)
    ensures Matching(records, matches) == [records[i]]
  {
    if i == 0 {
      MatchingNone(records[1..], matches);
    } else {
      MatchingAt(records[1..], matches, i - 1);
    }
  }

  lemma {:induction false} MatchingSingle(records: seq<string>, matches: string -> bool) returns (i: nat)
    requires |Matching(records, matches)| == 1
    ensures i < |records| && forall j :: 0 <= j < |records| ==> (matches(records[j]) <==> i == j)
  {
    if matches(records[0]) {
      i := 0;
      forall j | 0 < j < |records| ensures !matches(records[j]) {
        MatchingExact(records[1..], matches, records[j]);
        assert records[1..][j - 1] == records[j];
      }
    } else {
      i := MatchingSingle(records[1..], matches);
      i := i + 1;
    }
  }

  // ---- Writing the setting back ----

  /** What a delete does: nothing, delete a stored record, or write the whole setting. */
  datatype Edit = Refused | DeleteRecord(record: string) | WriteBack(records: seq<string>)

  /** The setting after it, when Pi-hole accepts it. */
  function Edited(records: seq<string>, e: Edit): seq<string> {
    match e
    case Refused => records
    case DeleteRecord(record) => C.Without(records, record)
    case WriteBack(updated) => updated
  }

  /** The records with original replaced in place, or left out if what replaces it is stored already. */
  function Replaced(records: seq<string>, original: string, remaining: string, stored: bool): seq<string> {
    if records == [] then []
    else
      (if records[0] != original then [records[0]] else if stored then [] else [remaining]) +
      Replaced(records[1..], original, remaining, stored)
  }

  /** replaceLocalRecord. */
  method ReplaceLocalRecord(records: seq<string>, original: string, remaining: string) returns (updated: seq<string>)
    ensures updated == Replaced(records, original, remaining, remaining in records)
  {
    updated := [];
    for i := 0 to |records|
      invariant updated + Replaced(records[i..], original, remaining, remaining in records) ==
        Replaced(records, original, remaining, remaining in records)
    {
      var rec := records[i];
      assert records[i..][1..] == records[i + 1..];
      ghost var rest := Replaced(records[i + 1..], original, remaining, remaining in records);
      if rec != original {
        Text.Regroup(updated, [rec], rest);
        updated := updated + [rec];
      } else if remaining !in records {
        Text.Regroup(updated, [remaining], rest);
        updated := updated + [remaining];
      } else {
        assert [] + rest == rest;
      }
    }
    assert records[|records|..] == [] && updated + [] == updated;
  }

  lemma {:induction false} ReplacedExact(records: seq<string>, original: string, remaining: string, stored: bool,
                                         rec: string)
    requires original in records
    ensures rec in Replaced(records, original, remaining, stored) <==>
      (rec in records && rec != original) || (!stored && rec == remaining)
    decreases records
  {
    if original in records[1..] {
      ReplacedExact(records[1..], original, remaining, stored, rec);
    } else {
      ReplacedNone(records[1..], original, remaining, stored);
    }
  }

  lemma {:induction false} ReplacedNone(records: seq<string>, original: string, remaining: string, stored: bool)
    requires original !in records
    ensures Replaced(records, original, remaining, stored) == records
  {
    if records != [] { ReplacedNone(records[1..], original, remaining, stored); }
  }

  /** Record i was left out or replaced in place, and no other touched. */
  predicate ShortenedAt(records: seq<string>, after: seq<string>, i: nat) {
    i < |records| &&
    (after == records[..i] + records[i + 1..] ||
     (|after| == |records| && after == records[..i] + [after[i]] + records[i + 1..]))
  }

  lemma {:induction false} ReplacedAt(records: seq<string>, remaining: string, stored: bool, i: nat)
    requires i < |records| && forall j :: 0 <= j < |records| && j != i ==> records[j] != records[i]
    ensures Replaced(records, records[i], remaining, stored) ==
      records[..i] + (if stored then [] else [remaining]) + records[i + 1..]
    ensures ShortenedAt(records, Replaced(records, records[i], remaining, stored), i)
  {
    if i == 0 {
      ReplacedNone(records[1..], records[0], remaining, stored);
    } else {
      ReplacedAt(records[1..], remaining, stored, i - 1);
      assert [records[0]] + records[1..][..i - 1] == records[..i];
      assert records[1..][i..] == records[i + 1..];
    }
  }

  lemma {:induction false} WithoutAt(records: seq<string>, i: nat)
    requires i < |records| && forall j :: 0 <= j < |records| && j != i ==> records[j] != records[i]
    ensures C.Without(records, records[i]) == records[..i] + records[i + 1..]
  {
    if i == 0 {
      WithoutNone(records[1..], records[0]);
    } else {
      WithoutAt(records[1..], i - 1);
      assert [records[0]] + records[1..][..i - 1] == records[..i];
      assert records[1..][i..] == records[i + 1..];
    }
  }

  lemma {:induction false} WithoutNone(records: seq<string>, record: string)
    requires record !in records
    ensures C.Without(records, record) == records
  {
    if records != [] { WithoutNone(records[1..], record); }
  }

  /** An edit that deletes record i, or writes the list back with it replaced. */
  ghost predicate EditsAt(records: seq<string>, e: Edit, i: nat)
    requires i < |records|
  {
    match e
    case Refused => false
    case DeleteRecord(record) => record == records[i]
    case WriteBack(updated) =>
      exists remaining :: updated == Replaced(records, records[i], remaining, remaining in records)
  }

  lemma EditShortens(records: seq<string>, e: Edit, i: nat)
    requires i < |records| && (forall j :: 0 <= j < |records| && j != i ==> records[j] != records[i])
    requires EditsAt(records, e, i)
    ensures ShortenedAt(records, Edited(records, e), i)
  {
    WithoutAt(records, i);
    if e.WriteBack? {
      var remaining :| e.records == Replaced(records, records[i], remaining, remaining in records);
      ReplacedAt(records, remaining, remaining in records, i);
    }
  }

  // ---- What the records say ----

  /** All that the records say, when of(rec) is what one of them says. */
  function Say<T>(records: seq<string>, of: string -> set<T>): set<T> {
    set rec, t | rec in records && t in of(rec) :: t
  }

  function Except<T>(said: set<T>, gone: T -> bool): set<T> {
    set t | t in said && !gone(t)
  }

  /** Replacing the only record that says what is to go by one that says the rest of it takes away just that. */
  lemma ReplacedSays<T>(records: seq<string>, of: string -> set<T>, gone: T -> bool, original: string,
                        remaining: string)
    requires original in records && original != remaining
    requires of(remaining) == Except(of(original), gone)
    requires forall rec, t :: rec in records && rec != original && t in of(rec) ==> !gone(t)
    ensures Say(Replaced(records, original, remaining, remaining in records), of) == Except(Say(records, of), gone)
  {
    var updated := Replaced(records, original, remaining, remaining in records);
    forall rec ensures rec in updated <==> (rec in records && rec != original) || rec == remaining {
      ReplacedExact(records, original, remaining, remaining in records, rec);
    }
    forall t | t in Except(Say(records, of), gone) ensures t in Say(updated, of) {
      var rec :| rec in records && t in of(rec);
      var now := if rec == original then remaining else rec;
      assert now in updated && t in of(now);
    }
    forall t | t in Say(updated, of) ensures t in Except(Say(records, of), gone) {
      var rec :| rec in updated && t in of(rec);
      if rec == remaining { assert t in of(original) && original in records; }
    }
  }

  /** Deleting it, when all it says is to go, likewise. */
  lemma DeletedSays<T>(records: seq<string>, of: string -> set<T>, gone: T -> bool, original: string)
    requires forall t :: t in of(original) ==> gone(t)
    requires forall rec, t :: rec in records && rec != original && t in of(rec) ==> !gone(t)
    ensures Say(C.Without(records, original), of) == Except(Say(records, of), gone)
  {
    C.WithoutElements(records, original);
    forall rec ensures rec in C.Without(records, original) <==> rec in records && rec != original {
      assert rec in C.Without(records, original) <==> rec in C.Elements(C.Without(records, original));
      assert rec in records <==> rec in C.Elements(records);
    }
    forall t ensures t in Say(C.Without(records, original), of) <==> t in Except(Say(records, of), gone) {}
  }

  /** The names that are not name, in order. */
  function Others(r: Rules, names: seq<string>, name: string): seq<string> {
    if names == [] then [] else (if Alike(r, names[0], name) then [] else [names[0]]) + Others(r, names[1..], name)
  }

  lemma {:induction false} OthersExact(r: Rules, names: seq<string>, name: string)
    ensures forall a :: a in Others(r, names, name) <==> a in names && !Alike(r, a, name)
    ensures |Others(r, names, name)| <= |names|
    ensures |Others(r, names, name)| == |names| ==> forall a :: a in names ==> !Alike(r, a, name)
  {
    if names != [] {
      assert names == [names[0]] + names[1..];
      OthersExact(r, names[1..], name);
    }
  }

  method KeepOthers(r: Rules, names: seq<string>, name: string) returns (kept: seq<string>)
    ensures kept == Others(r, names, name)
  {
    kept := [];
    for i := 0 to |names|
      invariant kept + Others(r, names[i..], name) == Others(r, names, name)
    {
      assert names[i..][1..] == names[i + 1..];
      ghost var rest := Others(r, names[i + 1..], name);
      if !Alike(r, names[i], name) {
        Text.Regroup(kept, [names[i]], rest);
        kept := kept + [names[i]];
      } else {
        assert [] + rest == rest;
      }
    }
    assert names[|names|..] == [] && kept + [] == kept;
  }

  // ---- Host records ----

  /** A host record's names, each with the address as written. */
  function Hosts(r: Rules, rec: string): set<(string, string)> {
    var ws := Words(r, rec);
    if ws == [] then {} else set n | n in ws[1..] :: (ws[0], n)
  }

  predicate IsHost(r: Rules, said: (string, string), addr: nat, name: string) {
    r.parse(said.0) == Some(addr) && Alike(r, said.1, name)
  }

  predicate HostMatches(r: Rules, rec: string, addr: nat, name: string) {
    var ws := Words(r, rec);
    |ws| >= 2 && r.parse(ws[0]) == Some(addr) && exists i :: 1 <= i < |ws| && Alike(r, ws[i], name)
  }

  lemma HostMatchesExact(r: Rules, rec: string, addr: nat, name: string)
    ensures HostMatches(r, rec, addr, name) <==> exists h :: h in Hosts(r, rec) && IsHost(r, h, addr, name)
  {
    var ws := Words(r, rec);
    if HostMatches(r, rec, addr, name) {
      var i :| 1 <= i < |ws| && Alike(r, ws[i], name);
      assert ws[1..][i - 1] == ws[i];
      assert (ws[0], ws[i]) in Hosts(r, rec);
    }
  }

  /** localDNSDeleteHandler, once it has read the setting. */
  method DeleteHost(r: Rules, records: seq<string>, addr: nat, name: string) returns (e: Edit)
    ensures e == HostEdit(r, records, addr, name)
    ensures e.Refused? <==> !exists i: nat :: HostOnlyIn(r, records, addr, name, i)
    ensures r.space(' ') ==> forall i: nat :: HostOnlyIn(r, records, addr, name, i) ==>
      ShortenedAt(records, Edited(records, e), i)
    ensures r.space(' ') ==> forall i: nat, h :: HostOnlyIn(r, records, addr, name, i) ==>
      (HostStored(r, Edited(records, e), h) <==>
        HostStored(r, records, h) && !(r.parse(h.0) == Some(addr) && Alike(r, h.1, name)))
  {
    HostRefusedExactly(r, records, addr, name);
    if r.space(' ') {
      forall i: nat | HostOnlyIn(r, records, addr, name, i)
        ensures ShortenedAt(records, Edited(records, HostEdit(r, records, addr, name)), i)
        ensures forall h :: HostStored(r, Edited(records, HostEdit(r, records, addr, name)), h) <==>
          HostStored(r, records, h) && !(r.parse(h.0) == Some(addr) && Alike(r, h.1, name))
      {
        HostDeletedExactly(r, records, addr, name, i);
      }
    }
    var matched := ResolveOne(records, rec => HostMatches(r, rec, addr, name));
    if matched.None? { return Refused; }
    MatchingExact(records, rec => HostMatches(r, rec, addr, name), matched.value);
    var fields := Words(r, matched.value);
    var kept := KeepOthers(r, fields[1..], name);
    if kept == [] { return DeleteRecord(matched.value); }
    var remaining := fields[0] + " " + Text.Join(kept, ' ');
    var updated := ReplaceLocalRecord(records, matched.value, remaining);
    return WriteBack(updated);
  }

  function HostEdit(r: Rules, records: seq<string>, addr: nat, name: string): Edit {
    var found := Matching(records, rec => HostMatches(r, rec, addr, name));
    if |found| != 1 then Refused
    else
      var fields := Words(r, found[0]);
      if |fields| < 2 then Refused
      else
        var kept := Others(r, fields[1..], name);
        if kept == [] then DeleteRecord(found[0])
        else
          var remaining := fields[0] + " " + Text.Join(kept, ' ');
          WriteBack(Replaced(records, found[0], remaining, remaining in records))
  }

  /** The line written for the names that stay says just those. */
  lemma RemainingHosts(r: Rules, rec: string, addr: nat, name: string)
    requires r.space(' ') && HostMatches(r, rec, addr, name)
    ensures var ws := Words(r, rec);
      var kept := Others(r, ws[1..], name);
      var gone := (h: (string, string)) => IsHost(r, h, addr, name);
      if kept == [] then forall h :: h in Hosts(r, rec) ==> gone(h)
      else var remaining := ws[0] + " " + Text.Join(kept, ' ');
        Hosts(r, remaining) == Except(Hosts(r, rec), gone) && remaining != rec
  {
    var ws := Words(r, rec);
    var kept := Others(r, ws[1..], name);
    OthersExact(r, ws[1..], name);
    if kept != [] {
      var line := [ws[0]] + kept;
      var remaining := ws[0] + " " + Text.Join(kept, ' ');
      assert line[1..] == kept;
      assert Text.Join(line, ' ') == remaining;
      forall w | w in line ensures IsWord(r, w) { assert w in ws; }
      WordsJoined(r, line);
      var i :| 1 <= i < |ws| && Alike(r, ws[i], name);
      assert ws[i] in ws[1..];
      assert |line| < |ws|;
    }
  }

  lemma HostsEdited(r: Rules, records: seq<string>, addr: nat, name: string)
    requires r.space(' ')
    ensures var gone := (h: (string, string)) => IsHost(r, h, addr, name);
      var of := (rec: string) => Hosts(r, rec);
      var after := Edited(records, HostEdit(r, records, addr, name));
      if |Matching(records, rec => HostMatches(r, rec, addr, name))| == 1
      then Say(after, of) == Except(Say(records, of), gone)
      else after == records
  {
    var matches := rec => HostMatches(r, rec, addr, name);
    var gone := (h: (string, string)) => IsHost(r, h, addr, name);
    var of := (rec: string) => Hosts(r, rec);
    var found := Matching(records, matches);
    if |found| == 1 {
      MatchingExact(records, matches, found[0]);
      RemainingHosts(r, found[0], addr, name);
      forall rec, h | rec in records && rec != found[0] && h in of(rec) ensures !gone(h) {
        OnlyOne(records, matches, rec);
        HostMatchesExact(r, rec, addr, name);
      }
      var ws := Words(r, found[0]);
      var kept := Others(r, ws[1..], name);
      if kept == [] {
        DeletedSays(records, of, gone, found[0]);
      } else {
        ReplacedSays(records, of, gone, found[0], ws[0] + " " + Text.Join(kept, ' '));
      }
    }
  }

  // ---- CNAME records ----

  /** A CNAME record's aliases, each with the target and TTL. */
  function Cnames(r: Rules, rec: string): set<(string, seq<string>)> {
    var (aliases, rest) := SplitCname(r, rec);
    set a | a in aliases :: (a, rest)
  }

  predicate CnameMatches(r: Rules, rec: string, name: string) {
    exists a :: a in SplitCname(r, rec).0 && Alike(r, a, name)
  }

  function CnameEdit(r: Rules, records: seq<string>, name: string): Edit {
    var found := Matching(records, rec => CnameMatches(r, rec, name));
    if |found| != 1 then Refused
    else
      var (aliases, rest) := SplitCname(r, found[0]);
      var kept := Others(r, aliases, name);
      if kept == [] then DeleteRecord(found[0])
      else
        var remaining := Text.Join(kept + rest, ',');
        WriteBack(Replaced(records, found[0], remaining, remaining in records))
  }

  /** localCNAMEDeleteHandler, once it has read the setting. */
  method DeleteCname(r: Rules, records: seq<string>, name: string) returns (e: Edit)
    ensures e == CnameEdit(r, records, name)
    ensures e.Refused? <==> !exists i: nat :: OnlyIn(r, records, name, i)
    ensures forall i: nat :: OnlyIn(r, records, name, i) ==> ShortenedAt(records, Edited(records, e), i)
    ensures forall i: nat, c :: OnlyIn(r, records, name, i) ==>
      (Stored(r, Edited(records, e), c) <==> Stored(r, records, c) && !Alike(r, c.alias, name))
  {
    CnameRefusedExactly(r, records, name);
    forall i: nat | OnlyIn(r, records, name, i)
      ensures ShortenedAt(records, Edited(records, CnameEdit(r, records, name)), i)
      ensures forall c :: Stored(r, Edited(records, CnameEdit(r, records, name)), c) <==>
        Stored(r, records, c) && !Alike(r, c.alias, name)
    {
      CnameDeletedExactly(r, records, name, i);
    }
    var matched := ResolveOne(records, rec => CnameMatches(r, rec, name));
    if matched.None? { return Refused; }
    var aliases, rest := SplitCnameRecord(r, matched.value);
    var kept := KeepOthers(r, aliases, name);
    if kept == [] { return DeleteRecord(matched.value); }
    var remaining := Text.Join(kept + rest, ',');
    var updated := ReplaceLocalRecord(records, matched.value, remaining);
    return WriteBack(updated);
  }

  lemma RemainingCnames(r: Rules, rec: string, name: string)
    requires CnameMatches(r, rec, name)
    ensures var (aliases, rest) := SplitCname(r, rec);
      var kept := Others(r, aliases, name);
      var gone := (c: (string, seq<string>)) => Alike(r, c.0, name);
      if kept == [] then forall c :: c in Cnames(r, rec) ==> gone(c)
      else var remaining := Text.Join(kept + rest, ',');
        Cnames(r, remaining) == Except(Cnames(r, rec), gone) && remaining != rec
  {
    var (aliases, rest) := SplitCname(r, rec);
    var kept := Others(r, aliases, name);
    OthersExact(r, aliases, name);
    assert |kept| < |aliases|;
    if kept != [] { RejoinedSplits(r, rec, kept); }
  }

  lemma CnamesEdited(r: Rules, records: seq<string>, name: string)
    ensures var gone := (c: (string, seq<string>)) => Alike(r, c.0, name);
      var of := (rec: string) => Cnames(r, rec);
      var after := Edited(records, CnameEdit(r, records, name));
      if |Matching(records, rec => CnameMatches(r, rec, name))| == 1
      then Say(after, of) == Except(Say(records, of), gone)
      else after == records
  {
    var matches := rec => CnameMatches(r, rec, name);
    var gone := (c: (string, seq<string>)) => Alike(r, c.0, name);
    var of := (rec: string) => Cnames(r, rec);
    var found := Matching(records, matches);
    if |found| == 1 {
      MatchingExact(records, matches, found[0]);
      RemainingCnames(r, found[0], name);
      forall rec, c | rec in records && rec != found[0] && c in of(rec) ensures !gone(c) {
        OnlyOne(records, matches, rec);
      }
      var (aliases, rest) := SplitCname(r, found[0]);
      var kept := Others(r, aliases, name);
      if kept == [] {
        DeletedSays(records, of, gone, found[0]);
      } else {
        ReplacedSays(records, of, gone, found[0], Text.Join(kept + rest, ','));
      }
    }
  }

  // ---- In terms of the text ----

  /** The record gives this name to this address, both as written. */
  ghost predicate NamesHost(r: Rules, rec: string, h: (string, string)) {
    exists ws :: Spaced(r, rec, ws) && |ws| > 1 && ws[0] == h.0 && h.1 in ws[1..]
  }

  ghost predicate HostStored(r: Rules, records: seq<string>, h: (string, string)) {
    exists rec :: rec in records && NamesHost(r, rec, h)
  }

  /** The record gives the name to the address, however they are written. */
  ghost predicate HasHost(r: Rules, rec: string, addr: nat, name: string) {
    exists h :: NamesHost(r, rec, h) && r.parse(h.0) == Some(addr) && Alike(r, h.1, name)
  }

  /** Record i does, and no other. */
  ghost predicate HostOnlyIn(r: Rules, records: seq<string>, addr: nat, name: string, i: nat) {
    i < |records| && forall j :: 0 <= j < |records| ==> (HasHost(r, records[j], addr, name) <==> i == j)
  }

  lemma NamesHostExactly(r: Rules, rec: string, h: (string, string))
    ensures NamesHost(r, rec, h) <==> h in Hosts(r, rec)
  {
    WordsExactly(r, rec, Words(r, rec));
    if ws :| Spaced(r, rec, ws) && |ws| > 1 && ws[0] == h.0 && h.1 in ws[1..] { WordsExactly(r, rec, ws); }
  }

  lemma HasHostExactly(r: Rules, rec: string, addr: nat, name: string)
    ensures HasHost(r, rec, addr, name) <==> HostMatches(r, rec, addr, name)
  {
    HostMatchesExact(r, rec, addr, name);
    forall h ensures NamesHost(r, rec, h) <==> h in Hosts(r, rec) { NamesHostExactly(r, rec, h); }
  }

  lemma HostStoredExactly(r: Rules, records: seq<string>, of: string -> set<(string, string)>, h: (string, string))
    requires forall rec :: of(rec) == Hosts(r, rec)
    ensures HostStored(r, records, h) <==> h in Say(records, of)
  {
    forall rec ensures NamesHost(r, rec, h) <==> h in of(rec) { NamesHostExactly(r, rec, h); }
  }

  lemma HostMatchedAt(r: Rules, records: seq<string>, addr: nat, name: string, i: nat)
    requires HostOnlyIn(r, records, addr, name, i)
    ensures Matching(records, rec => HostMatches(r, rec, addr, name)) == [records[i]]
    ensures HostMatches(r, records[i], addr, name)
    ensures forall j :: 0 <= j < |records| && j != i ==> records[j] != records[i]
  {
    var matches := rec => HostMatches(r, rec, addr, name);
    forall j | 0 <= j < |records| ensures matches(records[j]) <==> i == j { HasHostExactly(r, records[j], addr, name); }
    MatchingAt(records, matches, i);
  }

  lemma HostStoredAfter(r: Rules, records: seq<string>, addr: nat, name: string, h: (string, string))
    requires r.space(' ') && |Matching(records, rec => HostMatches(r, rec, addr, name))| == 1
    ensures HostStored(r, Edited(records, HostEdit(r, records, addr, name)), h) <==>
      HostStored(r, records, h) && !(r.parse(h.0) == Some(addr) && Alike(r, h.1, name))
  {
    var of := (rec: string) => Hosts(r, rec);
    HostsEdited(r, records, addr, name);
    HostStoredExactly(r, records, of, h);
    HostStoredExactly(r, Edited(records, HostEdit(r, records, addr, name)), of, h);
  }

  /** When only record i gives the name to the address, exactly that goes: every other address and name stays as it
      was written, also when the shortened record was stored already, and every other record keeps its place. */
  lemma HostDeletedExactly(r: Rules, records: seq<string>, addr: nat, name: string, i: nat)
    requires r.space(' ') && HostOnlyIn(r, records, addr, name, i)
    ensures var after := Edited(records, HostEdit(r, records, addr, name));
      && ShortenedAt(records, after, i)
      && forall h :: HostStored(r, after, h) <==>
           HostStored(r, records, h) && !(r.parse(h.0) == Some(addr) && Alike(r, h.1, name))
  {
    HostMatchedAt(r, records, addr, name, i);
    EditShortens(records, HostEdit(r, records, addr, name), i);
    forall h
      ensures HostStored(r, Edited(records, HostEdit(r, records, addr, name)), h) <==>
        HostStored(r, records, h) && !(r.parse(h.0) == Some(addr) && Alike(r, h.1, name))
    {
      HostStoredAfter(r, records, addr, name, h);
    }
  }

  /** The record is deleted, rather than rewritten, when it gives no other name. */
  lemma HostDeletesWhole(r: Rules, records: seq<string>, addr: nat, name: string, i: nat)
    requires HostOnlyIn(r, records, addr, name, i)
    ensures HostEdit(r, records, addr, name) == DeleteRecord(records[i]) <==>
      forall h :: NamesHost(r, records[i], h) ==> Alike(r, h.1, name)
    ensures !HostEdit(r, records, addr, name).WriteBack? ==>
      HostEdit(r, records, addr, name) == DeleteRecord(records[i])
  {
    var matches := rec => HostMatches(r, rec, addr, name);
    forall j | 0 <= j < |records| ensures matches(records[j]) <==> i == j { HasHostExactly(r, records[j], addr, name); }
    MatchingAt(records, matches, i);
    var ws := Words(r, records[i]);
    OthersExact(r, ws[1..], name);
    forall h ensures NamesHost(r, records[i], h) <==> h in Hosts(r, records[i]) { NamesHostExactly(r, records[i], h); }
    var kept := Others(r, ws[1..], name);
    if kept != [] { assert kept[0] in kept && (ws[0], kept[0]) in Hosts(r, records[i]); }
  }

  /** Otherwise the tool refuses. */
  lemma HostRefusedExactly(r: Rules, records: seq<string>, addr: nat, name: string)
    ensures HostEdit(r, records, addr, name).Refused? <==> !exists i: nat :: HostOnlyIn(r, records, addr, name, i)
  {
    var matches := rec => HostMatches(r, rec, addr, name);
    forall j | 0 <= j < |records| ensures matches(records[j]) <==> HasHost(r, records[j], addr, name) {
      HasHostExactly(r, records[j], addr, name);
    }
    if |Matching(records, matches)| == 1 {
      var i := MatchingSingle(records, matches);
      assert HostOnlyIn(r, records, addr, name, i);
      MatchingAt(records, matches, i);
    }
    if i: nat :| HostOnlyIn(r, records, addr, name, i) { MatchingAt(records, matches, i); }
  }

  /** An alias with its target and TTL. */
  datatype Cname = Cname(alias: string, target: Option<string>, ttl: Option<string>)

  /** The record gives this alias, for this target and with this TTL. */
  ghost predicate Gives(r: Rules, rec: string, c: Cname) {
    exists aliases :: Reads(r, rec, aliases, c.target, c.ttl) && c.alias in aliases
  }

  ghost predicate Stored(r: Rules, records: seq<string>, c: Cname) {
    exists rec :: rec in records && Gives(r, rec, c)
  }

  /** The record has an alias of this name, ignoring case. */
  ghost predicate Carries(r: Rules, rec: string, name: string) {
    exists c :: Gives(r, rec, c) && Alike(r, c.alias, name)
  }

  /** Record i has it, and no other record does. */
  ghost predicate OnlyIn(r: Rules, records: seq<string>, name: string, i: nat) {
    i < |records| && forall j :: 0 <= j < |records| ==> (Carries(r, records[j], name) <==> i == j)
  }

  lemma GivesExactly(r: Rules, rec: string, c: Cname)
    ensures Gives(r, rec, c) <==>
      (c.target.None? ==> c.ttl.None?) && (c.alias, Rest(c.target, c.ttl)) in Cnames(r, rec)
  {
    var (aliases, rest) := SplitCname(r, rec);
    if c.target.None? ==> c.ttl.None? { ReadsExactly(r, rec, aliases, c.target, c.ttl); }
    if names :| Reads(r, rec, names, c.target, c.ttl) && c.alias in names {
      ReadsExactly(r, rec, names, c.target, c.ttl);
    }
  }

  lemma RestOf(r: Rules, rec: string) returns (target: Option<string>, ttl: Option<string>)
    ensures SplitCname(r, rec).1 == Rest(target, ttl) && (target.None? ==> ttl.None?)
  {
    var rest := SplitCname(r, rec).1;
    target := if |rest| > 0 then Some(rest[0]) else None;
    ttl := if |rest| > 1 then Some(rest[1]) else None;
  }

  lemma CarriesExactly(r: Rules, rec: string, name: string)
    ensures Carries(r, rec, name) <==> CnameMatches(r, rec, name)
  {
    if CnameMatches(r, rec, name) {
      var a :| a in SplitCname(r, rec).0 && Alike(r, a, name);
      var target, ttl := RestOf(r, rec);
      GivesExactly(r, rec, Cname(a, target, ttl));
    }
    if c :| Gives(r, rec, c) && Alike(r, c.alias, name) {
      GivesExactly(r, rec, c);
      assert c.alias in SplitCname(r, rec).0;
    }
  }

  lemma StoredExactly(r: Rules, records: seq<string>, of: string -> set<(string, seq<string>)>, c: Cname)
    requires forall rec :: of(rec) == Cnames(r, rec)
    ensures Stored(r, records, c) <==>
      (c.target.None? ==> c.ttl.None?) && (c.alias, Rest(c.target, c.ttl)) in Say(records, of)
  {
    var said := (c.alias, Rest(c.target, c.ttl));
    forall rec ensures Gives(r, rec, c) <==> (c.target.None? ==> c.ttl.None?) && said in of(rec) {
      GivesExactly(r, rec, c);
    }
  }

  /** When only record i carries the alias, exactly that alias goes: every other alias keeps its target and TTL, also
      when the shortened record was stored already, and every other record its place. */
  lemma CnameDeletedExactly(r: Rules, records: seq<string>, name: string, i: nat)
    requires OnlyIn(r, records, name, i)
    ensures var after := Edited(records, CnameEdit(r, records, name));
      && ShortenedAt(records, after, i)
      && forall c :: Stored(r, after, c) <==> Stored(r, records, c) && !Alike(r, c.alias, name)
  {
    var matches := rec => CnameMatches(r, rec, name);
    var of := (rec: string) => Cnames(r, rec);
    forall j | 0 <= j < |records| ensures matches(records[j]) <==> i == j { CarriesExactly(r, records[j], name); }
    MatchingAt(records, matches, i);
    var after := Edited(records, CnameEdit(r, records, name));
    CnamesEdited(r, records, name);
    forall c ensures Stored(r, after, c) <==> Stored(r, records, c) && !Alike(r, c.alias, name) {
      StoredExactly(r, records, of, c);
      StoredExactly(r, after, of, c);
    }
    EditShortens(records, CnameEdit(r, records, name), i);
  }

  /** The record is deleted, rather than rewritten, when it gives no other alias. */
  lemma CnameDeletesWhole(r: Rules, records: seq<string>, name: string, i: nat)
    requires OnlyIn(r, records, name, i)
    ensures CnameEdit(r, records, name) == DeleteRecord(records[i]) <==>
      forall c :: Gives(r, records[i], c) ==> Alike(r, c.alias, name)
    ensures !CnameEdit(r, records, name).WriteBack? ==> CnameEdit(r, records, name) == DeleteRecord(records[i])
  {
    var matches := rec => CnameMatches(r, rec, name);
    forall j | 0 <= j < |records| ensures matches(records[j]) <==> i == j { CarriesExactly(r, records[j], name); }
    MatchingAt(records, matches, i);
    var aliases := SplitCname(r, records[i]).0;
    OthersExact(r, aliases, name);
    forall c | Gives(r, records[i], c) ensures c.alias in aliases { GivesExactly(r, records[i], c); }
    var kept := Others(r, aliases, name);
    if kept != [] {
      var target, ttl := RestOf(r, records[i]);
      assert kept[0] in kept;
      GivesExactly(r, records[i], Cname(kept[0], target, ttl));
    }
  }

  /** Otherwise the tool refuses. */
  lemma CnameRefusedExactly(r: Rules, records: seq<string>, name: string)
    ensures CnameEdit(r, records, name).Refused? <==> !exists i: nat :: OnlyIn(r, records, name, i)
  {
    var matches := rec => CnameMatches(r, rec, name);
    forall j | 0 <= j < |records| ensures matches(records[j]) <==> Carries(r, records[j], name) {
      CarriesExactly(r, records[j], name);
    }
    if |Matching(records, matches)| == 1 {
      var i := MatchingSingle(records, matches);
      assert OnlyIn(r, records, name, i);
    }
    if i: nat :| OnlyIn(r, records, name, i) { MatchingAt(records, matches, i); }
  }
}
