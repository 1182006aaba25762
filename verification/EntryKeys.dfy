/** The locks that update handlers and syncs take on entries: one for each entry, and shared by both for a domain rule
    named in either's way. */
module EntryKeys {
  import opened Escape
  import opened Entries
  import Text

  function LowerByte(b: Byte): Byte {
    if 'A' as int <= b <= 'Z' as int then b + 32 else b
  }

  /** The letters A to Z become a to z, and every other byte stays. */
  lemma LowerByteTells(k: nat, b: Byte)
    requires k < 26 && !('A' as int <= b <= 'Z' as int)
    ensures LowerByte('A' as int + k) == 'a' as int + k && LowerByte(b) == b
  {}

  /** asciiLower. */
  function AsciiLower(s: Bytes): (r: Bytes)
    ensures |r| == |s|
  {
    seq(|s|, i requires 0 <= i < |s| => LowerByte(s[i]))
  }

  /** The rule a name addresses: FTL folds the case of an exact domain, on what it stores and what it is asked for. */
  function RuleName(kind: Bytes, domain: Bytes): Bytes {
    if kind == Ascii("exact") then AsciiLower(domain) else domain
  }

  /** domainsUpdateHandler lowers an exact domain before it builds the path it locks. */
  function HandlerKey(typ: Bytes, kind: Bytes, domain: Bytes): Bytes {
    Ascii("entry ") + DomainPath(typ, kind, if kind == Ascii("exact") then AsciiLower(domain) else domain)
  }

  /** readDomains builds it from the domain as the source instance lists it. */
  function SyncKey(typ: Bytes, kind: Bytes, domain: Bytes): Bytes {
    Ascii("entry ") + DomainPath(typ, kind, domain)
  }

  lemma RuleNameIdempotent(kind: Bytes, domain: Bytes)
    ensures RuleName(kind, RuleName(kind, domain)) == RuleName(kind, domain)
  {}

  lemma KeysEqual(typ: Bytes, kind: Bytes, given: Bytes, listed: Bytes)
    requires SLASH !in typ && SLASH !in kind
    ensures HandlerKey(typ, kind, given) == SyncKey(typ, kind, listed) <==> RuleName(kind, given) == listed
  {
    var a, b := DomainPath(typ, kind, RuleName(kind, given)), DomainPath(typ, kind, listed);
    DomainPathInjective(typ, kind, RuleName(kind, given), typ, kind, listed);
    assert HandlerKey(typ, kind, given)[6..] == a && SyncKey(typ, kind, listed)[6..] == b;
  }

  /** A sync shares its lock with every update of the same rule exactly when the source lists the domain folded, as
      FTL does; two different rules never share one. */
  lemma SharedLockIffFolded(typ: Bytes, kind: Bytes, listed: Bytes)
    requires SLASH !in typ && SLASH !in kind
    ensures (forall given :: RuleName(kind, given) == RuleName(kind, listed) ==>
               HandlerKey(typ, kind, given) == SyncKey(typ, kind, listed))
            <==> RuleName(kind, listed) == listed
    ensures forall given :: HandlerKey(typ, kind, given) == SyncKey(typ, kind, listed) ==>
              RuleName(kind, given) == RuleName(kind, listed)
  {
    forall given
      ensures HandlerKey(typ, kind, given) == SyncKey(typ, kind, listed) <==> RuleName(kind, given) == listed
    {
      KeysEqual(typ, kind, given, listed);
    }
    forall given | RuleName(kind, given) == listed ensures RuleName(kind, given) == RuleName(kind, listed) {
      RuleNameIdempotent(kind, given);
    }
    if forall given :: RuleName(kind, given) == RuleName(kind, listed) ==>
         HandlerKey(typ, kind, given) == SyncKey(typ, kind, listed)
    {
      assert HandlerKey(typ, kind, listed) == SyncKey(typ, kind, listed);
    }
  }

  // ---- One lock for each entry ----

  const QUESTION: Byte := '?' as int

  /** The path of a list, group or client: its collection and its escaped name, for a list with its type. */
  function NamedPath(collection: Bytes, name: Bytes): Bytes {
    collection + EscapePathSegment(name)
  }

  function ListPath(address: Bytes, t: ListType): Bytes {
    NamedPath(Ascii("/lists/"), address) + ([QUESTION] + ListQuery(t))
  }

  /** The API path of an entry of the four tables, which both the sync and the update handlers lock. utf8 gives the
      bytes of a string. */
  function EntryPath(utf8: string -> Bytes, id: Id): Bytes
    requires !id.HostId? && !id.CnameId?
  {
    match id
    case GroupId(name) => NamedPath(Ascii("/groups/"), utf8(name))
    case ListId(t, address) => ListPath(utf8(address), t)
    case DomainId(t, k, domain) => DomainPath(DomainTypeBytes(t), KindBytes(k), utf8(domain))
    case ClientId(client) => NamedPath(Ascii("/clients/"), utf8(client))
  }

  function ListQuery(t: ListType): Bytes {
    if t.AllowList? then Ascii("type=allow") else Ascii("type=block")
  }

  function DomainTypeBytes(t: DomainType): Bytes {
    if t.AllowDomain? then Ascii("allow") else Ascii("deny")
  }

  function KindBytes(k: DomainKind): Bytes {
    if k.Exact? then Ascii("exact") else Ascii("regex")
  }

  lemma NamedPathInjective(collection: Bytes, a: Bytes, b: Bytes)
    ensures NamedPath(collection, a) == NamedPath(collection, b) <==> a == b
  {
    var n := |collection|;
    assert NamedPath(collection, a)[n..] == EscapePathSegment(a);
    assert NamedPath(collection, b)[n..] == EscapePathSegment(b);
    EscapeInjective(a, b);
  }

  /** The question mark ends the address of a list: what stands before it is the path, and after it the type. */
  lemma ListPathParts(address: Bytes, query: Bytes)
    requires QUESTION !in query
    ensures Text.Split(NamedPath(Ascii("/lists/"), address) + ([QUESTION] + query), QUESTION) ==
      [NamedPath(Ascii("/lists/"), address), query]
  {
    var path := NamedPath(Ascii("/lists/"), address);
    EscapedIsOneSegment(address);
    assert QUESTION !in EscapePathSegment(address);
    assert QUESTION !in Ascii("/lists/");
    Text.Regroup(path, [QUESTION], query);
    Text.SplitPart(path, query, QUESTION);
    Text.SplitPart(query, [], QUESTION);
  }

  lemma ListPathInjective(a: Bytes, t: ListType, b: Bytes, t': ListType)
    ensures ListPath(a, t) == ListPath(b, t') <==> a == b && t == t'
  {
    ListPathParts(a, ListQuery(t));
    ListPathParts(b, ListQuery(t'));
    NamedPathInjective(Ascii("/lists/"), a, b);
    var p, q := [NamedPath(Ascii("/lists/"), a), ListQuery(t)], [NamedPath(Ascii("/lists/"), b), ListQuery(t')];
    assert p == q ==> p[0] == q[0] && p[1] == q[1];
    assert ListQuery(t)[5] == if t.AllowList? then 'a' as int else 'b' as int;
    assert ListQuery(t')[5] == if t'.AllowList? then 'a' as int else 'b' as int;
  }

  /** The letter after the first slash tells the table. */
  lemma TableLetter(utf8: string -> Bytes, id: Id)
    requires !id.HostId? && !id.CnameId?
    ensures |EntryPath(utf8, id)| > 1
    ensures EntryPath(utf8, id)[1] ==
      (match id case GroupId(_) => 'g' case ListId(_, _) => 'l' case DomainId(_, _, _) => 'd' case _ => 'c') as int
  {}

  lemma DomainEntryInjective(utf8: string -> Bytes, a: Id, b: Id)
    requires a.DomainId? && b.DomainId? && (utf8(a.domain) == utf8(b.domain) ==> a.domain == b.domain)
    ensures EntryPath(utf8, a) == EntryPath(utf8, b) <==> a == b
  {
    DomainWords(a);
    DomainWords(b);
    DomainPathInjective(DomainTypeBytes(a.domainType), KindBytes(a.kind), utf8(a.domain),
                        DomainTypeBytes(b.domainType), KindBytes(b.kind), utf8(b.domain));
  }

  lemma DomainWords(id: Id)
    requires id.DomainId?
    ensures SLASH !in DomainTypeBytes(id.domainType) && SLASH !in KindBytes(id.kind)
    ensures DomainTypeBytes(id.domainType)[0] == if id.domainType.AllowDomain? then 'a' as int else 'd' as int
    ensures KindBytes(id.kind)[0] == if id.kind.Exact? then 'e' as int else 'r' as int
  {}

  lemma SameTable(utf8: string -> Bytes, a: Id, b: Id)
    requires !a.HostId? && !a.CnameId? && !b.HostId? && !b.CnameId? && EntryPath(utf8, a) == EntryPath(utf8, b)
    ensures CategoryOf(a) == CategoryOf(b)
  {
    TableLetter(utf8, a);
    TableLetter(utf8, b);
  }

  lemma EntryPathInjective(utf8: string -> Bytes, a: Id, b: Id)
    requires !a.HostId? && !a.CnameId? && !b.HostId? && !b.CnameId?
    requires forall s, t :: utf8(s) == utf8(t) ==> s == t
    ensures EntryPath(utf8, a) == EntryPath(utf8, b) ==> a == b
  {
    if EntryPath(utf8, a) == EntryPath(utf8, b) {
      SameTable(utf8, a, b);
      match a
      case GroupId(name) => NamedPathInjective(Ascii("/groups/"), utf8(name), utf8(b.name));
      case ListId(t, address) => ListPathInjective(utf8(address), t, utf8(b.address), b.listType);
      case DomainId(_, _, _) => DomainEntryInjective(utf8, a, b);
      case ClientId(client) => NamedPathInjective(Ascii("/clients/"), utf8(client), utf8(b.client));
    }
  }

  /** Two entries of the four tables share a lock only if they are the same: same table, type, kind and name. */
  lemma EntryLockInjective(utf8: string -> Bytes, a: Id, b: Id)
    requires !a.HostId? && !a.CnameId? && !b.HostId? && !b.CnameId?
    requires forall s, t :: utf8(s) == utf8(t) ==> s == t
    ensures Ascii("entry ") + EntryPath(utf8, a) == Ascii("entry ") + EntryPath(utf8, b) <==> a == b
  {
    SamePrefix(Ascii("entry "), EntryPath(utf8, a), EntryPath(utf8, b));
    EntryPathInjective(utf8, a, b);
  }

  lemma SamePrefix(p: Bytes, a: Bytes, b: Bytes)
    ensures p + a == p + b <==> a == b
  {
    assert (p + a)[|p|..] == a && (p + b)[|p|..] == b;
  }
}
