/** What a sync compares and writes: the entries of a Pi-hole, and what each write does to them. */
module Entries {
  import opened CnameRewrite
  import opened Wrappers

  datatype Category = Groups | Lists | Domains | Clients | LocalDns | Cname

  datatype ListType = AllowList | BlockList
  datatype DomainType = AllowDomain | DenyDomain
  datatype DomainKind = Exact | Regex

  /** The identity of an entry: the columns its key is made of. */
  datatype Id =
    | GroupId(name: string)
    | ListId(listType: ListType, address: string)
    | DomainId(domainType: DomainType, kind: DomainKind, domain: string)
    | ClientId(client: string)
    | HostId(record: string)
    | CnameId(record: string)

  function CategoryOf(id: Id): Category {
    match id
    case GroupId(_) => Groups
    case ListId(_, _) => Lists
    case DomainId(_, _, _) => Domains
    case ClientId(_) => Clients
    case HostId(_) => LocalDns
    case CnameId(_) => Cname
  }

  function Name(id: Id): string {
    match id
    case GroupId(name) => name
    case ListId(_, address) => address
    case DomainId(_, _, domain) => domain
    case ClientId(client) => client
    case HostId(record) => record
    case CnameId(record) => record
  }

  /** The settings a sync compares: a client has no enabled flag, a DNS record nothing but its text. */
  datatype Fields = Rule(enabled: bool, comment: string) | Note(comment: string) | Nothing

  predicate Fits(id: Id, f: Fields) {
    match CategoryOf(id)
    case Clients => f.Note?
    case LocalDns => f.Nothing?
    case Cname => f.Nothing?
    case _ => f.Rule?
  }

  /** A Pi-hole's entries: the four tables, and the two arrays of dns. */
  datatype Store = Store(rows: map<Id, Fields>, hosts: seq<string>, cnames: seq<string>)

  ghost predicate WellFormed(s: Store) {
    && (forall id :: id in s.rows ==> !id.HostId? && !id.CnameId? && Fits(id, s.rows[id]) && Name(id) != "")
    && "" !in s.hosts && "" !in s.cnames
  }

  function Get(s: Store, id: Id): Option<Fields> {
    match id
    case HostId(record) => if record in s.hosts then Some(Nothing) else None
    case CnameId(record) => if record in s.cnames then Some(Nothing) else None
    case _ => if id in s.rows then Some(s.rows[id]) else None
  }

  function Ids(s: Store): set<Id> {
    (set id | id in s.rows && !id.HostId? && !id.CnameId?) +
    (set r | r in s.hosts :: HostId(r)) + (set r | r in s.cnames :: CnameId(r))
  }

  function Listed(s: Store, c: Category): set<Id> {
    set id | id in Ids(s) && CategoryOf(id) == c
  }

  lemma ListedIffGet(s: Store, c: Category, id: Id)
    ensures id in Listed(s, c) <==> CategoryOf(id) == c && Get(s, id).Some?
  {}

  datatype Write = Post(id: Id, fields: Fields) | Put(id: Id, fields: Fields) | Delete(id: Id)

  /** Pi-hole's answer to one write, and what it leaves: a domain already stored is not added, any other entry is
      replaced by an add; a PUT creates or replaces; what is not there cannot be deleted, except from an array, which
      takes no POST. */
  function Serve(s: Store, w: Write): (Store, bool) {
    if Name(w.id) == "" then (s, false)
    else match w
      case Post(HostId(_), _) => (s, false)
      case Put(HostId(r), _) => (s.(hosts := Step(s.hosts, Add(r))), true)
      case Delete(HostId(r)) => (s.(hosts := Step(s.hosts, Remove(r))), true)
      case Post(CnameId(_), _) => (s, false)
      case Put(CnameId(r), _) => (s.(cnames := Step(s.cnames, Add(r))), true)
      case Delete(CnameId(r)) => (s.(cnames := Step(s.cnames, Remove(r))), true)
      case Post(id, f) => if id.DomainId? && id in s.rows then (s, false) else (s.(rows := s.rows[id := f]), true)
      case Put(id, f) => (s.(rows := s.rows[id := f]), true)
      case Delete(id) => if id in s.rows then (s.(rows := s.rows - {id}), true) else (s, false)
  }

  /** What Pi-hole refuses: an entry without a name, a rule that is there already, a POST to an array, and deleting a
      row that is not there. */
  lemma ServeRefuses(s: Store, w: Write)
    ensures !Serve(s, w).1 <==>
      || Name(w.id) == ""
      || (w.Post? && (ToArray(w) || (w.id.DomainId? && Get(s, w.id).Some?)))
      || (w.Delete? && !ToArray(w) && Get(s, w.id).None?)
    ensures !Serve(s, w).1 ==> Serve(s, w).0 == s
  {}

  /** What a write is for. */
  function Wanted(w: Write): Option<Fields> {
    if w.Delete? then None else Some(w.fields)
  }

  lemma StepElements(list: seq<string>, change: Change, x: string)
    ensures x in Step(list, change) <==> if x == change.record then change.Add? else x in list
  {
    if change.Remove? {
      WithoutElements(list, change.record);
      assert x in Elements(Step(list, change)) <==> x in Elements(list) - {change.record};
    }
  }

  /** A write to one of the two arrays. */
  predicate ToArray(w: Write) {
    w.id.HostId? || w.id.CnameId?
  }

  lemma ArrayExact(s: Store, w: Write, id: Id)
    requires ToArray(w) && Serve(s, w).1 && (w.Delete? || w.fields.Nothing?)
    ensures Get(Serve(s, w).0, id) == if id == w.id then Wanted(w) else Get(s, id)
  {
    if w.id.HostId? && id.HostId? {
      StepElements(s.hosts, if w.Delete? then Remove(w.id.record) else Add(w.id.record), id.record);
    }
    if w.id.CnameId? && id.CnameId? {
      StepElements(s.cnames, if w.Delete? then Remove(w.id.record) else Add(w.id.record), id.record);
    }
  }

  lemma RowExact(s: Store, w: Write, id: Id)
    requires !ToArray(w) && Serve(s, w).1
    ensures Get(Serve(s, w).0, id) == if id == w.id then Wanted(w) else Get(s, id)
  {}

  /** An accepted write sets its own entry to what it is for, and touches no other. */
  lemma ServeExact(s: Store, w: Write, id: Id)
    requires Serve(s, w).1 && (w.Delete? || Fits(w.id, w.fields))
    ensures Get(Serve(s, w).0, id) == if id == w.id then Wanted(w) else Get(s, id)
  {
    if ToArray(w) { ArrayExact(s, w, id); } else { RowExact(s, w, id); }
  }

  /** The text a comparison is made on; "" disables it. */
  function Compare(f: Fields): string {
    match f
    case Rule(enabled, comment) => "enabled=" + (if enabled then "true" else "false") + ";comment=" + comment
    case Note(comment) => "comment=" + comment
    case Nothing => ""
  }

  lemma CompareInjective(f: Fields, g: Fields)
    ensures Compare(f) == Compare(g) <==> f == g
    ensures Compare(f) == "" <==> f.Nothing?
  {
    if f.Rule? {
      assert Compare(f)[0] == 'e' && Compare(f)[8] == if f.enabled then 't' else 'f';
      assert Compare(f)[if f.enabled then 21 else 22..] == f.comment;
    }
    if g.Rule? {
      assert Compare(g)[0] == 'e' && Compare(g)[8] == if g.enabled then 't' else 'f';
      assert Compare(g)[if g.enabled then 21 else 22..] == g.comment;
    }
    if f.Note? { assert Compare(f)[0] == 'c' && Compare(f)[8..] == f.comment; }
    if g.Note? { assert Compare(g)[0] == 'c' && Compare(g)[8..] == g.comment; }
  }

  /** As a plan shows it. */
  lemma CompareTells(comment: string)
    ensures Compare(Rule(true, comment)) == "enabled=true;comment=" + comment
    ensures Compare(Rule(false, comment)) == "enabled=false;comment=" + comment
    ensures Compare(Note(comment)) == "comment=" + comment
  {}

  function ListTypeName(t: ListType): string {
    if t.AllowList? then "allow" else "block"
  }

  function DomainTypeName(t: DomainType): string {
    if t.AllowDomain? then "allow" else "deny"
  }

  function KindName(k: DomainKind): string {
    if k.Exact? then "exact" else "regex"
  }

  /** The key an entry is matched and sorted by. */
  function Key(id: Id): string {
    match id
    case GroupId(name) => "group|" + name
    case ListId(t, address) => "list|" + ListTypeName(t) + "|" + address
    case DomainId(t, k, domain) => "domain|" + DomainTypeName(t) + "|" + KindName(k) + "|" + domain
    case ClientId(client) => "client|" + client
    case HostId(record) => "host|" + record
    case CnameId(record) => "cname|" + record
  }

  /** How a plan names an entry. */
  function Label(id: Id): string {
    match id
    case ListId(t, address) => address + (" (" + ListTypeName(t) + ")")
    case DomainId(t, k, domain) => domain + (" (" + DomainTypeName(t) + "/" + KindName(k) + ")")
    case _ => Name(id)
  }

  /** A plan names an entry by its name, with the type, and for a rule the kind, in brackets after it. */
  lemma LabelTells(name: string)
    ensures Label(GroupId(name)) == Label(ClientId(name)) == Label(HostId(name)) == Label(CnameId(name)) == name
    ensures Label(ListId(AllowList, name)) == name + " (allow)"
    ensures Label(ListId(BlockList, name)) == name + " (block)"
    ensures Label(DomainId(AllowDomain, Exact, name)) == name + " (allow/exact)"
    ensures Label(DomainId(AllowDomain, Regex, name)) == name + " (allow/regex)"
    ensures Label(DomainId(DenyDomain, Exact, name)) == name + " (deny/exact)"
    ensures Label(DomainId(DenyDomain, Regex, name)) == name + " (deny/regex)"
  {
    assert " (" + ListTypeName(AllowList) + ")" == " (allow)" && " (" + ListTypeName(BlockList) + ")" == " (block)";
    assert " (" + DomainTypeName(AllowDomain) + "/" == " (allow/";
    assert " (" + DomainTypeName(DenyDomain) + "/" == " (deny/";
    assert " (allow/" + KindName(Exact) + ")" == " (allow/exact)";
    assert " (allow/" + KindName(Regex) + ")" == " (allow/regex)";
    assert " (deny/" + KindName(Exact) + ")" == " (deny/exact)";
    assert " (deny/" + KindName(Regex) + ")" == " (deny/regex)";
  }

  lemma KeyInjective(a: Id, b: Id)
    ensures Key(a) == Key(b) <==> a == b
  {
    if Key(a) == Key(b) {
      KeyParts(a);
      KeyParts(b);
    }
  }

  /** The prefix tells the kind of entry and its columns, the rest is the name. */
  lemma KeyParts(id: Id)
    ensures id.GroupId? ==> Key(id)[0] == 'g' && Key(id)[6..] == id.name
    ensures id.ListId? ==> Key(id)[0] == 'l' && Key(id)[11..] == id.address
    ensures id.ListId? ==> Key(id)[5] == (if id.listType.AllowList? then 'a' else 'b')
    ensures id.DomainId? ==> Key(id)[0] == 'd' && Key(id)[7] == (if id.domainType.AllowDomain? then 'a' else 'd')
    ensures id.DomainId? ==> var n := if id.domainType.AllowDomain? then 13 else 12;
      Key(id)[n] == (if id.kind.Exact? then 'e' else 'r') && Key(id)[n + 6..] == id.domain
    ensures id.ClientId? ==> Key(id)[..2] == "cl" && Key(id)[7..] == id.client
    ensures id.HostId? ==> Key(id)[0] == 'h' && Key(id)[5..] == id.record
    ensures id.CnameId? ==> Key(id)[..2] == "cn" && Key(id)[6..] == id.record
  {}

  /** Within a category a label names one entry. */
  lemma LabelInjective(a: Id, b: Id)
    requires CategoryOf(a) == CategoryOf(b)
    ensures Label(a) == Label(b) <==> a == b
  {
    if Label(a) == Label(b) {
      LabelEnds(a);
      LabelEnds(b);
      match a
      case ListId(t, address) =>
        SuffixDecides(address, " (" + ListTypeName(t) + ")", b.address, " (" + ListTypeName(b.listType) + ")");
      case DomainId(t, k, domain) =>
        SuffixDecides(domain, " (" + DomainTypeName(t) + "/" + KindName(k) + ")",
                      b.domain, " (" + DomainTypeName(b.domainType) + "/" + KindName(b.kind) + ")");
      case _ =>
    }
  }

  lemma SuffixDecides(a: string, s: string, b: string, t: string)
    requires a + s == b + t && |s| == |t|
    ensures a == b && s == t
  {
    assert |a| == |b|;
    assert (a + s)[..|a|] == a && (b + t)[..|b|] == b && (a + s)[|a|..] == s && (b + t)[|b|..] == t;
  }

  /** What stands at fixed places from the end of a label tells the type, and the kind. */
  lemma LabelEnds(id: Id)
    ensures id.ListId? ==>
      |Label(id)| >= 8 && Label(id)[|Label(id)| - 2] == (if id.listType.AllowList? then 'w' else 'k')
    ensures id.DomainId? ==> |Label(id)| >= 13 && Label(id)[|Label(id)| - 2] == (if id.kind.Exact? then 't' else 'x')
    ensures id.DomainId? ==> Label(id)[|Label(id)| - 8] == (if id.domainType.AllowDomain? then 'w' else 'y')
  {}
}
