/** The confirmation token of a sync, and the sync tool's decision to write. */
module SyncToken {
  import opened Entries
  import opened Wrappers
  import opened SyncPlan
  import opened SyncSteps
  import opened SyncSpec
  import opened SyncApply
  import opened SyncTheorems
  import Ordering
  import Quote
  import Text

  /** A step as the plan shows it. */
  datatype PlanStep = PlanStep(category: Category, action: Action, item: string, from: string, to: string)

  function Shown(o: Op): PlanStep {
    PlanStep(CategoryOf(o.id), o.action, Label(o.id), o.from, o.to)
  }

  function ShownAll(ops: seq<Op>): seq<PlanStep> {
    seq(|ops|, i requires 0 <= i < |ops| => Shown(ops[i]))
  }

  function CategoryName(c: Category): string {
    match c
    case Groups => "groups" case Lists => "lists" case Domains => "domains"
    case Clients => "clients" case LocalDns => "local_dns" case Cname => "cname"
  }

  function ActionName(a: Action): string {
    match a case AddEntry => "add" case UpdateEntry => "update" case DeleteEntry => "delete"
  }

  function ToEnd(p: PlanStep, rest: string, printable: char -> bool): string {
    Quote.Quoted(p.to, printable) + ("\n" + rest)
  }

  function FromEnd(p: PlanStep, rest: string, printable: char -> bool): string {
    Quote.Quoted(p.from, printable) + ("|" + ToEnd(p, rest, printable))
  }

  function ItemEnd(p: PlanStep, rest: string, printable: char -> bool): string {
    Quote.Quoted(p.item, printable) + ("|" + FromEnd(p, rest, printable))
  }

  function ActionEnd(p: PlanStep, rest: string, printable: char -> bool): string {
    ActionName(p.action) + ("|" + ItemEnd(p, rest, printable))
  }

  /** The line of a step and what follows it: category, action, quoted item, quoted values before and after. */
  function LineThen(p: PlanStep, rest: string, printable: char -> bool): string {
    CategoryName(p.category) + ("|" + ActionEnd(p, rest, printable))
  }

  function Line(p: PlanStep, printable: char -> bool): string {
    LineThen(p, "", printable)
  }

  function Lines(steps: seq<PlanStep>, printable: char -> bool): string {
    if steps == [] then "" else Line(steps[0], printable) + Lines(steps[1..], printable)
  }

  function PruneName(prune: bool): string {
    if prune then "true" else "false"
  }

  /** What Token hashes; names is the two instances' names with the arrow between them. */
  function TokenText(names: string, prune: bool, ops: seq<Op>, printable: char -> bool): string {
    names + (";prune=" + (PruneName(prune) + ("\n" + Lines(ShownAll(ops), printable))))
  }

  method BuildTokenText(names: string, prune: bool, ops: seq<Op>, printable: char -> bool) returns (text: string)
    ensures text == TokenText(names, prune, ops, printable)
  {
    text := names + ";prune=" + PruneName(prune) + "\n";
    ghost var header := text;
    HeaderParts(names, prune, Lines(ShownAll(ops), printable));
    var steps := ShownAll(ops);
    for i := 0 to |steps|
      invariant text + Lines(steps[i..], printable) == header + Lines(steps, printable)
    {
      assert steps[i..][1..] == steps[i + 1..];
      var line := Line(steps[i], printable);
      Text.Regroup(text, line, Lines(steps[i + 1..], printable));
      text := text + line;
    }
    assert text + "" == text;
  }

  // ---- The text decides the steps ----

  lemma SameHead(h: string, a: string, b: string)
    requires h + a == h + b
    ensures a == b
  {
    assert (h + a)[|h|..] == a && (h + b)[|h|..] == b;
  }

  lemma HeaderParts(names: string, prune: bool, rest: string)
    ensures names + ";prune=" + PruneName(prune) + "\n" + rest ==
      names + (";prune=" + (PruneName(prune) + ("\n" + rest)))
  {}

  /** Between the same two instances, the text decides whether it was a pruning sync. */
  lemma HeaderDecides(names: string, prune: bool, s: string, prune': bool, t: string)
    requires names + (";prune=" + (PruneName(prune) + ("\n" + s))) ==
      names + (";prune=" + (PruneName(prune') + ("\n" + t)))
    ensures prune == prune' && s == t
  {
    var a, b := PruneName(prune) + ("\n" + s), PruneName(prune') + ("\n" + t);
    SameHead(names, ";prune=" + a, ";prune=" + b);
    SameHead(";prune=", a, b);
    assert a[0] == PruneName(prune)[0] && b[0] == PruneName(prune')[0];
    SameHead(PruneName(prune), "\n" + s, "\n" + t);
    SameHead("\n", s, t);
  }

  lemma CategoryDecides(c: Category, s: string, d: Category, t: string)
    requires CategoryName(c) + ("|" + s) == CategoryName(d) + ("|" + t)
    ensures c == d && s == t
  {
    var x, y := CategoryName(c) + ("|" + s), CategoryName(d) + ("|" + t);
    assert x[0] == CategoryName(c)[0] && x[1] == CategoryName(c)[1];
    assert y[0] == CategoryName(d)[0] && y[1] == CategoryName(d)[1];
    SameHead(CategoryName(c), "|" + s, "|" + t);
    SameHead("|", s, t);
  }

  lemma ActionDecides(a: Action, s: string, b: Action, t: string)
    requires ActionName(a) + ("|" + s) == ActionName(b) + ("|" + t)
    ensures a == b && s == t
  {
    assert (ActionName(a) + ("|" + s))[0] == ActionName(a)[0];
    assert (ActionName(b) + ("|" + t))[0] == ActionName(b)[0];
    SameHead(ActionName(a), "|" + s, "|" + t);
    SameHead("|", s, t);
  }

  lemma ColumnDecides(x: string, s: string, y: string, t: string, printable: char -> bool)
    requires Quote.Quoted(x, printable) + ("|" + s) == Quote.Quoted(y, printable) + ("|" + t)
    ensures x == y && s == t
  {
    Quote.QuotedDecides(x, "|" + s, y, "|" + t, printable);
    SameHead("|", s, t);
  }

  lemma Reassociate(a: string, sep: string, b: string, rest: string)
    ensures (a + (sep + b)) + rest == a + (sep + (b + rest))
  {}

  lemma LineParts(p: PlanStep, rest: string, printable: char -> bool)
    ensures Line(p, printable) + rest == LineThen(p, rest, printable)
  {
    Reassociate(Quote.Quoted(p.to, printable), "\n", "", rest);
    assert "" + rest == rest;
    Reassociate(Quote.Quoted(p.from, printable), "|", ToEnd(p, "", printable), rest);
    Reassociate(Quote.Quoted(p.item, printable), "|", FromEnd(p, "", printable), rest);
    Reassociate(ActionName(p.action), "|", ItemEnd(p, "", printable), rest);
    Reassociate(CategoryName(p.category), "|", ActionEnd(p, "", printable), rest);
  }

  lemma LinesEmpty(steps: seq<PlanStep>, printable: char -> bool)
    ensures Lines(steps, printable) == "" <==> steps == []
  {}

  lemma LineDecides(p: PlanStep, s: string, q: PlanStep, t: string, printable: char -> bool)
    requires Line(p, printable) + s == Line(q, printable) + t
    ensures p == q && s == t
  {
    LineParts(p, s, printable);
    LineParts(q, t, printable);
    CategoryDecides(p.category, ActionEnd(p, s, printable), q.category, ActionEnd(q, t, printable));
    ActionDecides(p.action, ItemEnd(p, s, printable), q.action, ItemEnd(q, t, printable));
    ColumnDecides(p.item, FromEnd(p, s, printable), q.item, FromEnd(q, t, printable), printable);
    ColumnDecides(p.from, ToEnd(p, s, printable), q.from, ToEnd(q, t, printable), printable);
    Quote.QuotedDecides(p.to, "\n" + s, q.to, "\n" + t, printable);
    SameHead("\n", s, t);
  }

  lemma {:induction false} LinesDecide(a: seq<PlanStep>, b: seq<PlanStep>, printable: char -> bool)
    requires Lines(a, printable) == Lines(b, printable)
    ensures a == b
  {
    LinesEmpty(a, printable);
    LinesEmpty(b, printable);
    if a != [] {
      LineDecides(a[0], Lines(a[1..], printable), b[0], Lines(b[1..], printable), printable);
      LinesDecide(a[1..], b[1..], printable);
      assert a == [a[0]] + a[1..] && b == [b[0]] + b[1..];
    }
  }

  function Writes(ops: seq<Op>): seq<Write> {
    seq(|ops|, i requires 0 <= i < |ops| => WriteOf(ops[i]))
  }

  /** What a plan shows of a step is the whole write: entry, verb and settings. */
  lemma ShownDecides(o: Op, p: Op)
    requires Shown(o) == Shown(p)
    requires o.action.DeleteEntry? || o.to == Compare(o.fields)
    requires p.action.DeleteEntry? || p.to == Compare(p.fields)
    ensures WriteOf(o) == WriteOf(p)
  {
    LabelInjective(o.id, p.id);
    CompareInjective(o.fields, p.fields);
  }

  lemma ShownPlansDecide(source: Store, target: Store, source': Store, target': Store, cats: set<Category>,
                         cats': set<Category>, prune: bool)
    requires WellFormed(source) && WellFormed(source')
    requires ShownAll(Steps(source, target, cats, prune)) == ShownAll(Steps(source', target', cats', prune))
    ensures Writes(Steps(source, target, cats, prune)) == Writes(Steps(source', target', cats', prune))
  {
    var a, b := Steps(source, target, cats, prune), Steps(source', target', cats', prune);
    assert |a| == |ShownAll(a)| && |b| == |ShownAll(b)|;
    forall i | 0 <= i < |a| ensures WriteOf(a[i]) == WriteOf(b[i]) {
      assert Shown(a[i]) == ShownAll(a)[i] && Shown(b[i]) == ShownAll(b)[i];
      StepsExact(source, target, cats, prune, a[i]);
      StepsExact(source', target', cats', prune, b[i]);
      ShownDecides(a[i], b[i]);
    }
  }

  /** A token computed later, from other contents, is that of a plan shown earlier only if both prune or neither does,
      the plan shows the very same steps, and it makes the very same writes: source' and target' are what the two
      Pi-holes held when it was shown. */
  lemma TokenFaithful(names: string, source: Store, target: Store, cats: set<Category>, prune: bool,
                      source': Store, target': Store, cats': set<Category>, prune': bool, printable: char -> bool)
    requires WellFormed(source) && WellFormed(source')
    ensures var now, shown := Steps(source, target, cats, prune), Steps(source', target', cats', prune');
      && (TokenText(names, prune, now, printable) == TokenText(names, prune', shown, printable) <==>
          prune == prune' && ShownAll(now) == ShownAll(shown))
      && (TokenText(names, prune, now, printable) == TokenText(names, prune', shown, printable) ==>
          Writes(now) == Writes(shown))
  {
    var now, shown := Steps(source, target, cats, prune), Steps(source', target', cats', prune');
    if TokenText(names, prune, now, printable) == TokenText(names, prune', shown, printable) {
      HeaderDecides(names, prune, Lines(ShownAll(now), printable), prune', Lines(ShownAll(shown), printable));
      LinesDecide(ShownAll(now), ShownAll(shown), printable);
      ShownPlansDecide(source, target, source', target', cats, cats', prune);
    }
  }

  // ---- The text decides the two instances ----

  /** The first newline ends the first line. */
  lemma FirstLine(a: string, x: string, b: string, y: string)
    requires a + ("\n" + x) == b + ("\n" + y) && '\n' !in a && '\n' !in b
    ensures a == b && x == y
  {
    var s, t := a + ("\n" + x), b + ("\n" + y);
    assert s[|a|] == '\n' && t[|b|] == '\n';
    assert (forall i :: 0 <= i < |a| ==> s[i] == a[i]) && forall i :: 0 <= i < |b| ==> t[i] == b[i];
    assert s[..|a|] == a && t[..|b|] == b;
    SameHead(a, "\n" + x, "\n" + y);
    SameHead("\n", x, y);
  }

  lemma HeaderLine(names: string, prune: bool, names': string, prune': bool)
    requires names + (";prune=" + PruneName(prune)) == names' + (";prune=" + PruneName(prune'))
    ensures names == names' && prune == prune'
  {
    var h, h' := ";prune=" + PruneName(prune), ";prune=" + PruneName(prune');
    var s, t := names + h, names' + h';
    assert h[|h| - 2] == (if prune then 'u' else 's') && h'[|h'| - 2] == (if prune' then 'u' else 's');
    assert s[|s| - 2] == h[|h| - 2] && t[|t| - 2] == h'[|h'| - 2];
    SuffixDecides(names, h, names', h');
  }

  lemma FirstLineOf(names: string, prune: bool, rest: string)
    requires '\n' !in names
    ensures names + (";prune=" + (PruneName(prune) + ("\n" + rest))) ==
      (names + (";prune=" + PruneName(prune))) + ("\n" + rest)
    ensures '\n' !in names + (";prune=" + PruneName(prune))
  {}

  /** A token text is that of one pair of instances, one choice of pruning and one plan; an instance name has no
      control character. */
  lemma TokenDecides(names: string, prune: bool, ops: seq<Op>, names': string, prune': bool, ops': seq<Op>,
                     printable: char -> bool)
    requires '\n' !in names && '\n' !in names'
    ensures TokenText(names, prune, ops, printable) == TokenText(names', prune', ops', printable) <==>
      names == names' && prune == prune' && ShownAll(ops) == ShownAll(ops')
  {
    var a, b := Lines(ShownAll(ops), printable), Lines(ShownAll(ops'), printable);
    if TokenText(names, prune, ops, printable) == TokenText(names', prune', ops', printable) {
      FirstLineOf(names, prune, a);
      FirstLineOf(names', prune', b);
      FirstLine(names + (";prune=" + PruneName(prune)), a, names' + (";prune=" + PruneName(prune')), b);
      HeaderLine(names, prune, names', prune');
      LinesDecide(ShownAll(ops), ShownAll(ops'), printable);
    }
  }

  function Arrow(source: string, target: string): string {
    source + ("->" + target)
  }

  predicate HasArrow(name: string) {
    exists i :: 0 <= i < |name| - 1 && name[i] == '-' && name[i + 1] == '>'
  }

  /** The names with the arrow between them tell the two instances apart when no source's name has an arrow in it. */
  lemma ArrowDecides(source: string, target: string, source': string, target': string)
    requires Arrow(source, target) == Arrow(source', target') && !HasArrow(source) && !HasArrow(source')
    ensures source == source' && target == target'
  {
    ArrowFirst(source, target, source', target');
    ArrowFirst(source', target', source, target);
    var s, t := Arrow(source, target), Arrow(source', target');
    assert s[..|source|] == source && t[..|source'|] == source';
    SameHead(source, "->" + target, "->" + target');
    SameHead("->", target, target');
  }

  lemma ArrowFirst(source: string, target: string, source': string, target': string)
    requires Arrow(source, target) == Arrow(source', target') && !HasArrow(source')
    ensures |source'| <= |source|
  {
    var n, s, t := |source|, Arrow(source, target), Arrow(source', target');
    assert s[n] == '-' && s[n + 1] == '>' && t[|source'|] == '-';
    assert forall k :: 0 <= k < |source'| ==> t[k] == source'[k];
  }

  /** With an arrow in a name two pairs of instances can have the same text, and so the same token. */
  lemma ArrowAmbiguous()
    ensures Arrow("a->b", "c") == Arrow("a", "b->c")
  {}

  // ---- The sync tool ----

  predicate Wiped(cd: CategoryDiff) {
    |cd.source| == 0 && |cd.removed| > 0
  }

  function WipesOf(d: seq<CategoryDiff>): seq<(Category, nat)> {
    if d == [] then [] else (if Wiped(d[0]) then [(d[0].category, |d[0].removed|)] else []) + WipesOf(d[1..])
  }

  lemma {:induction false} WipesOfEmpty(d: seq<CategoryDiff>)
    ensures WipesOf(d) == [] <==> forall cd :: cd in d ==> !Wiped(cd)
  {
    if d != [] {
      WipesOfEmpty(d[1..]);
      assert d == [d[0]] + d[1..];
    }
  }

  predicate TellsWipe(w: (Category, nat), cd: CategoryDiff) {
    Wiped(cd) && w == (cd.category, |cd.removed|)
  }

  lemma {:induction false} WipesOfMembers(d: seq<CategoryDiff>, w: (Category, nat))
    ensures w in WipesOf(d) <==> exists cd :: cd in d && TellsWipe(w, cd)
  {
    if d != [] {
      WipesOfMembers(d[1..], w);
      assert d == [d[0]] + d[1..];
      assert w in WipesOf(d) <==> TellsWipe(w, d[0]) || w in WipesOf(d[1..]);
    }
  }

  /** The wiped categories are listed in the order of the diff. */
  lemma {:induction false} WipesOfConcat(a: seq<CategoryDiff>, b: seq<CategoryDiff>)
    ensures WipesOf(a + b) == WipesOf(a) + WipesOf(b)
  {
    if a == [] {
      assert a + b == b;
    } else {
      WipesOfConcat(a[1..], b);
      assert (a + b)[1..] == a[1..] + b && (a + b)[0] == a[0];
      var head := if Wiped(a[0]) then [(a[0].category, |a[0].removed|)] else [];
      assert WipesOf(a) == head + WipesOf(a[1..]);
      Text.Regroup(head, WipesOf(a[1..]), WipesOf(b));
    }
  }

  lemma WipeSize(source: Store, target: Store, c: Category)
    requires Listed(source, c) == {}
    ensures |DiffOf(c, Read(source, c), Read(target, c)).removed| == |Listed(target, c)|
  {
    var removed := AddedIds(Read(target, c), Read(source, c));
    assert removed == Listed(target, c);
    BeforeOrders();
    Ordering.OrderedSize(Ordered(removed), Before);
    assert (set id | id in Ordered(removed)) == removed;
  }

  lemma WipeTold(source: Store, target: Store, c: Category, n: nat)
    ensures TellsWipe((c, n), DiffOf(c, Read(source, c), Read(target, c))) <==>
      Listed(source, c) == {} && Listed(target, c) != {} && n == |Listed(target, c)|
  {
    RemovedWhenEmpty(source, target, c);
    if Listed(source, c) == {} { WipeSize(source, target, c); }
  }

  /** A category is listed as wiped when the source has nothing in it and the target has, with the number of entries
      it would lose. */
  lemma WipesTell(source: Store, target: Store, cats: seq<Category>, d: seq<CategoryDiff>, c: Category, n: nat)
    requires Compared(source, target, cats, d)
    ensures (c, n) in WipesOf(d) <==>
      c in cats && Listed(source, c) == {} && Listed(target, c) != {} && n == |Listed(target, c)|
  {
    WipesOfMembers(d, (c, n));
    WipeTold(source, target, c, n);
    DiffMembers(source, target, cats, d, c);
  }

  lemma DiffMembers(source: Store, target: Store, cats: seq<Category>, d: seq<CategoryDiff>, c: Category)
    requires Compared(source, target, cats, d)
    ensures c in cats <==> DiffOf(c, Read(source, c), Read(target, c)) in d
    ensures forall cd :: cd in d && cd.category == c ==> cd == DiffOf(c, Read(source, c), Read(target, c))
  {
    if c in cats {
      var i :| 0 <= i < |cats| && cats[i] == c;
      assert d[i] in d;
    }
  }

  /** PruneWipes. */
  method PruneWipes(d: seq<CategoryDiff>) returns (wipes: seq<(Category, nat)>)
    ensures wipes == WipesOf(d)
  {
    wipes := [];
    for i := 0 to |d|
      invariant wipes + WipesOf(d[i..]) == WipesOf(d)
    {
      assert d[i..][1..] == d[i + 1..];
      ghost var rest := WipesOf(d[i + 1..]);
      if |d[i].source| == 0 && |d[i].removed| > 0 {
        var wipe := (d[i].category, |d[i].removed|);
        Text.Regroup(wipes, [wipe], rest);
        wipes := wipes + [wipe];
      } else {
        assert [] + rest == rest;
      }
    }
    assert d[|d|..] == [];
  }

  /** Totals and InSync. */
  method CountDiff(d: seq<CategoryDiff>, prune: bool) returns (inSync: bool)
    ensures inSync <==> forall cd :: cd in d ==> Idle(cd, prune)
  {
    var added, changed, removed := 0, 0, 0;
    for i := 0 to |d|
      invariant added >= 0 && changed >= 0 && removed >= 0
      invariant added == 0 <==> forall k :: 0 <= k < i ==> d[k].added == []
      invariant changed == 0 <==> forall k :: 0 <= k < i ==> d[k].changed == []
      invariant removed == 0 <==> forall k :: 0 <= k < i ==> d[k].removed == []
    {
      added, changed, removed := added + |d[i].added|, changed + |d[i].changed|, removed + |d[i].removed|;
    }
    inSync := if prune then added + changed + removed == 0 else added + changed == 0;
    assert forall k :: 0 <= k < |d| ==> d[k] in d;
  }

  datatype Reply =
    | RefusedWipes(wipes: seq<(Category, nat)>)
    | PlanShown(token: string, steps: seq<PlanStep>, inSync: bool)
    | TokenMissing
    | TokenStale
    | NothingToApply
    | BackupFailed
    | Applied(applied: nat, failed: nat, ops: seq<OpResult>, inSync: bool, snapshotPath: string,
              restarted: bool, restartFailed: bool, isError: bool)

  /** Whether the tool goes on to write. backup is the path of the backup, if one could be made. */
  ghost predicate Writing(d: seq<CategoryDiff>, prune: bool, mode: string, provided: string, token: string,
                          snapshot: bool, backup: Option<string>)
  {
    && !(prune && exists cd :: cd in d && Wiped(cd))
    && mode == "apply" && provided != "" && provided == token
    && (exists cd :: cd in d && !Idle(cd, prune))
    && (snapshot ==> backup.Some?)
  }

  /** The reply when nothing is written: the first of these reasons that holds. */
  ghost function Unwritten(d: seq<CategoryDiff>, prune: bool, mode: string, provided: string, token: string,
                           steps: seq<PlanStep>): Reply
  {
    if prune && exists cd :: cd in d && Wiped(cd) then RefusedWipes(WipesOf(d))
    else if mode != "apply" then PlanShown(token, steps, forall cd :: cd in d ==> Idle(cd, prune))
    else if provided == "" then TokenMissing
    else if provided != token then TokenStale
    else if forall cd :: cd in d ==> Idle(cd, prune) then NothingToApply
    else BackupFailed
  }

  /** What the diff says of wiping and of being in sync is what holds of the two Pi-holes. */
  lemma DiffTells(source: Store, target: Store, cats: seq<Category>, d: seq<CategoryDiff>, prune: bool)
    requires Compared(source, target, cats, d)
    ensures (exists cd :: cd in d && Wiped(cd)) <==>
      exists c :: c in cats && Listed(source, c) == {} && Listed(target, c) != {}
    ensures (forall cd :: cd in d ==> Idle(cd, prune)) <==> Steps(source, target, CategorySet(cats), prune) == []
  {
    forall i | 0 <= i < |d|
      ensures d[i] in d && cats[i] in cats
      ensures Wiped(d[i]) <==> Listed(source, cats[i]) == {} && Listed(target, cats[i]) != {}
      ensures Idle(d[i], prune) <==> Idle(Diffs(source, target, CategorySet(cats))[cats[i]], prune)
    {
      RemovedWhenEmpty(source, target, cats[i]);
    }
    InSyncExact(source, target, CategorySet(cats), prune);
  }

  /** The checks of instanceSyncHandler, in their order: the reply that ends the call without a write, if one does. */
  method Check(d: seq<CategoryDiff>, prune: bool, mode: string, provided: string, snapshot: bool,
               backup: Option<string>, token: string, steps: seq<PlanStep>)
    returns (reply: Option<Reply>)
    ensures reply == if Writing(d, prune, mode, provided, token, snapshot, backup) then None
                     else Some(Unwritten(d, prune, mode, provided, token, steps))
  {
    var inSync := CountDiff(d, prune);
    var wipes := PruneWipes(d);
    WipesOfEmpty(d);
    if prune && wipes != [] { return Some(RefusedWipes(wipes)); }
    if mode != "apply" { return Some(PlanShown(token, steps, inSync)); }
    if provided == "" { return Some(TokenMissing); }
    if provided != token { return Some(TokenStale); }
    if inSync { return Some(NothingToApply); }
    if snapshot && backup.None? { return Some(BackupFailed); }
    return None;
  }

  /** What the two numbers tell of the results. */
  lemma CountsTell(ops: seq<OpResult>)
    ensures var good, bad := set i | 0 <= i < |ops| && ops[i].ok, set i | 0 <= i < |ops| && !ops[i].ok;
      && |good| + |bad| == |ops|
      && (|bad| == 0 <==> forall i :: 0 <= i < |ops| ==> ops[i].ok)
      && (|good| == 0 <==> forall i :: 0 <= i < |ops| ==> !ops[i].ok)
  {
    var good, bad := set i | 0 <= i < |ops| && ops[i].ok, set i | 0 <= i < |ops| && !ops[i].ok;
    var ok := seq(|ops|, i requires 0 <= i < |ops| => ops[i].ok);
    CountIsNumber(ops, ok);
    CountBoth(ok);
    forall i | 0 <= i < |ops| ensures ops[i].ok <==> i in good {}
    forall i | 0 <= i < |ops| ensures !ops[i].ok <==> i in bad {}
  }

  /** What the sync tool decides: the first of the reasons not to write that holds. wiped is whether pruning would
      empty a category that the source has nothing in, same whether there is nothing to do. */
  ghost predicate Decides(reply: Reply, wiped: bool, same: bool, mode: string, provided: string, token: string,
                          snapshot: bool, backup: Option<string>)
  {
    var accepted := !wiped && mode == "apply" && provided != "" && provided == token;
    && (reply.RefusedWipes? <==> wiped)
    && (reply.PlanShown? <==> !wiped && mode != "apply")
    && (reply.TokenMissing? <==> !wiped && mode == "apply" && provided == "")
    && (reply.TokenStale? <==> !wiped && mode == "apply" && provided != "" && provided != token)
    && (reply.NothingToApply? <==> accepted && same)
    && (reply.BackupFailed? <==> accepted && !same && snapshot && backup.None?)
    && (reply.Applied? <==> accepted && !same && (snapshot ==> backup.Some?))
  }

  lemma ReplyDecides(reply: Reply, d: seq<CategoryDiff>, prune: bool, mode: string, provided: string, token: string,
                     snapshot: bool, backup: Option<string>, steps: seq<PlanStep>, wiped: bool, same: bool)
    requires wiped <==> prune && exists cd :: cd in d && Wiped(cd)
    requires same <==> forall cd :: cd in d ==> Idle(cd, prune)
    requires if Writing(d, prune, mode, provided, token, snapshot, backup) then reply.Applied?
             else reply == Unwritten(d, prune, mode, provided, token, steps)
    ensures Decides(reply, wiped, same, mode, provided, token, snapshot, backup)
  {}

  /** Each wiped category with the number of entries it would lose, and no other. */
  ghost predicate ListsWipes(wipes: seq<(Category, nat)>, source: Store, target: Store, cats: seq<Category>) {
    forall c, n :: (c, n) in wipes <==>
      c in cats && Listed(source, c) == {} && Listed(target, c) != {} && n == |Listed(target, c)|
  }

  lemma WipesListed(source: Store, target: Store, cats: seq<Category>, d: seq<CategoryDiff>)
    requires Compared(source, target, cats, d)
    ensures ListsWipes(WipesOf(d), source, target, cats)
  {
    forall c, n
      ensures (c, n) in WipesOf(d) <==>
        c in cats && Listed(source, c) == {} && Listed(target, c) != {} && n == |Listed(target, c)|
    {
      WipesTell(source, target, cats, d, c, n);
    }
  }

  /** Each step, and what it changes, in order. */
  ghost predicate ShowsSteps(shown: seq<PlanStep>, steps: seq<Op>) {
    |shown| == |steps| && forall i :: 0 <= i < |shown| ==>
      && shown[i].category == CategoryOf(steps[i].id)
      && shown[i].action == steps[i].action
      && shown[i].item == Label(steps[i].id)
      && shown[i].from == steps[i].from
      && shown[i].to == steps[i].to
  }

  lemma StepsShown(steps: seq<Op>)
    ensures ShowsSteps(ShownAll(steps), steps)
  {}

  /** What a refusal to prune or a plan says. */
  ghost predicate Explains(reply: Reply, source: Store, target: Store, cats: seq<Category>, steps: seq<Op>,
                           token: string)
  {
    && (reply.RefusedWipes? ==> ListsWipes(reply.wipes, source, target, cats))
    && (reply.PlanShown? ==>
          reply.token == token && (reply.inSync <==> steps == []) && ShowsSteps(reply.steps, steps))
  }

  ghost predicate SomeWiped(source: Store, target: Store, cats: seq<Category>) {
    exists c :: c in cats && Listed(source, c) == {} && Listed(target, c) != {}
  }

  lemma UnwrittenSays(d: seq<CategoryDiff>, prune: bool, mode: string, provided: string, token: string,
                      steps: seq<PlanStep>, same: bool)
    requires same <==> forall cd :: cd in d ==> Idle(cd, prune)
    ensures var reply := Unwritten(d, prune, mode, provided, token, steps);
      && (reply.RefusedWipes? ==> reply.wipes == WipesOf(d))
      && (reply.PlanShown? ==> reply.token == token && reply.steps == steps && reply.inSync == same)
      && !reply.Applied?
  {}

  lemma ReplyExplains(reply: Reply, source: Store, target: Store, cats: seq<Category>, d: seq<CategoryDiff>,
                      prune: bool, mode: string, provided: string, token: string, steps: seq<Op>)
    requires Compared(source, target, cats, d)
    requires (forall cd :: cd in d ==> Idle(cd, prune)) <==> steps == []
    requires reply.Applied? || reply == Unwritten(d, prune, mode, provided, token, ShownAll(steps))
    ensures Explains(reply, source, target, cats, steps, token)
  {
    UnwrittenSays(d, prune, mode, provided, token, ShownAll(steps), steps == []);
    WipesListed(source, target, cats, d);
    StepsShown(steps);
  }

  lemma ReplyRight(reply: Reply, source: Store, target: Store, cats: seq<Category>, d: seq<CategoryDiff>,
                   prune: bool, mode: string, provided: string, token: string, snapshot: bool,
                   backup: Option<string>, steps: seq<Op>)
    requires Compared(source, target, cats, d) && steps == Steps(source, target, CategorySet(cats), prune)
    requires if Writing(d, prune, mode, provided, token, snapshot, backup) then reply.Applied?
             else reply == Unwritten(d, prune, mode, provided, token, ShownAll(steps))
    ensures Decides(reply, prune && SomeWiped(source, target, cats), steps == [], mode, provided, token, snapshot,
                    backup)
    ensures Explains(reply, source, target, cats, steps, token)
  {
    DiffTells(source, target, cats, d, prune);
    ReplyExplains(reply, source, target, cats, d, prune, mode, provided, token, steps);
    ReplyDecides(reply, d, prune, mode, provided, token, snapshot, backup, ShownAll(steps),
                 prune && SomeWiped(source, target, cats), steps == []);
  }

  /** The reply after a run, from its own fields: one result for each step, telling whether the request it was part of
      succeeded, and what came of a restart; what the reply calls in sync is in sync. */
  ghost predicate TellsAll(reply: Reply, source: Store, after: Store, cats: set<Category>, prune: bool,
                           steps: seq<Op>, fates: Id -> Fate, write: Option<ListWrite>)
    requires reply.Applied?
  {
    && |reply.ops| == |steps|
    && (forall i :: 0 <= i < |reply.ops| ==>
          && reply.ops[i].category == CategoryOf(steps[i].id)
          && reply.ops[i].action == steps[i].action
          && reply.ops[i].item == Label(steps[i].id)
          && (reply.ops[i].ok <==> Succeeds(steps[i].id, fates, write)))
    && (reply.restarted <==> write.Some? && (exists o :: o in steps && IsCname(o)) && var w := write.value;
          if w.fate.Succeeded? then w.back else w.uncertain && (w.back || (w.asked && w.backAgain)))
    && (reply.restartFailed <==> write.Some? && (exists o :: o in steps && IsCname(o)) && var w := write.value;
          if w.fate.Succeeded? then !w.back else w.uncertain && !w.back && (w.asked ==> !w.backAgain))
    && (reply.inSync ==> Steps(source, after, cats, prune) == [])
  }

  /** The tool once it has decided to write: the reply counts the results it lists. */
  method ApplyConfirmed(target: PiHole, d: seq<CategoryDiff>, prune: bool, snapshotPath: string, fates: Id -> Fate,
                        write: Option<ListWrite>, ghost source: Store, ghost cats: seq<Category>)
    returns (reply: Reply)
    requires forall cd :: cd in d ==> Consistent(cd)
    modifies target
    ensures var ops := PlanOf(ByCat(d), prune);
      target.store == Loop(old(target.store), ops, CnamesOf(ops), fates, write, false).store
    ensures reply.Applied? && reply.snapshotPath == snapshotPath
    ensures reply.applied == |set i | 0 <= i < |reply.ops| && reply.ops[i].ok|
    ensures reply.applied + reply.failed == |reply.ops|
    ensures reply.inSync <==> forall i :: 0 <= i < |reply.ops| ==> reply.ops[i].ok
    ensures reply.isError <==> reply.ops != [] && forall i :: 0 <= i < |reply.ops| ==> !reply.ops[i].ok
    ensures DiffBetween(source, old(target.store), cats, d) ==>
      TellsAll(reply, source, target.store, CategorySet(cats), prune,
               Steps(source, old(target.store), CategorySet(cats), prune), fates, write)
  {
    var res := ApplyPlan(target, d, prune, fates, write, source, cats);
    reply := Applied(res.applied, res.failed, res.ops, res.failed == 0, snapshotPath, res.restarted, res.restartFailed,
                     res.failed > 0 && res.applied == 0);
    CountsTell(res.ops);
    if DiffBetween(source, old(target.store), cats, d) {
      PlanIsSteps(source, old(target.store), cats, d, prune);
      NoneFailedInSync(source, old(target.store), CategorySet(cats), prune, fates, write);
    }
  }

  lemma NoneFailedInSync(source: Store, target: Store, cats: set<Category>, prune: bool, fates: Id -> Fate,
                         write: Option<ListWrite>)
    requires WellFormed(source) && WellFormed(target)
    ensures var run := Sync(source, target, cats, prune, fates, write);
      Count(run.ok, false) == 0 ==> Steps(source, run.store, cats, prune) == []
  {
    OnlyFailedAgain(source, target, cats, prune, fates, write);
    InSyncExact(source, Sync(source, target, cats, prune, fates, write).store, cats, prune);
  }

  /** instanceSyncHandler once it has the diff. The target is written to exactly when nothing is wiped, a matching
      token was given, something differs and the backup that was asked for was made. source and cats are those the
      diff was made of, if it was. */
  method HandleSync(target: PiHole, d: seq<CategoryDiff>, prune: bool, mode: string, provided: string, snapshot: bool,
                    backup: Option<string>, names: string, digest: string -> string, printable: char -> bool,
                    fates: Id -> Fate, write: Option<ListWrite>, ghost source: Store, ghost cats: seq<Category>)
    returns (reply: Reply)
    requires forall cd :: cd in d ==> Consistent(cd)
    modifies target
    ensures var ops := PlanOf(ByCat(d), prune);
      var token := digest(TokenText(names, prune, ops, printable));
      var run := Loop(old(target.store), ops, CnamesOf(ops), fates, write, false);
      if Writing(d, prune, mode, provided, token, snapshot, backup) then reply.Applied? && target.store == run.store
      else target.store == old(target.store) && reply == Unwritten(d, prune, mode, provided, token, ShownAll(ops))
    ensures DiffBetween(source, old(target.store), cats, d) ==>
      var steps := Steps(source, old(target.store), CategorySet(cats), prune);
      var token := digest(TokenText(names, prune, steps, printable));
      && Decides(reply, prune && SomeWiped(source, old(target.store), cats), steps == [], mode, provided, token,
                 snapshot, backup)
      && Explains(reply, source, old(target.store), cats, steps, token)
    ensures DiffBetween(source, old(target.store), cats, d) && reply.Applied? ==>
      TellsAll(reply, source, target.store, CategorySet(cats), prune,
               Steps(source, old(target.store), CategorySet(cats), prune), fates, write)
    ensures reply.Applied? ==>
      && reply.applied == |set i | 0 <= i < |reply.ops| && reply.ops[i].ok|
      && reply.applied + reply.failed == |reply.ops|
      && (reply.inSync <==> forall i :: 0 <= i < |reply.ops| ==> reply.ops[i].ok)
      && (reply.isError <==> reply.ops != [] && forall i :: 0 <= i < |reply.ops| ==> !reply.ops[i].ok)
      && (if snapshot then backup == Some(reply.snapshotPath) else reply.snapshotPath == "")
  {
    ghost var before := target.store;
    var ops := Plan(d, prune);
    var text := BuildTokenText(names, prune, ops, printable);
    var refusal := Check(d, prune, mode, provided, snapshot, backup, digest(text), ShownAll(ops));
    if refusal.Some? {
      reply := refusal.value;
    } else {
      reply := ApplyConfirmed(target, d, prune, if snapshot then backup.value else "", fates, write, source, cats);
    }
    if DiffBetween(source, before, cats, d) {
      PlanIsSteps(source, before, cats, d, prune);
      ReplyRight(reply, source, before, cats, d, prune, mode, provided, digest(text), snapshot, backup, ops);
    }
  }

  /** From plan to apply: when a call is given the token that an earlier reply showed with its plan, and applies, it
      is for the same instances as the plan and prunes exactly if it did, its results are those of the steps that the
      plan showed, in that order, and its writes are those of the plan. source' and target' are what the two Pi-holes
      held then; different texts are taken to have different digests. What is required of the two replies is what
      HandleSync ensures of them. */
  lemma AppliesWhatWasShown(names': string, source': Store, target': Store, cats': seq<Category>, prune': bool,
                            shown: Reply, names: string, source: Store, target: Store, after: Store,
                            cats: seq<Category>, prune: bool, mode: string, snapshot: bool, backup: Option<string>,
                            applied: Reply, digest: string -> string, printable: char -> bool, fates: Id -> Fate,
                            write: Option<ListWrite>)
    requires WellFormed(source') && WellFormed(source) && '\n' !in names && '\n' !in names'
    requires forall x, y :: digest(x) == digest(y) ==> x == y
    requires shown.PlanShown? && applied.Applied?
    requires var planned := Steps(source', target', CategorySet(cats'), prune');
      Explains(shown, source', target', cats', planned, digest(TokenText(names', prune', planned, printable)))
    requires var steps := Steps(source, target, CategorySet(cats), prune);
      && Decides(applied, prune && SomeWiped(source, target, cats), steps == [], mode, shown.token,
                 digest(TokenText(names, prune, steps, printable)), snapshot, backup)
      && TellsAll(applied, source, after, CategorySet(cats), prune, steps, fates, write)
    ensures names == names' && prune == prune' && |applied.ops| == |shown.steps|
    ensures forall i :: 0 <= i < |applied.ops| ==>
      && applied.ops[i].category == shown.steps[i].category
      && applied.ops[i].action == shown.steps[i].action
      && applied.ops[i].item == shown.steps[i].item
    ensures Writes(Steps(source, target, CategorySet(cats), prune)) ==
      Writes(Steps(source', target', CategorySet(cats'), prune'))
  {
    var planned := Steps(source', target', CategorySet(cats'), prune');
    var steps := Steps(source, target, CategorySet(cats), prune);
    TokenDecides(names, prune, steps, names', prune', planned, printable);
    ShownPlansDecide(source, target, source', target', CategorySet(cats), CategorySet(cats'), prune);
    SameShown(steps, planned);
  }

  lemma SameShown(a: seq<Op>, b: seq<Op>)
    requires ShownAll(a) == ShownAll(b)
    ensures |a| == |b| && forall i :: 0 <= i < |a| ==> Shown(a[i]) == Shown(b[i])
  {
    assert |a| == |ShownAll(a)| && |b| == |ShownAll(b)|;
    forall i | 0 <= i < |a| ensures Shown(a[i]) == Shown(b[i]) {
      assert ShownAll(a)[i] == Shown(a[i]) && ShownAll(b)[i] == Shown(b[i]);
    }
  }
}
