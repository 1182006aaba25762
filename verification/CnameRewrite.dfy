/** All the CNAME changes of a sync in one rewrite of the list, against making them one record at a time. */
module CnameRewrite {
  import opened Ordering

  datatype Change = Add(record: string) | Remove(record: string)

  /** The elements of xs not in drop and not seen before, each once, in order. */
  function Distinct(xs: seq<string>, drop: set<string>, present: set<string>): seq<string> {
    if xs == [] then []
    else if xs[0] in drop || xs[0] in present then Distinct(xs[1..], drop, present)
    else [xs[0]] + Distinct(xs[1..], drop, present + {xs[0]})
  }

  function Elements(xs: seq<string>): set<string> {
    set x | x in xs
  }

  function Dropped(changes: seq<Change>): set<string> {
    set c | c in changes && c.Remove? :: c.record
  }

  function Added(changes: seq<Change>): seq<string> {
    if changes == [] then []
    else if changes[0].Add? then [changes[0].record] + Added(changes[1..])
    else Added(changes[1..])
  }

  lemma ElementsConcat(a: seq<string>, b: seq<string>)
    ensures Elements(a + b) == Elements(a) + Elements(b)
    ensures Elements([]) == {}
  {}

  lemma ElementsCons(xs: seq<string>)
    requires xs != []
    ensures Elements(xs) == {xs[0]} + Elements(xs[1..])
  {}

  /** The list applyCNAMEs writes. */
  function Rewrite(current: seq<string>, changes: seq<Change>): seq<string> {
    var kept := Distinct(current, Dropped(changes), {});
    kept + Distinct(Added(changes), {}, Elements(kept))
  }

  /** The first loop of applyCNAMEs: what goes and what comes. */
  method Separate(changes: seq<Change>) returns (drop: set<string>, add: seq<string>)
    ensures drop == Dropped(changes) && add == Added(changes)
  {
    drop, add := {}, [];
    for i := 0 to |changes|
      invariant drop == Dropped(changes[..i])
      invariant add + Added(changes[i..]) == Added(changes)
    {
      assert changes[..i + 1] == changes[..i] + [changes[i]];
      assert changes[i..] == [changes[i]] + changes[i + 1..];
      match changes[i]
      case Remove(record) => drop := drop + {record};
      case Add(record) => add := add + [record];
    }
    assert changes[..|changes|] == changes && changes[|changes|..] == [];
  }

  /** Its other two loops, which append to next what is not to be dropped and not present yet. */
  method AppendNew(next: seq<string>, records: seq<string>, drop: set<string>) returns (longer: seq<string>)
    ensures longer == next + Distinct(records, drop, Elements(next))
  {
    longer := next;
    var present := Elements(next);
    for i := 0 to |records|
      invariant present == Elements(longer)
      invariant longer + Distinct(records[i..], drop, present) == next + Distinct(records, drop, Elements(next))
    {
      assert records[i..] == [records[i]] + records[i + 1..];
      if records[i] !in drop && records[i] !in present {
        ElementsConcat(longer, [records[i]]);
        assert longer + ([records[i]] + Distinct(records[i + 1..], drop, present + {records[i]})) ==
          longer + [records[i]] + Distinct(records[i + 1..], drop, present + {records[i]});
        present := present + {records[i]};
        longer := longer + [records[i]];
      }
    }
    assert records[|records|..] == [];
  }

  /** applyCNAMEs between its read and its write: next is what to write, and send says whether it differs. */
  method BuildNext(current: seq<string>, changes: seq<Change>) returns (next: seq<string>, send: bool)
    ensures next == Rewrite(current, changes)
    ensures send <==> next != current
  {
    var drop, add := Separate(changes);
    var none: seq<string> := [];
    assert Elements(none) == {};
    var kept := AppendNew(none, current, drop);
    assert kept == Distinct(current, drop, {});
    next := AppendNew(kept, add, {});
    send := next != current;
  }

  /** What Pi-hole does with one record added or removed on its own. */
  function Step(list: seq<string>, change: Change): seq<string> {
    match change
    case Add(record) => if record in list then list else list + [record]
    case Remove(record) => Without(list, record)
  }

  function Without(list: seq<string>, record: string): seq<string> {
    if list == [] then [] else (if list[0] == record then [] else [list[0]]) + Without(list[1..], record)
  }

  function Stepwise(list: seq<string>, changes: seq<Change>): seq<string>
    decreases |changes|
  {
    if changes == [] then list else Stepwise(Step(list, changes[0]), changes[1..])
  }

  lemma {:induction false} DistinctConcat(a: seq<string>, b: seq<string>, drop: set<string>, present: set<string>)
    ensures Distinct(a + b, drop, present) ==
      Distinct(a, drop, present) + Distinct(b, drop, present + Elements(Distinct(a, drop, present)))
  {
    if a == [] {
      assert a + b == b;
      assert present + Elements([]) == present;
    } else {
      assert (a + b)[1..] == a[1..] + b;
      if a[0] in drop || a[0] in present {
        DistinctConcat(a[1..], b, drop, present);
      } else {
        DistinctConcat(a[1..], b, drop, present + {a[0]});
        var rest := Distinct(a[1..], drop, present + {a[0]});
        assert present + {a[0]} + Elements(rest) == present + Elements([a[0]] + rest);
      }
    }
  }

  lemma {:induction false} DistinctElements(xs: seq<string>, drop: set<string>, present: set<string>)
    ensures Elements(Distinct(xs, drop, present)) == Elements(xs) - drop - present
    ensures NoRepeats(Distinct(xs, drop, present))
  {
    if xs != [] {
      ElementsCons(xs);
      if xs[0] in drop || xs[0] in present {
        DistinctElements(xs[1..], drop, present);
      } else {
        DistinctElements(xs[1..], drop, present + {xs[0]});
        var rest := Distinct(xs[1..], drop, present + {xs[0]});
        ElementsConcat([xs[0]], rest);
        assert forall x :: x in rest ==> x in Elements(rest);
      }
    }
  }

  lemma {:induction false} WithoutElements(list: seq<string>, record: string)
    ensures Elements(Without(list, record)) == Elements(list) - {record}
  {
    if list != [] {
      WithoutElements(list[1..], record);
      ElementsCons(list);
      ElementsConcat(if list[0] == record then [] else [list[0]], Without(list[1..], record));
    }
  }

  /** Removing a record and dropping it come to the same. */
  lemma {:induction false} DistinctWithout(list: seq<string>, record: string, drop: set<string>, present: set<string>)
    ensures Distinct(Without(list, record), drop, present) == Distinct(list, drop + {record}, present)
  {
    if list != [] {
      var rest := Without(list[1..], record);
      if list[0] == record {
        assert Without(list, record) == rest;
        DistinctWithout(list[1..], record, drop, present);
      } else {
        assert Without(list, record) == [list[0]] + rest;
        DistinctWithout(list[1..], record, drop, present);
        DistinctWithout(list[1..], record, drop, present + {list[0]});
      }
    }
  }

  /** No record is both added and removed. */
  ghost predicate Disjoint(changes: seq<Change>) {
    forall x :: x in Added(changes) ==> x !in Dropped(changes)
  }

  lemma {:induction false} AddedIn(changes: seq<Change>, x: string)
    ensures x in Added(changes) <==> Add(x) in changes
  {
    if changes != [] {
      AddedIn(changes[1..], x);
      assert changes == [changes[0]] + changes[1..];
    }
  }

  lemma DroppedCons(changes: seq<Change>)
    requires changes != []
    ensures Dropped(changes) == Dropped(changes[1..]) + if changes[0].Remove? then {changes[0].record} else {}
  {}

  lemma TailDisjoint(changes: seq<Change>)
    requires changes != [] && Disjoint(changes)
    ensures Disjoint(changes[1..])
  {
    DroppedCons(changes);
    forall x | x in Added(changes[1..]) ensures x in Added(changes) {}
  }

  /** One rewrite is exactly the records added and removed one by one, in whatever order, with repeats left out. */
  lemma {:induction false} RewriteRefinesSteps(current: seq<string>, changes: seq<Change>)
    requires Disjoint(changes)
    ensures Rewrite(current, changes) == Distinct(Stepwise(current, changes), {}, {})
    decreases |changes|
  {
    if changes == [] {
      assert Dropped([]) == {};
      assert Rewrite(current, []) == Distinct(current, {}, {});
    } else {
      TailDisjoint(changes);
      RewriteRefinesSteps(Step(current, changes[0]), changes[1..]);
      DroppedCons(changes);
      match changes[0]
      case Remove(record) =>
        DistinctWithout(current, record, Dropped(changes[1..]), {});
        assert Rewrite(Without(current, record), changes[1..]) == Rewrite(current, changes);
      case Add(record) =>
        assert changes == [Add(record)] + changes[1..];
        assert record in Added(changes);
        AddFirst(current, record, changes[1..]);
    }
  }

  /** Adding a record first and then making the other changes is adding it with them. */
  lemma AddFirst(current: seq<string>, record: string, rest: seq<Change>)
    requires record !in Dropped(rest)
    ensures Rewrite(Step(current, Add(record)), rest) == Rewrite(current, [Add(record)] + rest)
  {
    var changes := [Add(record)] + rest;
    DroppedCons(changes);
    assert changes[1..] == rest;
    var drop, add := Dropped(rest), Added(rest);
    assert Dropped(changes) == drop && Added(changes) == [record] + add;
    assert ([record] + add)[1..] == add;
    var kept := Distinct(current, drop, {});
    DistinctElements(current, drop, {});
    if record in current {
      assert record in Elements(current);
      assert Distinct([record] + add, {}, Elements(kept)) == Distinct(add, {}, Elements(kept));
    } else {
      assert record !in Elements(current);
      DistinctConcat(current, [record], drop, {});
      assert {} + Elements(kept) == Elements(kept);
      assert Distinct([record], drop, Elements(kept)) == [record] by { assert [record][1..] == []; }
      assert Distinct(current + [record], drop, {}) == kept + [record];
      ElementsConcat(kept, [record]);
      assert Elements([record]) == {record};
      assert Distinct([record] + add, {}, Elements(kept)) == [record] + Distinct(add, {}, Elements(kept) + {record});
      assert kept + ([record] + Distinct(add, {}, Elements(kept) + {record})) ==
        kept + [record] + Distinct(add, {}, Elements(kept) + {record});
    }
  }

  lemma JoinDistinct(a: seq<string>, b: seq<string>)
    requires NoRepeats(a) && NoRepeats(b) && Elements(a) !! Elements(b)
    ensures NoRepeats(a + b)
  {
    forall i, j | 0 <= i < j < |a + b| ensures (a + b)[i] != (a + b)[j] {
      if i < |a| <= j { assert a[i] in Elements(a) && b[j - |a|] in Elements(b); }
    }
  }

  /** The records afterwards are those before, less the removed, plus the added; none is there twice. */
  lemma RewriteElements(current: seq<string>, changes: seq<Change>)
    ensures Elements(Rewrite(current, changes)) == Elements(current) - Dropped(changes) + Elements(Added(changes))
    ensures NoRepeats(Rewrite(current, changes))
  {
    var kept := Distinct(current, Dropped(changes), {});
    DistinctElements(current, Dropped(changes), {});
    DistinctElements(Added(changes), {}, Elements(kept));
    var added := Distinct(Added(changes), {}, Elements(kept));
    ElementsConcat(kept, added);
    JoinDistinct(kept, added);
  }

  lemma {:induction false} DistinctNothingToDo(xs: seq<string>, drop: set<string>, present: set<string>)
    requires NoRepeats(xs) && forall x :: x in xs ==> x !in drop && x !in present
    ensures Distinct(xs, drop, present) == xs
  {
    if xs != [] { DistinctNothingToDo(xs[1..], drop, present + {xs[0]}); }
  }

  lemma {:induction false} DistinctAllPresent(xs: seq<string>, present: set<string>)
    requires Elements(xs) <= present
    ensures Distinct(xs, {}, present) == []
  {
    if xs != [] {
      assert xs[0] in Elements(xs);
      assert Elements(xs[1..]) <= Elements(xs);
      DistinctAllPresent(xs[1..], present);
    }
  }

  /** Making the same changes again changes nothing, so the second sync sends no write. */
  lemma RewriteIdempotent(current: seq<string>, changes: seq<Change>)
    requires Disjoint(changes)
    ensures Rewrite(Rewrite(current, changes), changes) == Rewrite(current, changes)
  {
    var next := Rewrite(current, changes);
    RewriteElements(current, changes);
    forall x | x in next ensures x !in Dropped(changes) {
      assert x in Elements(next);
    }
    DistinctNothingToDo(next, Dropped(changes), {});
    DistinctAllPresent(Added(changes), Elements(next));
  }
}
